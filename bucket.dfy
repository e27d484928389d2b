/** An abstract view of one size-class bucket (`crate::bucket::Bucket`). The
    bucket's regions, blocks and free list are not part of this model: a bucket
    is seen only through the allocations it currently has outstanding. Where a
    successful allocation is placed is decided by the bucket's internals and the
    page provider, so it enters as the input `placement`: `Some(address)` when
    the bucket can serve the request at `address`, `None` when mapping a new
    region fails. */
module Buckets {
  import opened Types

  /** One live allocation: the content address handed out and its requested size. */
  datatype Allocation = Allocation(address: Addr, size: nat)

  datatype Bucket = Bucket(live: multiset<Allocation>) {

    predicate IsEmpty() {
      |live| == 0
    }

    /** `Bucket::allocate`. It fails only when no placement is available, and a
        failed allocation leaves the bucket exactly as it was. */
    function Allocate(layout: Layout, placement: Option<Addr>): (out: (Bucket, AllocResult))
      ensures out.1.Err? <==> placement.None?
      ensures out.1.Err? ==> out.0 == this
      ensures out.1.Ok? ==> out.1.address == placement.value
      ensures out.1.Ok? ==> Allocation(out.1.address, layout.size) in out.0.live
      ensures out.1.Ok? ==> |out.0.live| == |live| + 1
    {
      match placement
      case None => (this, Err(AllocError))
      case Some(a) => (Bucket(live + multiset{Allocation(a, layout.size)}), Ok(a))
    }

    /** `Bucket::deallocate`. The caller must hand back an address this bucket
        allocated with the same layout and has not freed yet. */
    function Deallocate(address: Addr, layout: Layout): (b: Bucket)
      requires Allocation(address, layout.size) in live
      ensures |b.live| + 1 == |live|
      ensures b.live[Allocation(address, layout.size)] + 1 == live[Allocation(address, layout.size)]
    {
      Bucket(live - multiset{Allocation(address, layout.size)})
    }
  }

  /** `Bucket::new()`. */
  function New(): (b: Bucket)
    ensures b.IsEmpty()
  {
    Bucket(multiset{})
  }

  /** Freeing what was just allocated restores the bucket exactly. */
  lemma AllocateThenDeallocate(b: Bucket, layout: Layout, a: Addr)
    ensures b.Allocate(layout, Some(a)).0.Deallocate(a, layout) == b
  {
    var x := Allocation(a, layout.size);
    assert (b.live + multiset{x}) - multiset{x} == b.live;
  }

  /** An outstanding allocation other than the one freed stays outstanding. */
  lemma DeallocateKeepsOthers(b: Bucket, address: Addr, layout: Layout, other: Allocation)
    requires Allocation(address, layout.size) in b.live
    requires other in b.live && other != Allocation(address, layout.size)
    ensures other in b.Deallocate(address, layout).live
  {
  }
}
