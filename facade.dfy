/** `MmapAllocator` (src/allocator.rs): the public allocator, an
    `InternalAllocator` behind a mutex. The mutex itself is not modelled; each
    call takes the outcome of `lock()` as the input `lockAcquired`. */
module Facade {
  import opened Types
  import opened Allocator

  /** `GlobalAlloc::alloc`'s mapping of a result to a raw pointer: the address on
      success, null (0) on failure. */
  function RawPointer(r: AllocResult): (p: nat)
    ensures p == 0 <==> r.Err?
    ensures r.Ok? ==> p == r.address
  {
    match r
    case Ok(a) => a
    case Err(_) => 0
  }

  class MmapAllocator {
    const inner: InternalAllocator

    ghost predicate Valid()
      reads this, inner
    {
      inner.Valid()
    }

    ghost function Model(): State
      reads this, inner, inner.buckets
      requires Valid()
    {
      inner.Model()
    }

    /** `MmapAllocator::with_default_config` (also `Default::default`). */
    constructor WithDefaultConfig()
      ensures Valid() && fresh(inner) && fresh(inner.buckets)
      ensures Model().sizes == DefaultSizes && Model().IsEmpty()
    {
      inner := new InternalAllocator.WithBucketSizes(DefaultSizes);
    }

    /** `MmapAllocator::with_bucket_sizes`. */
    constructor WithBucketSizes(sizes: seq<nat>)
      ensures Valid() && fresh(inner) && fresh(inner.buckets)
      ensures Model().sizes == sizes && Model().IsEmpty()
    {
      inner := new InternalAllocator.WithBucketSizes(sizes);
    }

    /** `Allocator::allocate`: a lock that cannot be taken is an `AllocError`. */
    method Allocate(layout: Layout, lockAcquired: bool, placement: Option<Addr>) returns (r: AllocResult)
      requires Valid()
      modifies inner, inner.buckets
      ensures Valid()
      ensures !lockAcquired ==> r == Err(AllocError) && Model() == old(Model())
      ensures lockAcquired ==> (Model(), r) == AllocStep(old(Model()), layout, placement)
    {
      if lockAcquired {
        r := inner.Allocate(layout, placement);
      } else {
        r := Err(AllocError);
      }
    }

    /** `Allocator::deallocate`: a lock that cannot be taken skips the free. */
    method Deallocate(address: Addr, layout: Layout, lockAcquired: bool)
      requires Valid() && IsLive(Model(), address, layout)
      modifies inner, inner.buckets
      ensures Valid()
      ensures Model() == if lockAcquired then DeallocStep(old(Model()), address, layout) else old(Model())
    {
      if lockAcquired {
        inner.Deallocate(address, layout);
      }
    }

    /** `GlobalAlloc::alloc`: null exactly when `allocate` fails, else the address. */
    method Alloc(layout: Layout, lockAcquired: bool, placement: Option<Addr>) returns (p: nat)
      requires Valid()
      modifies inner, inner.buckets
      ensures Valid()
      ensures p == 0 <==> !lockAcquired || placement.None?
      ensures p != 0 ==> p == placement.value
      ensures lockAcquired ==> Model() == AllocStep(old(Model()), layout, placement).0
      ensures !lockAcquired ==> Model() == old(Model())
    {
      var r := Allocate(layout, lockAcquired, placement);
      p := RawPointer(r);
    }

    /** `GlobalAlloc::dealloc`: forwards to `deallocate`; the pointer must not be null. */
    method Dealloc(ptr: nat, layout: Layout, lockAcquired: bool)
      requires Valid() && ptr > 0 && IsLive(Model(), ptr, layout)
      modifies inner, inner.buckets
      ensures Valid()
      ensures Model() == if lockAcquired then DeallocStep(old(Model()), ptr, layout) else old(Model())
    {
      Deallocate(ptr, layout, lockAcquired);
    }
  }
}
