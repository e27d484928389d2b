/** `InternalAllocator` (src/allocator.rs): N fixed-size buckets plus one dynamic
    bucket, and the size-class routing that picks the bucket for a request. */
module Allocator {
  import opened Types
  import opened Buckets

  /** The bucket a request is routed to: `buckets[index]` or `dyn_bucket`. */
  datatype Target = Fixed(index: nat) | Dynamic

  /** Rank of a target in scan order; the dynamic bucket comes after every fixed one. */
  function Rank(sizes: seq<nat>, t: Target): nat {
    match t
    case Fixed(i) => i
    case Dynamic => |sizes|
  }

  /** First-fit routing, stated declaratively: a fixed bucket whose class holds
      the request and no earlier class does, or the dynamic bucket when no class
      holds it. */
  ghost predicate RoutesTo(sizes: seq<nat>, size: nat, t: Target) {
    match t
    case Fixed(i) => i < |sizes| && size <= sizes[i] && forall j :: 0 <= j < i ==> sizes[j] < size
    case Dynamic => forall j :: 0 <= j < |sizes| ==> sizes[j] < size
  }

  /** Scan of the classes from index `k` on, knowing that none before `k` fits. */
  function RouteFrom(sizes: seq<nat>, size: nat, k: nat): (t: Target)
    requires k <= |sizes|
    requires forall j :: 0 <= j < k ==> sizes[j] < size
    ensures RoutesTo(sizes, size, t)
    decreases |sizes| - k
  {
    if k == |sizes| then Dynamic
    else if size <= sizes[k] then Fixed(k)
    else RouteFrom(sizes, size, k + 1)
  }

  /** The bucket `dispatch` picks for a request of `size` bytes. */
  function Route(sizes: seq<nat>, size: nat): (t: Target)
    ensures RoutesTo(sizes, size, t)
  {
    RouteFrom(sizes, size, 0)
  }

  /** Exactly one target satisfies the routing rule, and it is `Route`. */
  lemma RouteUnique(sizes: seq<nat>, size: nat, t: Target)
    ensures RoutesTo(sizes, size, t) <==> t == Route(sizes, size)
  {
  }

  ghost predicate Ascending(sizes: seq<nat>) {
    forall j, k :: 0 <= j < k < |sizes| ==> sizes[j] < sizes[k]
  }

  /** With ascending classes, a size in `(sizes[i-1], sizes[i]]` goes to bucket `i`. */
  lemma RouteInClassInterval(sizes: seq<nat>, size: nat, i: nat)
    requires Ascending(sizes)
    requires i < |sizes| && size <= sizes[i]
    requires i == 0 || sizes[i - 1] < size
    ensures Route(sizes, size) == Fixed(i)
  {
    forall j | 0 <= j < i
      ensures sizes[j] < size
    {
      if j < i - 1 {
        assert sizes[j] < sizes[i - 1];
      }
    }
    RouteUnique(sizes, size, Fixed(i));
  }

  /** A request larger than every class goes to the dynamic bucket, and only such a request. */
  lemma RouteDynamicIffTooLarge(sizes: seq<nat>, size: nat)
    ensures Route(sizes, size) == Dynamic <==> forall j :: 0 <= j < |sizes| ==> sizes[j] < size
  {
    RouteUnique(sizes, size, Dynamic);
  }

  /** With ascending classes, a request above the largest class goes to the
      dynamic bucket. */
  lemma RouteBeyondLargest(sizes: seq<nat>, size: nat)
    requires Ascending(sizes) && |sizes| > 0 && size > sizes[|sizes| - 1]
    ensures Route(sizes, size) == Dynamic
  {
    forall j | 0 <= j < |sizes|
      ensures sizes[j] < size
    {
      if j < |sizes| - 1 {
        assert sizes[j] < sizes[|sizes| - 1];
      }
    }
    RouteDynamicIffTooLarge(sizes, size);
  }

  /** Without ascending classes, exceeding the last class is not enough: an
      earlier, larger class still takes the request. */
  lemma UnsortedClassesRouteEarlier()
    ensures 50 > [100, 10][1] && Route([100, 10], 50) == Fixed(0)
  {
  }

  /** A larger request never goes to an earlier bucket (any class order). */
  lemma RouteMonotone(sizes: seq<nat>, s1: nat, s2: nat)
    requires s1 <= s2
    ensures Rank(sizes, Route(sizes, s1)) <= Rank(sizes, Route(sizes, s2))
  {
  }

  /** The whole allocator as a value: the configured classes, the fixed buckets
      and the dynamic bucket. */
  datatype State = State(sizes: seq<nat>, fixed: seq<Bucket>, dyn: Bucket) {

    /** One bucket per configured class (`sizes: [usize; N]`, `buckets: [Bucket; N]`). */
    predicate Valid() {
      |fixed| == |sizes|
    }

    predicate Has(t: Target) {
      t.Fixed? ==> t.index < |fixed|
    }

    function Get(t: Target): Bucket
      requires Has(t)
    {
      match t
      case Fixed(i) => fixed[i]
      case Dynamic => dyn
    }

    /** Replaces the bucket at `t`; every other bucket and the classes stay as they are. */
    function Put(t: Target, b: Bucket): (s: State)
      requires Has(t)
      ensures s.sizes == sizes && |s.fixed| == |fixed| && s.Has(t) && s.Get(t) == b
      ensures forall u :: Has(u) && u != t ==> s.Get(u) == Get(u)
    {
      match t
      case Fixed(i) => State(sizes, fixed[i := b], dyn)
      case Dynamic => State(sizes, fixed, b)
    }

    predicate IsEmpty() {
      dyn.IsEmpty() && forall i :: 0 <= i < |fixed| ==> fixed[i].IsEmpty()
    }
  }

  /** The bucket `dispatch` picks in state `st`. */
  function Routed(st: State, size: nat): (t: Target)
    requires st.Valid()
    ensures st.Has(t)
  {
    Route(st.sizes, size)
  }

  /** `address` was handed out for `layout` and is not freed yet, in the bucket
      that requests of `layout` are routed to. */
  predicate IsLive(st: State, address: Addr, layout: Layout) {
    st.Valid() && Allocation(address, layout.size) in st.Get(Routed(st, layout.size)).live
  }

  /** `InternalAllocator::allocate`: the routed bucket serves the request. */
  function AllocStep(st: State, layout: Layout, placement: Option<Addr>): (out: (State, AllocResult))
    requires st.Valid()
    ensures out.0.Valid() && out.0.sizes == st.sizes
    ensures forall u :: st.Has(u) && u != Routed(st, layout.size) ==> out.0.Get(u) == st.Get(u)
  {
    var t := Routed(st, layout.size);
    var (b, r) := st.Get(t).Allocate(layout, placement);
    (st.Put(t, b), r)
  }

  /** `InternalAllocator::deallocate`: the routed bucket takes the block back. */
  function DeallocStep(st: State, address: Addr, layout: Layout): (st': State)
    requires IsLive(st, address, layout)
    ensures st'.Valid() && st'.sizes == st.sizes
    ensures forall u :: st.Has(u) && u != Routed(st, layout.size) ==> st'.Get(u) == st.Get(u)
  {
    var t := Routed(st, layout.size);
    st.Put(t, st.Get(t).Deallocate(address, layout))
  }

  /** A failed allocation reports `AllocError` and changes nothing. */
  lemma AllocFailureChangesNothing(st: State, layout: Layout)
    requires st.Valid()
    ensures AllocStep(st, layout, None) == (st, Err(AllocError))
  {
    var t := Routed(st, layout.size);
    match t
    case Fixed(i) =>
      assert st.fixed[i := st.fixed[i]] == st.fixed;
    case Dynamic =>
  }

  /** A successful allocation returns the placement, and the address is then live:
      a later deallocation with the same layout reaches the same bucket. */
  lemma AllocMakesLive(st: State, layout: Layout, a: Addr)
    requires st.Valid()
    ensures AllocStep(st, layout, Some(a)).1 == Ok(a)
    ensures IsLive(AllocStep(st, layout, Some(a)).0, a, layout)
  {
  }

  /** Allocating and then freeing the same block restores the allocator exactly. */
  lemma AllocThenDeallocRestores(st: State, layout: Layout, a: Addr)
    requires st.Valid()
    ensures IsLive(AllocStep(st, layout, Some(a)).0, a, layout)
    ensures DeallocStep(AllocStep(st, layout, Some(a)).0, a, layout) == st
  {
    var t := Routed(st, layout.size);
    var st' := AllocStep(st, layout, Some(a)).0;
    AllocateThenDeallocate(st.Get(t), layout, a);
    match t
    case Fixed(i) =>
      assert st'.fixed[i := st.fixed[i]] == st.fixed;
    case Dynamic =>
  }

  /** Allocation never makes an outstanding block stop being live. */
  lemma AllocKeepsLive(st: State, layout: Layout, placement: Option<Addr>, a: Addr, l: Layout)
    requires IsLive(st, a, l)
    ensures IsLive(AllocStep(st, layout, placement).0, a, l)
  {
  }

  /** Freeing one block leaves every other outstanding block live. */
  lemma DeallocKeepsOthersLive(st: State, address: Addr, layout: Layout, a: Addr, l: Layout)
    requires IsLive(st, address, layout) && IsLive(st, a, l)
    requires Allocation(a, l.size) != Allocation(address, layout.size)
    ensures IsLive(DeallocStep(st, address, layout), a, l)
  {
    var t := Routed(st, layout.size);
    if Routed(st, l.size) == t {
      DeallocateKeepsOthers(st.Get(t), address, layout, Allocation(a, l.size));
    }
  }

  /** The default configuration: three classes of 128, 1024 and 8192 bytes. */
  const DefaultSizes: seq<nat> := [128, 1024, 8192]

  lemma DefaultSizesAscending()
    ensures Ascending(DefaultSizes) && forall i :: 0 <= i < |DefaultSizes| ==> DefaultSizes[i] > 0
  {
  }

  /** `InternalAllocator<N>`: the mutable engine. `buckets` is the inline array
      `[Bucket; N]`; `Bucket` is a plain value there (it is `Copy` in the source). */
  class InternalAllocator {
    var sizes: seq<nat>
    const buckets: array<Bucket>
    var dynBucket: Bucket

    ghost predicate Valid()
      reads this
    {
      buckets.Length == |sizes|
    }

    /** The abstract value of the engine. */
    ghost function Model(): (st: State)
      reads this, buckets
      requires Valid()
      ensures st.Valid()
    {
      State(sizes, buckets[..], dynBucket)
    }

    /** `InternalAllocator::with_bucket_sizes`: the classes as given, every bucket empty. */
    constructor WithBucketSizes(sizes: seq<nat>)
      ensures Valid() && fresh(buckets)
      ensures Model().sizes == sizes && Model().IsEmpty()
    {
      this.sizes := sizes;
      buckets := new Bucket[|sizes|](_ => New());
      dynBucket := New();
    }

    /** `InternalAllocator::dispatch`: the first bucket whose class holds the
        request, in index order, else the dynamic bucket. */
    method Dispatch(layout: Layout) returns (t: Target)
      requires Valid()
      ensures t == Route(sizes, layout.size)
    {
      for i := 0 to buckets.Length
        invariant forall j :: 0 <= j < i ==> sizes[j] < layout.size
      {
        if layout.size <= sizes[i] {
          RouteUnique(sizes, layout.size, Fixed(i));
          return Fixed(i);
        }
      }
      RouteUnique(sizes, layout.size, Dynamic);
      return Dynamic;
    }

    /** `InternalAllocator::allocate`. */
    method Allocate(layout: Layout, placement: Option<Addr>) returns (r: AllocResult)
      requires Valid()
      modifies this, buckets
      ensures Valid()
      ensures (Model(), r) == AllocStep(old(Model()), layout, placement)
    {
      var t := Dispatch(layout);
      match t
      case Fixed(i) =>
        var (b, res) := buckets[i].Allocate(layout, placement);
        buckets[i] := b;
        r := res;
      case Dynamic =>
        var (b, res) := dynBucket.Allocate(layout, placement);
        dynBucket := b;
        r := res;
    }

    /** `InternalAllocator::deallocate`. */
    method Deallocate(address: Addr, layout: Layout)
      requires Valid() && IsLive(Model(), address, layout)
      modifies this, buckets
      ensures Valid()
      ensures Model() == DeallocStep(old(Model()), address, layout)
    {
      var t := Dispatch(layout);
      match t
      case Fixed(i) =>
        buckets[i] := buckets[i].Deallocate(address, layout);
      case Dynamic =>
        dynBucket := dynBucket.Deallocate(address, layout);
    }
  }
}
