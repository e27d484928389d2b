/** Client-side checks mirroring the `buckets` and `internal_allocator_wrapper`
    tests of src/allocator.rs, stated against the contracts only. */
module AllocatorTests {
  import opened Types
  import opened Buckets
  import opened Allocator
  import opened Facade

  /** Requests of exactly 8, 16 and 24 bytes each fill their own class, and
      24 + 128 bytes goes to the dynamic bucket. */
  lemma BucketsTestRouting()
    ensures Route([8, 16, 24], 8) == Fixed(0)
    ensures Route([8, 16, 24], 16) == Fixed(1)
    ensures Route([8, 16, 24], 24) == Fixed(2)
    ensures Route([8, 16, 24], 24 + 128) == Dynamic
  {
  }

  /** Number of outstanding allocations in each fixed bucket. */
  ghost function LiveCounts(st: State): seq<nat> {
    seq(|st.fixed|, i requires 0 <= i < |st.fixed| => |st.fixed[i].live|)
  }

  /** Allocating in fixed bucket `i` adds one outstanding allocation there and
      nowhere else. */
  lemma AllocCounts(st: State, layout: Layout, a: Addr, i: nat)
    requires st.Valid() && Route(st.sizes, layout.size) == Fixed(i)
    ensures LiveCounts(AllocStep(st, layout, Some(a)).0) == LiveCounts(st)[i := LiveCounts(st)[i] + 1]
  {
  }

  /** Freeing in fixed bucket `i` removes one outstanding allocation there and
      nowhere else. */
  lemma DeallocCounts(st: State, address: Addr, layout: Layout, i: nat)
    requires IsLive(st, address, layout) && Route(st.sizes, layout.size) == Fixed(i)
    ensures LiveCounts(DeallocStep(st, address, layout)) == LiveCounts(st)[i := LiveCounts(st)[i] - 1]
  {
  }

  /** The first half of the `buckets` test: requests of 8, 16 and 24 bytes land
      in buckets 0, 1 and 2, one at a time. Addresses are whatever the page
      provider supplies. */
  method BucketsTestAllocate(a1: Addr, a2: Addr, a3: Addr) returns (allocator: InternalAllocator)
    ensures fresh(allocator) && fresh(allocator.buckets)
    ensures allocator.Valid() && allocator.Model().sizes == [8, 16, 24]
    ensures LiveCounts(allocator.Model()) == [1, 1, 1] && allocator.Model().dyn.IsEmpty()
    ensures IsLive(allocator.Model(), a1, Layout(8, 1))
    ensures IsLive(allocator.Model(), a2, Layout(16, 1))
    ensures IsLive(allocator.Model(), a3, Layout(24, 1))
  {
    allocator := new InternalAllocator.WithBucketSizes([8, 16, 24]);
    BucketsTestRouting();
    var l1, l2, l3 := Layout(8, 1), Layout(16, 1), Layout(24, 1);
    ghost var s0 := allocator.Model();
    assert LiveCounts(s0) == [0, 0, 0];

    var r := allocator.Allocate(l1, Some(a1));
    ghost var s1 := allocator.Model();
    AllocCounts(s0, l1, a1, 0);
    AllocMakesLive(s0, l1, a1);
    assert LiveCounts(s1) == [1, 0, 0];

    r := allocator.Allocate(l2, Some(a2));
    ghost var s2 := allocator.Model();
    AllocCounts(s1, l2, a2, 1);
    AllocMakesLive(s1, l2, a2);
    AllocKeepsLive(s1, l2, Some(a2), a1, l1);
    assert LiveCounts(s2) == [1, 1, 0];

    r := allocator.Allocate(l3, Some(a3));
    ghost var s3 := allocator.Model();
    AllocCounts(s2, l3, a3, 2);
    AllocMakesLive(s2, l3, a3);
    AllocKeepsLive(s2, l3, Some(a3), a1, l1);
    AllocKeepsLive(s2, l3, Some(a3), a2, l2);
    assert LiveCounts(s3) == [1, 1, 1];
  }

  /** The second half of the `buckets` test: freeing the three blocks empties
      buckets 0, 1 and 2 one at a time, and an oversized request then touches
      only the dynamic bucket, which freeing empties again. */
  method BucketsTest(a1: Addr, a2: Addr, a3: Addr, a4: Addr) returns (allocator: InternalAllocator)
    ensures allocator.Valid() && allocator.Model().IsEmpty()
  {
    allocator := BucketsTestAllocate(a1, a2, a3);
    BucketsTestRouting();
    var l1, l2, l3, l4 := Layout(8, 1), Layout(16, 1), Layout(24, 1), Layout(24 + 128, 1);
    ghost var s3 := allocator.Model();

    allocator.Deallocate(a1, l1);
    ghost var s4 := allocator.Model();
    DeallocCounts(s3, a1, l1, 0);
    DeallocKeepsOthersLive(s3, a1, l1, a2, l2);
    DeallocKeepsOthersLive(s3, a1, l1, a3, l3);
    assert LiveCounts(s4) == [0, 1, 1];

    allocator.Deallocate(a2, l2);
    ghost var s5 := allocator.Model();
    DeallocCounts(s4, a2, l2, 1);
    DeallocKeepsOthersLive(s4, a2, l2, a3, l3);
    assert LiveCounts(s5) == [0, 0, 1];

    allocator.Deallocate(a3, l3);
    ghost var s6 := allocator.Model();
    DeallocCounts(s5, a3, l3, 2);
    assert LiveCounts(s6) == [0, 0, 0];

    var r := allocator.Allocate(l4, Some(a4));
    ghost var s7 := allocator.Model();
    assert LiveCounts(s7) == [0, 0, 0] && |s7.dyn.live| == 1;

    allocator.Deallocate(a4, l4);
    AllocThenDeallocRestores(s6, l4, a4);
    assert allocator.Model() == s6;
    assert forall i :: 0 <= i < |s6.fixed| ==> s6.fixed[i].IsEmpty() by {
      assert forall i :: 0 <= i < |s6.fixed| ==> |s6.fixed[i].live| == LiveCounts(s6)[i];
    }
  }

  /** The `internal_allocator_wrapper` test on the façade with the default
      configuration: a small and a two-page request, both freed again. */
  method WrapperTest(a1: Addr, a2: Addr, pageSize: nat) returns (allocator: MmapAllocator)
    requires a1 != a2
    ensures allocator.Valid()
  {
    allocator := new MmapAllocator.WithDefaultConfig();
    var layout1, layout2 := Layout(8, 1), Layout(pageSize * 2, 1);
    ghost var s0 := allocator.Model();
    var r1 := allocator.Allocate(layout1, true, Some(a1));
    AllocMakesLive(s0, layout1, a1);
    ghost var s1 := allocator.Model();
    var r2 := allocator.Allocate(layout2, true, Some(a2));
    AllocMakesLive(s1, layout2, a2);
    AllocKeepsLive(s1, layout2, Some(a2), a1, layout1);
    ghost var s2 := allocator.Model();
    assert r1 == Ok(a1) && r2 == Ok(a2);
    allocator.Deallocate(a1, layout1, true);
    DeallocKeepsOthersLive(s2, a1, layout1, a2, layout2);
    allocator.Deallocate(a2, layout2, true);
  }
}
