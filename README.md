# memalloc-rust: size-class routing and header arithmetic

This project models two sequential pieces of the `mmap`-backed general-purpose
allocator `MmapAllocator` and proves properties about them:

* **Size-class routing** (`src/allocator.rs`). `InternalAllocator` holds N
  fixed-size buckets, one per configured size class, and one dynamic bucket.
  `dispatch` scans classes in index order. It picks the first bucket whose class
  is at least the request size, and falls back to the dynamic bucket.
  `allocate` and `deallocate` forward to that bucket. Around it,
  `MmapAllocator` adds a mutex and the `Allocator` / `GlobalAlloc` result
  mappings.
* **Header ↔ content addresses** (`src/header.rs`). Every block and region
  starts with a `Header<T>`. The content address is the header address plus
  `size_of::<Header<T>>()`, and back.

Layout of the Dafny project:

| file | module | what it holds |
|---|---|---|
| `types.dfy` | `Types` | non-null addresses (`Addr`, null is 0), `Layout`, `AllocResult` |
| `header.dfy` | `Header` | the two address transforms; round trips; adjacency and disjointness of header and content bytes |
| `bucket.dfy` | `Buckets` | an abstract bucket: the multiset of its outstanding `(address, size)` allocations |
| `allocator.dfy` | `Allocator` | `Route` and its first-fit characterisation `RoutesTo`; the value `State`; the steps `AllocStep` / `DeallocStep`; the class `InternalAllocator` with the `Dispatch` loop |
| `facade.dfy` | `Facade` | the class `MmapAllocator`, with the lock outcome as an input |
| `allocator_tests.dfy` | `AllocatorTests` | the `buckets` and `internal_allocator_wrapper` tests, as client methods proved from the contracts |

Modelling decisions:

* `InternalAllocator` is a class. `buckets` is an `array<Bucket>` and
  `dynBucket` and `sizes` are fields. `Model()` gives its value as a `State`.
  `Allocate` and `Deallocate` are proved equal to the pure steps `AllocStep`
  and `DeallocStep`, and the lemmas are stated about those steps.
* `Bucket` is a datatype value, because the source's `Bucket` is `Copy`
  (`[Bucket::new(); N]`). Its regions, blocks and free list are not part of this
  model. A bucket is seen only through its outstanding allocations. Where a
  successful allocation lands, and whether mapping a new region fails, is decided
  by the bucket's internals, which this model does not cover, and by the page
  provider. It enters every allocation as the
  input `placement: Option<Addr>`.
* The lock outcome of `Mutex::lock` is the boolean input `lockAcquired`.
* Addresses are naturals. `NonNull` is the subtype `Addr` of positive
  naturals. The header size is a positive parameter `hs`, since it depends on
  the payload type.
* `Header.FromContentAddress` requires `content > hs`, not just `content >= hs`.
  The function returns a `NonNull<Header<T>>` built with `new_unchecked`, so
  the header address `content - hs` must be non-zero.
* `with_bucket_sizes` does not check that the classes are positive or
  increasing, so the constructors accept any `seq<nat>`. `Allocator.Ascending`
  is the hypothesis of the class-interval lemma and of `RouteBeyondLargest`, and
  `DefaultSizesAscending` proves it of the default classes.
* The comment on `dyn_bucket` (src/allocator.rs:66) says requests larger than
  `sizes[N - 1]` go there. `RouteBeyondLargest` proves this when the classes
  ascend. For unsorted classes `UnsortedClassesRouteEarlier` shows that it fails:
  with classes `[100, 10]` a request of 50 goes to bucket 0. The exact rule,
  for any class order, is `RouteDynamicIffTooLarge`.

## Model

| member | source | states |
|---|---|---|
| `Header.ContentAddressOf` | src/header.rs:64-66 | the content address of a non-null header lies strictly after it and is a valid argument of `FromContentAddress` |
| `Header.FromContentAddress` | src/header.rs:27-36 | defined only for an address with a whole non-null header before it; the header lies strictly before the content |
| `Header.FromContentOfHeader` | src/header.rs:34-36 | `from_content_address(content_address_of(h)) == h` for every header address |
| `Header.ContentOfHeaderFrom` | src/header.rs:64-66 | `content_address_of(from_content_address(c)) == c` for every content address |
| `Header.HeaderContentAdjacent` | src/header.rs:38-57 | header bytes `[h, h+hs)` and content bytes `[h+hs, h+hs+size)` share no byte and together form `[h, h+hs+size)`; content begins at the first byte after the header |
| `Header.ContentAddressMonotone` | src/header.rs:64-66 | `content_address_of` is injective and order-preserving |
| `Header.FromContentAddressInjective` | src/header.rs:34-36 | `from_content_address` is injective and order-preserving on content addresses |
| `Buckets.New` | src/allocator.rs:78-79 | `Bucket::new()` has no outstanding allocation |
| `Buckets.Bucket.Allocate` | src/allocator.rs:97 | the bucket fails exactly when no placement is available and is then unchanged; on success it returns the placement and records one more outstanding allocation of the requested size |
| `Buckets.Bucket.Deallocate` | src/allocator.rs:102 | freeing an outstanding allocation removes exactly one occurrence of it |
| `Buckets.AllocateThenDeallocate` | src/allocator.rs:97-102 | freeing the block just allocated restores the bucket exactly |
| `Buckets.DeallocateKeepsOthers` | src/allocator.rs:102 | freeing one allocation leaves every other outstanding allocation outstanding |
| `Allocator.RouteFrom` | src/allocator.rs:85-91 | the scan from index `k`, given that no earlier class fits, yields a target satisfying the first-fit rule `RoutesTo` |
| `Allocator.Route` | src/allocator.rs:84-92 | the routed target satisfies `RoutesTo`: a fixed bucket `i` with `size <= sizes[i]` and `sizes[j] < size` for all `j < i`, or the dynamic bucket when every class is smaller than the request |
| `Allocator.RouteUnique` | src/allocator.rs:84-92 | a target satisfies the first-fit rule if and only if it is the routed one |
| `Allocator.RouteInClassInterval` | src/allocator.rs:84-92 | with ascending classes, a size in `(sizes[i-1], sizes[i]]` (or `[0, sizes[0]]`) routes to bucket `i` |
| `Allocator.RouteDynamicIffTooLarge` | src/allocator.rs:84-92 | a request routes to `dyn_bucket` if and only if it exceeds every configured class |
| `Allocator.RouteBeyondLargest` | src/allocator.rs:66 | with ascending classes, a request larger than the last class `sizes[N - 1]` routes to `dyn_bucket` |
| `Allocator.UnsortedClassesRouteEarlier` | src/allocator.rs:66 | with unsorted classes `[100, 10]`, a request of 50 exceeds the last class yet routes to bucket 0 |
| `Allocator.RouteMonotone` | src/allocator.rs:84-92 | a larger request never routes to an earlier bucket |
| `Allocator.State.Put` | src/allocator.rs:87 | replacing the bucket at one target leaves the classes and every other bucket unchanged |
| `Allocator.Routed` | src/allocator.rs:84-92 | the routed target always names an existing bucket |
| `Allocator.AllocStep` | src/allocator.rs:96-98 | allocation keeps the classes and changes no bucket other than the routed one |
| `Allocator.DeallocStep` | src/allocator.rs:101-103 | deallocation keeps the classes and changes no bucket other than the routed one |
| `Allocator.AllocFailureChangesNothing` | src/allocator.rs:96-98 | a failed allocation returns `AllocError` and leaves the whole allocator as it was |
| `Allocator.AllocMakesLive` | src/allocator.rs:96-103 | a successful allocation returns the placement, and a later deallocation with the same layout reaches the bucket that holds it |
| `Allocator.AllocThenDeallocRestores` | src/allocator.rs:96-103 | allocating and then freeing one block with the same layout restores the allocator state exactly |
| `Allocator.AllocKeepsLive` | src/allocator.rs:96-98 | allocating never ends another outstanding allocation |
| `Allocator.DeallocKeepsOthersLive` | src/allocator.rs:101-103 | freeing one block leaves every other outstanding block live |
| `Allocator.DefaultSizesAscending` | src/allocator.rs:116-121 | the default classes 128, 1024, 8192 are positive and strictly increasing |
| `Allocator.InternalAllocator.WithBucketSizes` | src/allocator.rs:72-81 | a new allocator keeps the given classes and every fixed bucket and the dynamic bucket are empty |
| `Allocator.InternalAllocator.Dispatch` | src/allocator.rs:84-92 | the loop returns exactly the routed target, so it depends on `layout.size()` only |
| `Allocator.InternalAllocator.Allocate` | src/allocator.rs:96-98 | the new state and the result are those of `AllocStep` |
| `Allocator.InternalAllocator.Deallocate` | src/allocator.rs:101-103 | the new state is that of `DeallocStep` |
| `Facade.RawPointer` | src/allocator.rs:160-163 | the raw pointer is null exactly for an error, and otherwise the allocated address |
| `Facade.MmapAllocator.WithDefaultConfig` | src/allocator.rs:117-123 | the default façade has classes `[128, 1024, 8192]` and only empty buckets |
| `Facade.MmapAllocator.WithBucketSizes` | src/allocator.rs:128-132 | the façade keeps the given classes and starts with empty buckets |
| `Facade.MmapAllocator.Allocate` | src/allocator.rs:142-149 | when the lock fails: `AllocError` and no state change; otherwise exactly `AllocStep` |
| `Facade.MmapAllocator.Deallocate` | src/allocator.rs:151-155 | when the lock fails: no state change; otherwise exactly `DeallocStep` |
| `Facade.MmapAllocator.Alloc` | src/allocator.rs:159-164 | returns null exactly when the lock fails or the bucket fails, and otherwise the allocated address |
| `Facade.MmapAllocator.Dealloc` | src/allocator.rs:166-168 | forwards a non-null pointer to `deallocate` unchanged |
| `AllocatorTests.BucketsTestRouting` | src/allocator.rs:214-245 | with classes `[8, 16, 24]`, sizes 8, 16 and 24 route to buckets 0, 1 and 2, and 24+128 routes to the dynamic bucket |
| `AllocatorTests.AllocCounts` | src/allocator.rs:225-235 | allocating through fixed bucket `i` adds one outstanding allocation to bucket `i` only |
| `AllocatorTests.DeallocCounts` | src/allocator.rs:237-244 | freeing through fixed bucket `i` removes one outstanding allocation from bucket `i` only |
| `AllocatorTests.BucketsTestAllocate` | src/allocator.rs:214-235 | the three allocations of the `buckets` test change the per-bucket counts `[1,0,0]`, `[1,1,0]`, `[1,1,1]` |
| `AllocatorTests.BucketsTest` | src/allocator.rs:212-249 | the whole `buckets` test: counts fall `[0,1,1]`, `[0,0,1]`, `[0,0,0]`; the oversized request uses only the dynamic bucket; the allocator ends empty |
| `AllocatorTests.WrapperTest` | src/allocator.rs:182-209 | the `internal_allocator_wrapper` test: both allocations succeed, stay live together and can both be freed |

## Left out

- Bucket, region, block, free list, list and `mmap` internals (`src/bucket.rs`, `src/region.rs`, `src/block.rs`, `src/freelist.rs`, `src/list.rs`, `src/mmap.rs`): these files are not part of this model. Block splitting, coalescing, region acquisition and release are therefore not modelled. Where an allocation lands, and whether it fails, is an input.
- Region counts, which the `buckets` test inspects: they depend on the bucket internals. The model tracks the number of outstanding allocations per bucket instead.
- The slice length in `NonNull<[u8]>`: only its start address is kept.
- `Mutex`, `UnsafeCell` and `unsafe impl Sync`: concurrency is not modelled. Lock acquisition is a success/failure input. The multi-threaded tests are left out for the same reason.
- Alignment: src/allocator.rs never reads `align()`; whatever the bucket does with it is folded into the `placement` input.
- The value of `size_of::<Header<T>>()`: it depends on the `Node<T>` layout, so it is a positive parameter.
- Pointer provenance, and overflow of `usize` addresses in `offset`: addresses are unbounded naturals.
- The `Default` impl (src/allocator.rs:135-139) only calls `with_default_config`, so `Facade.MmapAllocator.WithDefaultConfig` stands for both.
- Memory contents: the bytes written and read back by the `internal_allocator_wrapper` test (`fill(69)` and the read-back loops), and so its data-integrity check, are not modelled; `AllocatorTests.WrapperTest` covers only that both allocations succeed, stay live together and are freed.
- examples/mmap.rs: a demo that prints addresses.
