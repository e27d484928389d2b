/** Values shared by every part of the allocator model. */
module Types {

  /** A non-null machine address (`NonNull<u8>` / `NonNull<Header<T>>`); null is 0. */
  type Addr = a: nat | a > 0 witness 1

  /** The allocation request descriptor (`std::alloc::Layout`). Only `size` is ever
      consulted by the allocator core; `align` is carried along untouched. */
  datatype Layout = Layout(size: nat, align: nat)

  datatype Option<T> = None | Some(value: T)

  /** `std::alloc::AllocError`, a unit error. */
  datatype AllocError = AllocError

  /** `Result<NonNull<[u8]>, AllocError>`, keeping only the start address of the slice. */
  datatype AllocResult = Ok(address: Addr) | Err(error: AllocError)
}
