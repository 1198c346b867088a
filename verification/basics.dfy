/** Machine integers and failure-carrying wrappers shared by the resolver model. */
module Basics {

  /** Exclusive upper bound of an unsigned 64-bit integer. */
  const U64_LIMIT: int := 0x1_0000_0000_0000_0000

  /** Rust's `u64`: array extents, slice indices and the crop size. */
  type U64 = x: int | 0 <= x < U64_LIMIT

  /** Rust's `Option`: present or absent. */
  datatype Option<+T> = None | Some(value: T)

  /** Rust's `Result`: a value, or the error that aborted the computation. */
  datatype Result<+T, +E> = Ok(value: T) | Err(error: E)

  /** The smaller of two extents. */
  function Min(a: U64, b: U64): (m: U64)
    ensures m <= a && m <= b
    ensures m == a || m == b
  {
    if a <= b then a else b
  }
}
