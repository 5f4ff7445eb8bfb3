/** Result types shared by every component, and Rust's 64-bit limits. */
module Basics {

  datatype Option<+T> = None | Some(value: T)

  datatype Result<+T, +E> = Success(value: T) | Failure(error: E)

  /** A check that carries no value: Rust's `Result<(), E>`. */
  datatype Outcome<+E> = Pass | Fail(error: E) {
    predicate IsFailure() {
      Fail?
    }

    function PropagateFailure(): Outcome<E>
      requires Fail?
    {
      this
    }
  }

  function Need<E>(condition: bool, error: E): Outcome<E> {
    if condition then Pass else Fail(error)
  }

  /** The elements that pass, in order: `filter` and `retain`. */
  function Filter<T>(keep: T -> bool, s: seq<T>): seq<T> {
    if s == [] then []
    else if keep(s[|s| - 1]) then Filter(keep, s[..|s| - 1]) + [s[|s| - 1]]
    else Filter(keep, s[..|s| - 1])
  }

  newtype Byte = x: int | 0 <= x < 256

  const U64_MAX: nat := 0xFFFF_FFFF_FFFF_FFFF
  const I64_MAX: int := 0x7FFF_FFFF_FFFF_FFFF
  const I64_MIN: int := -0x8000_0000_0000_0000
}
