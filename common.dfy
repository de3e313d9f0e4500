/**
 * Vocabulary shared by the whole model: the `Result` type that every
 * fallible operation of the library returns, the `Unit` value, and the
 * exceptions that the library throws.
 *
 * `thesoup/types/types.hpp`, which defines `Result`, `Unit` and `Slice`, is
 * not part of this model: only the behaviour the other headers rely on is
 * written down here.
 */
module Common {

  /** `Result<T, E>`: either a success carrying a value or a failure carrying an error. */
  datatype Result<T, E> = Success(value: T) | Failure(error: E)
  {
    predicate IsSuccess() { Success? }
  }

  datatype Option<T> = None | Some(value: T)

  /** `thesoup::types::Unit`, the value of computations that return nothing. */
  datatype Unit = Unit

  /** The exceptions the library throws or stores in a future. */
  datatype Exception =
    | RuntimeError(what: string)
    | OutOfRange(what: string)

  /** Largest value of `std::size_t` on the 64-bit targets the library is built for. */
  const SIZE_MAX: nat := 0xFFFF_FFFF_FFFF_FFFF
}
