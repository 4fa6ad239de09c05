/** Failure-carrying result types used by the vector model. */
module Wrappers {

  /** A value, or nothing (an empty cache slot). */
  datatype Option<+T> = None | Some(value: T)

  /** A value, or the error that prevented computing it. */
  datatype Result<+R, +E> = Success(value: R) | Failure(error: E)

  /** Success without a value, or an error (for operations returning `void`). */
  datatype Outcome<+E> = Pass | Fail(error: E)
}
