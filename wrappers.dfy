/** Failure-compatible result types used across the model. */
module Wrappers {

  /** A value that may be missing: the source's `null` return. */
  datatype Option<+T> = None | Some(value: T)

  /** Either a value or an error message. */
  datatype Result<+R, +E> = Success(value: R) | Failure(error: E)
}
