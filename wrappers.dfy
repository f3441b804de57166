/** Failure-compatible wrappers shared by the model's modules. */
module Wrappers {

  /** An optional value: the source's `T | null` and `T | undefined`. */
  datatype Option<+T> = None | Some(value: T)

  /** A value or an error: the source's thrown exceptions and error returns. */
  datatype Result<+R, +E> = Success(value: R) | Failure(error: E)
}
