/** Option and Result values used for the Go code's `(value, error)` returns. */
module Wrappers {

  datatype Option<+T> = None | Some(value: T)

  datatype Result<+T, +E> = Success(value: T) | Failure(error: E)

  /** An error-only return: `nil` or an error value. */
  datatype Outcome<+E> = Pass | Fail(error: E)
}
