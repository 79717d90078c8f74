/** Option and Result, the failure-carrying values used throughout the model. */
module Wrappers {

  datatype Option<+T> = None | Some(value: T)

  /** A Go `(T, error)` pair: either a value and a nil error, or an error. */
  datatype Result<+T, +E> = Success(value: T) | Failure(error: E)
}
