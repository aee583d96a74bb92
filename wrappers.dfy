/** Failure-carrying results used by the validation functions. */
module Wrappers {

  /** A computed value, or the reason it could not be computed. */
  datatype Result<+T, +E> = Success(value: T) | Failure(error: E)

  /** The outcome of a check that produces no value: Go's `error` return, nil or not. */
  datatype Outcome<+E> = Pass | Fail(error: E)
}
