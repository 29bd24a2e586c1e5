/** Option and Result types standing for the source's None values and exceptions. */
module Wrappers {

  datatype Option<+T> = None | Some(value: T)

  datatype Result<+T, +E> = Success(value: T) | Failure(error: E)

  /** The outcome of an operation that either completes or raises. */
  datatype Outcome<+E> = Pass | Fail(error: E)
}
