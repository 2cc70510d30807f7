/** Failure-carrying values: the model's stand-in for Python exceptions. */
module Wrappers {

  datatype Option<+T> = None | Some(value: T)

  /** A computation that either returns a value or raises an error. */
  datatype Result<+T, +E> = Success(value: T) | Failure(error: E)

  /** A computation that returns nothing useful, or raises an error. */
  datatype Outcome<+E> = Pass | Fail(error: E)
}
