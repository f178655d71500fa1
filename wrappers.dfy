/** Option, Result and Outcome: the error paths of the modelled Python code. */
module Wrappers {

  datatype Option<+T> = None | Some(value: T)

  /** The value of an operation that either succeeds or raises an exception. */
  datatype Result<+R, +E> = Success(value: R) | Failure(error: E)

  /** The outcome of a procedure that returns nothing or raises an exception. */
  datatype Outcome<+E> = Pass | Fail(error: E)
}
