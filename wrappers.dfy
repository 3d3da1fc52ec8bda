/** Option, Result and Outcome values used for the source's missing elements and raised errors. */
module Wrappers {

  datatype Option<+T> = None | Some(value: T)

  /** The value of a computation that either succeeds or raises the error `error`. */
  datatype Result<+R, +E> = Success(value: R) | Failure(error: E)

  /** The outcome of a procedure that returns nothing or raises the error `error`. */
  datatype Outcome<+E> = Pass | Fail(error: E)
}
