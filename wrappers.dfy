/** Failure-carrying values used for the Python exceptions the model keeps. */
module Wrappers {

  datatype Option<+T> = None | Some(value: T)

  datatype Result<+R, +E> = Success(value: R) | Failure(error: E)

  /** The result of a check that returns nothing on success. */
  datatype Outcome<+E> = Pass | Fail(error: E)
}
