/** Option and Result, the two failure-carrying shapes the model uses. */
module Wrappers {

  datatype Option<+T> = None | Some(value: T)

  /** An operation that either succeeds with a value or fails with an error
      (the Python code raises an exception where the model returns Failure). */
  datatype Result<+R, +E> = Success(value: R) | Failure(error: E)
}
