/** Option and Result, the two failure-carrying datatypes the model returns. */
module Wrappers {

  /** A value that may be absent: Python's `None` or a value. */
  datatype Option<+T> = None | Some(value: T)

  /** The outcome of an operation that may end the run with an error. */
  datatype Result<+R, +E> = Success(value: R) | Failure(error: E)
}
