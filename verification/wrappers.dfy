/** Failure-carrying values shared by every module of the model. */
module Wrappers {

  /** Python's `None` versus a present value. */
  datatype Option<+T> = None | Some(value: T)

  /** The outcome of an operation that can raise: a value, or the error that was raised. */
  datatype Result<+T, +E> = Success(value: T) | Failure(error: E)
}
