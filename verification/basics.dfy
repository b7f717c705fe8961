/** Failure-carrying wrappers shared by every module of the model. */
module Basics {

  /** Python's `None` or a present value. */
  datatype Option<T> = None | Some(value: T)

  /** The outcome of a validator: it passes, or raises one error. */
  datatype Outcome<E> = Pass | Fail(error: E)

  /** A value, or the error that stopped its computation. */
  datatype Result<T, E> = Success(value: T) | Failure(error: E)
}
