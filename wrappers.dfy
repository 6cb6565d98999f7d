/** Failure-carrying datatypes shared by the whole model. A thrown
    JavaScript exception is modelled as a `Failure` or `Fail` value. */
module Wrappers {

  datatype Option<+T> = None | Some(value: T)

  datatype Result<+T, +E> = Success(value: T) | Failure(error: E)

  /** The outcome of a check that either passes or fails with an error. */
  datatype Outcome<+E> = Pass | Fail(error: E)
}
