/** Failure-carrying wrappers shared by the modules of the model. */
module Wrappers {

  datatype Option<+T> = None | Some(value: T)

  /** A computed value, or the error the source raises instead. */
  datatype Result<+T, +E> = Success(value: T) | Failure(error: E)

  /** The outcome of an operation that only updates state in place. */
  datatype Outcome<+E> = Pass | Fail(error: E)
}
