/** Failure-carrying result types shared by every module of the model. */
module Wrappers {

  /** A value that may be absent (a SQL NULL, a missing query row, an unset variable). */
  datatype Option<+T> = None | Some(value: T)

  /** The outcome of an operation that either produces a value or fails with an error. */
  datatype Result<+T, +E> = Success(value: T) | Failure(error: E)
}
