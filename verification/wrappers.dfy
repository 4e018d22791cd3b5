/** Failure-compatible wrappers used across the model: `Option` for a value that
    may be absent (a null cell, a regex that found nothing) and `Result` for an
    operation that can fail as a whole. */
module Wrappers {

  /** A value that may be absent, like a null cell of the table. */
  datatype Option<+T> = None | Some(value: T)

  /** The outcome of an operation that either produces a value or fails. */
  datatype Result<+R, +E> = Success(value: R) | Failure(error: E)
}
