/** The optional and failure-carrying values the model passes around. */
module Wrappers {

  /** A value that may be absent: a missing or non-numeric cell, a figure that was not built. */
  datatype Option<+T> = None | Some(value: T)

  /** The outcome of an operation that can raise. */
  datatype Result<+R, +E> = Success(value: R) | Failure(error: E)
}
