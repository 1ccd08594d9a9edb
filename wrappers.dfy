/** Failure-carrying values shared by the model. */
module Wrappers {

  /** A value that may be absent: a null handler result, an undefined read result. */
  datatype Option<+T> = None | Some(value: T)

  /** The outcome of an operation that reports failure to its caller. */
  datatype Result<+T, +E> = Success(value: T) | Failure(error: E)
}
