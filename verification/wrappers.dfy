/** Failure-carrying values used across the model. */
module Wrappers {

  /** A value that may be absent: the outcome of a partial parser. */
  datatype Option<+T> = None | Some(value: T)

  /** A value or the error that prevented computing it. */
  datatype Result<+R, +E> = Success(value: R) | Failure(error: E)
}
