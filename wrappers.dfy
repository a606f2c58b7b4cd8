/** Optional values and results with an error, used for nullable columns and failed operations. */
module Wrappers {

  /** A value that may be absent: JavaScript's `null` / `undefined`. */
  datatype Option<+T> = None | Some(value: T)

  /** The outcome of an operation that can throw: its value, or the error it throws. */
  datatype Result<+T, +E> = Success(value: T) | Failure(error: E)
}
