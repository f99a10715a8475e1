/** Optional values and results with an error side, as used throughout the cache model. */
module Wrappers {

  /** A value that may be absent: JavaScript's `undefined` (or, for a last timestamp, `null`). */
  datatype Option<+T> = None | Some(value: T)

  /** Either a value or the error that a call would throw. */
  datatype Result<+R, +E> = Success(value: R) | Failure(error: E)
}
