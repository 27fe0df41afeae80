/** Optional values and outcomes that may fail. */
module Wrappers {

  /** A value that may be absent (JavaScript's `undefined`, `null` or `false` where the source tests truthiness). */
  datatype Option<+T> = None | Some(value: T)

  /** The outcome of an operation that may throw: its value, or the error it threw. */
  datatype Result<+T, +E> = Success(value: T) | Failure(error: E)
}
