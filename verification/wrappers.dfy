/** Optional values and success-or-error outcomes, used throughout the model of the students API. */
module Wrappers {

  /** A value that may be absent: a lookup that finds nothing, a path id that is not a number. */
  datatype Option<+T> = None | Some(value: T)

  /** The outcome of an operation that can fail with an error value. */
  datatype Result<+R, +E> = Success(value: R) | Failure(error: E)
}
