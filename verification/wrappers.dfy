/** Optional values and results with an error, as used by the rest of the model. */
module Wrappers {

  /** A value that may be absent (`undefined` in the program). */
  datatype Option<+T> = None | Some(value: T)

  /** The outcome of an operation that either yields a value or fails with an error. */
  datatype Result<+T, +E> = Success(value: T) | Failure(error: E)
}
