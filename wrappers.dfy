/** Optional values and results with an error, as used throughout the model. */
module Wrappers {

  /** Python's `None` or a present value. */
  datatype Option<+T> = None | Some(value: T)

  /** A value, or the exception that an operation raises instead. */
  datatype Result<+T, +E> = Success(value: T) | Failure(error: E)
}
