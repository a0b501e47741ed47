/** Optional values and results with an error, used throughout the model. */
module Wrappers {

  /** A value that may be absent: stands for a nullable reference or an out-parameter
      guarded by a boolean. */
  datatype Option<+T> = None | Some(value: T)

  /** The outcome of an operation that can raise: its value, or the exception raised. */
  datatype Result<+T, +E> = Success(value: T) | Failure(error: E)
}
