/** Optional values (Python's `None`) and the outcome of an operation that may raise. */
module Wrappers {

  datatype Option<+T> = None | Some(value: T)

  /** `Failure` stands for an exception raised by the operation. */
  datatype Result<+T, +E> = Success(value: T) | Failure(error: E)
}
