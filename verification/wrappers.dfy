/** Failure-carrying datatypes shared by every component of the model. */
module Wrappers {

  /** A value that may be absent; stands for Python's `Optional[T]`. */
  datatype Option<+T> = None | Some(value: T)

  /** Either a computed value or the error a Python `raise` would carry. */
  datatype Result<+R, +E> = Success(value: R) | Failure(error: E)
}
