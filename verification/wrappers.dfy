/** Failure-compatible wrappers used across the model. */
module Wrappers {

  /** A value that may be absent (the source's `None`). */
  datatype Option<+T> = None | Some(value: T)

  /** Either a value or the reason an operation refused to produce one. */
  datatype Result<+T, +E> = Success(value: T) | Failure(error: E)
}
