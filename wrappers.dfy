/** Failure-compatible wrappers used throughout the model. */
module Wrappers {
  /** A value that may be missing: Go's nil pointer. */
  datatype Option<+T> = None | Some(value: T)

  /** A value or an error: Go's `(T, error)` pair. */
  datatype Result<+T, +E> = Ok(value: T) | Err(error: E)
}
