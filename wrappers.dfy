/** Failure-compatible result types used for the source's `(value, error)` returns. */
module Wrappers {

  /** A possibly absent value; `None` stands for a Go `nil` pointer. */
  datatype Option<+T> = None | Some(value: T)

  /** Either a value or an error: a Go `(value, error)` pair where exactly one is meaningful. */
  datatype Result<+T, +E> = Success(value: T) | Failure(error: E)
}
