/** Failure-compatible wrappers shared by every module of the model. */
module Wrappers {

  /** A value that may be absent (a Go nil pointer, a missing environment lookup). */
  datatype Option<+T> = None | Some(value: T)

  /** A Go `(value, error)` pair: exactly one of the two is meaningful. */
  datatype Result<+T, +E> = Ok(value: T) | Err(error: E)
}
