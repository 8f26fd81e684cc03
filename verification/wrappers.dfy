/** Failure-compatible wrappers used across the model. */
module Wrappers {

  /** A value that may be absent: Python's `None` versus a present value. */
  datatype Option<+T> = None | Some(value: T)

  /** The outcome of a step that can raise: a value or the error it raised. */
  datatype Result<+R, +E> = Ok(value: R) | Err(error: E)
}
