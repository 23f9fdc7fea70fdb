/** Failure-compatible wrappers used across the model. */
module Wrappers {

  datatype Option<+T> = None | Some(value: T)

  /** The outcome of an operation that may raise: a value, or the message of the exception. */
  datatype Result<+T> = Ok(value: T) | Err(error: string)
}
