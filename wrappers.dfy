/** The two failure-carrying values used across the model. */
module Wrappers {

  /** A value that may be absent, e.g. the result of parsing text that is not a number. */
  datatype Option<+T> = None | Some(value: T)

  /** A value or the error that stopped its computation (the source raises an exception). */
  datatype Result<+T, +E> = Ok(value: T) | Err(error: E)
}
