/** Failure-carrying values shared by the three models. */
module Wrappers {

  /** A value that may be missing: Python's `None` or a real value. */
  datatype Option<+T> = None | Some(value: T)

  /** The outcome of an operation that may raise: its value or the exception raised. */
  datatype Result<+T, +E> = Ok(value: T) | Err(error: E)
}
