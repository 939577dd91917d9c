/** Option and Result, the two failure-carrying types the model uses. */
module Wrappers {

  /** Python's `X | None`: a value or nothing. */
  datatype Option<+T> = None | Some(value: T)

  /** The outcome of an operation that either returns a value or raises. */
  datatype Result<+R, +E> = Ok(value: R) | Err(error: E)
}
