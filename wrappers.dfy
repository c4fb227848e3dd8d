/** Option and Result, the shapes of Go's `value, err` returns. */
module Wrappers {

  datatype Option<+T> = None | Some(value: T)

  /** A Go `(T, error)` pair: either a value with a nil error, or an error. */
  datatype Result<+T, +E> = Ok(value: T) | Err(error: E)
}
