/** Option and Result, the stand-ins for Go's nil pointers and (value, error) pairs. */
module Wrappers {

  datatype Option<+T> = None | Some(value: T)

  /** A Go `(value, error)` pair: `Ok(v)` is `(v, nil)`, `Err(e)` is `(zero, e)`. */
  datatype Result<+T, +E> = Ok(value: T) | Err(error: E)
}
