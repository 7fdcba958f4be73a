/** Option and Result values standing for Go's nil pointers and (value, error) pairs. */
module Wrappers {

  datatype Option<+T> = None | Some(value: T)

  /** A Go `(T, error)` return: either a value or the error's message. */
  datatype Result<+T> = Ok(value: T) | Err(error: string)
}
