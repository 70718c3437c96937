/** Option and Result, the two failure-carrying shapes the gateways use. */
module Wrappers {

  datatype Option<+T> = None | Some(value: T)

  /** A Go `(value, error)` pair: either a value or an error. */
  datatype Result<+T, +E> = Ok(value: T) | Err(error: E)
}
