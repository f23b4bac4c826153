/** Option and Result, used for nullable columns and for the errors the services throw. */
module Wrappers {

  datatype Option<+T> = None | Some(value: T)

  /** The outcome of a service call: a value, or the error it throws. */
  datatype Result<+T, +E> = Ok(value: T) | Err(error: E)
}
