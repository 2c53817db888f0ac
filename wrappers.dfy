/** Option and Result: absence of a value and the error path of an operation. */
module Wrappers {

  datatype Option<T> = None | Some(value: T)

  /** An operation that either succeeds with a value or fails with the message it would raise. */
  datatype Result<T> = Ok(value: T) | Err(error: string)
}
