/** Option and Result, the failure-carrying values used across the model. */
module Wrappers {

  datatype Option<+T> = None | Some(value: T)

  /** What a call into code outside the model produced: a value, or the message of the error it threw. */
  datatype Result<+T> = Ok(value: T) | Err(message: string)
}
