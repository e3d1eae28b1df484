/** Option and Result types for absent values and for the exceptions the engine raises. */
module Wrappers {

  datatype Option<+T> = None | Some(value: T)

  /** `Err` carries the message of the exception the Python code raises. */
  datatype Result<+T> = Ok(value: T) | Err(message: string)
}
