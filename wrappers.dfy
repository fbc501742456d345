/** Option and Result, shared by the modules of this model. */
module Wrappers {
  datatype Option<T> = None | Some(value: T)

  /** A call that either returns a value or rejects with an error message. */
  datatype Result<T> = Ok(value: T) | Err(message: string)
}
