/** Failure-compatible wrappers shared by every module of the model. */
module Wrappers {

  /** An optional value: the `None` of the Python program, or a value. */
  datatype Option<T> = None | Some(value: T)

  /** Either a value or the error kind an operation raised. */
  datatype Result<T, E> = Ok(value: T) | Err(error: E)
}
