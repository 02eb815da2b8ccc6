/** Failure-carrying results shared by every module of the model. */
module Wrappers {

  datatype Option<T> = None | Some(value: T)

  /** The Python exception classes that the modelled code raises. */
  datatype Error = ValueError | KeyError | IndexError | TimeoutError

  /** A value, or the exception that the Python code would raise instead. */
  datatype Result<T> = Ok(value: T) | Err(error: Error)

  /** A statement that either completes or raises. */
  datatype Outcome = Pass | Fail(error: Error)
}
