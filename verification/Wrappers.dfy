/** Values that may be missing, and JavaScript calls that may throw. */
module Wrappers {

  datatype Option<T> = None | Some(value: T)

  /** What is thrown: by the run-time system, or by the code itself with a message. */
  datatype Error = TypeError | Error(message: string)

  datatype Result<T> = Ok(value: T) | Thrown(error: Error)
}
