/** Optional values, standing for Python's None, and results of operations that
    may raise an exception. */
module Wrappers {

  datatype Option<+T> = None | Some(value: T)

  /** Either the value returned, or the message of the exception raised. */
  datatype Outcome<+T> = Ok(value: T) | Raised(message: string)
}
