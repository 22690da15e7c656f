/** Optional values and the two ways a handler of the application fails: a
    Boom "unauthorized" error carrying a message, or a JavaScript TypeError
    (reading a property of null/undefined) that escapes to the framework. */
module Wrappers {

  /** A value that may be absent (JavaScript `undefined`/`null`). */
  datatype Option<+T> = None | Some(value: T)

  datatype Error =
    | Unauthorized(message: string)
    | TypeError

  /** The outcome of an operation that may throw. */
  datatype Result<+T> = Ok(value: T) | Err(error: Error)
}
