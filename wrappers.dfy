/** Optional values and results with an error message, used by every other module. */
module Wrappers {

  /** A value that may be absent: `undefined` / `null` on the JavaScript side. */
  datatype Option<+T> = None | Some(value: T)

  /** The outcome of an operation that can fail with a message (a rejected promise, a thrown Error). */
  datatype Result<+T> = Ok(value: T) | Err(error: string)
}
