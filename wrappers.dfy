/** Optional values, for JavaScript's `undefined` and for operations that may throw. */
module Wrappers {

  datatype Option<+T> = None | Some(value: T)

  /** The outcome of a handler that may throw: `Throws` stands for an uncaught exception. */
  datatype Result<+T> = Ok(value: T) | Throws(reason: string)
}
