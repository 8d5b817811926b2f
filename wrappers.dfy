/** Failure-carrying values shared by the other modules. */
module Wrappers {

  /** A value that may be absent; `None` models JavaScript's `undefined`. */
  datatype Option<+T> = None | Some(value: T)

  /** The outcome of an operation that can throw. */
  datatype Result<+T, +E> = Ok(value: T) | Err(error: E)
}
