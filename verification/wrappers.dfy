/** Failure-carrying values shared by every module of the model. */
module Wrappers {

  /** A value that may be absent. */
  datatype Option<+T> = None | Some(value: T)

  /** The outcome of an operation that raises an exception in the original program. */
  datatype Result<+T, +E> = Ok(value: T) | Err(error: E)
}
