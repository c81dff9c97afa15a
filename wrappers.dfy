/** Failure-carrying datatypes shared by the other modules. */
module Wrappers {

  /** A value that may be missing: Ruby's `nil` on one side, a value on the other. */
  datatype Option<+T> = None | Some(value: T)

  /** The outcome of a step that may raise an exception. */
  datatype Result<+T, +E> = Ok(value: T) | Err(error: E)
}
