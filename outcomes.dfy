/** Failure-carrying value types shared by the modules of the add-on model. */
module Outcomes {

  /** A value that may be absent (a regular expression that did not match). */
  datatype Option<T> = None | Some(value: T)

  /** The settled state of a promise: fulfilled with a value or rejected with an error. */
  datatype Result<T, E> = Ok(value: T) | Err(error: E)
}
