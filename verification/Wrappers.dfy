/** Failure-carrying values used instead of the exceptions and empty optionals of the program. */
module Wrappers {
  datatype Option<+T> = None | Some(value: T)
  datatype Result<+T, +E> = Ok(value: T) | Err(error: E)
}
