/** Failure-carrying values used where the source throws. */
module Wrappers {

  datatype Option<+T> = None | Some(value: T)

  /** A value or the error the source would have thrown instead. */
  datatype Result<+T, +E> = Ok(value: T) | Err(error: E)

  /** The outcome of a call that returns nothing but may throw. */
  datatype Outcome<+E> = Pass | Fail(error: E)
}
