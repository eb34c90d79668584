/** Failure-carrying results used for the exceptions the library raises. */
module Wrappers {

  datatype Option<+T> = None | Some(value: T)

  /** A value, or the error the library would raise instead of returning it. */
  datatype Result<+T, +E> = Ok(value: T) | Err(error: E)

  /** The outcome of an operation that returns nothing when it succeeds. */
  datatype Outcome<+E> = Pass | Fail(error: E)
}
