/** Failure-carrying result types used in place of JavaScript's `undefined`,
    `null` and thrown errors. */
module Wrappers {

  /** A value that may be absent: an `undefined` or `null` argument is `None`. */
  datatype Option<+T> = None | Some(value: T)

  /** A computation that either returns a value or throws an error. */
  datatype Result<+T, +E> = Ok(value: T) | Err(error: E)

  /** A check that either passes silently or throws an error. */
  datatype Outcome<+E> = Pass | Fail(error: E)
}
