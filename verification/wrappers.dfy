/** Option and Result, the failure-carrying values used throughout the model. */
module Wrappers {

  /** A value that may be missing: JavaScript's `null` / `undefined` / `NaN`. */
  datatype Option<+T> = None | Some(value: T)

  /** The outcome of a check that either yields a value or names the first failed rule. */
  datatype Result<+T, +E> = Ok(value: T) | Err(error: E)
}
