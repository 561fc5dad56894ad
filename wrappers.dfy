/** Failure-carrying values used across the model: Python's `None` results and raised exceptions. */
module Wrappers {

  /** A value that may be missing (Python `None`). */
  datatype Option<+T> = None | Some(value: T)

  /** A computation that either produced a value or raised (the error names the exception). */
  datatype Result<+T> = Ok(value: T) | Err(error: string)
}
