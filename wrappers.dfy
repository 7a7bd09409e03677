/** Option and result types used across the model. */
module Wrappers {

  /** A nullable value (a PHP `?T`). */
  datatype Option<+T> = None | Some(value: T)

  /** Either the value an operation produces or the error it raises. */
  datatype Result<+T, +E> = Ok(value: T) | Err(error: E)

  /** A guard that either passes or fails with an error. */
  datatype Outcome<+E> = Pass | Fail(error: E)
}
