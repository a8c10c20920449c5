/** Option and Result, the two failure-carrying datatypes the model uses. */
module Wrappers {

  /** A value that may be absent. */
  datatype Option<+T> = None | Some(value: T)

  /** The outcome of a computation that either yields a value or stops with an error;
      `Err` stands for a Python exception that leaves the current call. */
  datatype Result<+T, +E> = Ok(value: T) | Err(error: E)
}
