/** Option and Result, used for empty table cells and for constructor failures. */
module Wrappers {

  /** A cell that may hold a value (pandas uses NaN for "no value"). */
  datatype Option<+T> = None | Some(value: T)

  /** The outcome of an operation that may raise. */
  datatype Result<+T, +E> = Ok(value: T) | Err(error: E)
}
