/** Option and Result, the two failure-carrying shapes used throughout the model. */
module Wrappers {

  /** A value that may be absent: Kotlin's nullable `T?`. */
  datatype Option<+T> = None | Some(value: T)

  /** Either a value or the error that took its place (a thrown exception, a refused write). */
  datatype Result<+T, +E> = Ok(value: T) | Err(error: E)
}
