/** Option and Result, the two failure-carrying shapes the model uses. */
module Wrappers {

  /** A value that may be absent (Python's `None`). */
  datatype Option<+T> = None | Some(value: T)

  /** A computation that either yields a value or fails with a message. */
  datatype Result<+R, +E> = Success(value: R) | Failure(error: E)
}
