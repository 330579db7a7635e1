/** Option and Result, the shapes of JavaScript's `null`-or-value and thrown-or-returned. */
module Wrappers {

  /** A value that may be absent, as `null` is in the source. */
  datatype Option<+T> = None | Some(value: T)

  /** The outcome of an operation that either returns a value or throws an error message. */
  datatype Result<+R, +E> = Success(value: R) | Failure(error: E)
}
