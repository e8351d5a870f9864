/** Failure-compatible wrappers shared by the whole model. */
module Wrappers {

  datatype Option<+T> = None | Some(value: T)

  /** A Java method that either returns a value or throws an exception with a message. */
  datatype Result<+R, +E> = Success(value: R) | Failure(error: E)
}
