/** Option and Result, used where the Java code returns null or throws. */
module Wrappers {

  datatype Option<+T> = None | Some(value: T)

  datatype Result<+R, +E> = Success(value: R) | Failure(error: E)

  /** A computation that either completes normally or throws `E`. */
  datatype Outcome<+E> = Pass | Fail(error: E)
}
