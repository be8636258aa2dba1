/** Option and Result, standing in for Java's null and thrown exceptions. */
module Wrappers {

  /** `None` plays the part of a Java `null` reference. */
  datatype Option<+T> = None | Some(value: T)

  /** `Failure` plays the part of an exception thrown out of a call. */
  datatype Result<+R, +E> = Success(value: R) | Failure(error: E)
}
