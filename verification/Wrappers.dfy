/** Stand-ins for Java's `null` and for an operation that either returns or throws. */
module Wrappers {

  /** A Java reference that may be `null`. */
  datatype Option<+T> = None | Some(value: T)

  /** The outcome of a Java call that returns a value or throws an
      `IllegalArgumentException` carrying a message. */
  datatype Result<+T, +E> = Success(value: T) | Failure(error: E)
}
