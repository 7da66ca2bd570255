/** Optional values and results with an error, for Java's `null` and thrown exceptions. */
module Wrappers {

  /** A value that may be absent, where the Java code uses a nullable reference. */
  datatype Option<+T> = None | Some(value: T)

  /** The outcome of an operation that may throw: the new value, or the exception's message. */
  datatype Result<+T, +E> = Success(value: T) | Failure(error: E)
}
