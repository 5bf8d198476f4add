/** Java's nullable values and thrown exceptions, made explicit. */
module Wrappers {

  /** A value that may be absent (Java's `null` or an empty `Optional`). */
  datatype Option<+T> = None | Some(value: T)

  /** A value, or the exception that was thrown instead of returning it. */
  datatype Result<+T, +E> = Success(value: T) | Failure(error: E)
}
