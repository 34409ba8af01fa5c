/** Failure-carrying results used for the exceptions and null values of the client. */
module Wrappers {

  /** A value that may be absent (a C# null). */
  datatype Option<+T> = None | Some(value: T)

  /** The outcome of an operation that may throw: the value, or the exception's message. */
  datatype Result<+T> = Success(value: T) | Failure(error: string)
}
