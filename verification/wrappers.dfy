/** Failure-carrying datatypes used across the model: `Option` stands for a
    .NET reference that may be null, `Result` for a call that either returns
    a value or throws. */
module Wrappers {

  /** A value that may be absent (a nullable reference). */
  datatype Option<+T> = None | Some(value: T)

  /** The outcome of a call that returns `value` or throws `error`. */
  datatype Result<+T, +E> = Success(value: T) | Failure(error: E)
}
