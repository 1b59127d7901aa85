/** Failure-carrying wrappers shared by every module of the model. */
module Wrappers {

  /** A value that may be absent: C#'s `null` for strings and objects. */
  datatype Option<+T> = None | Some(value: T)

  /** The outcome of an operation that can raise an exception instead of returning. */
  datatype Result<+T, +E> = Success(value: T) | Failure(error: E)
}
