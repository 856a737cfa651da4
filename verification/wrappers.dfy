/** The optional value and the success-or-error outcome used throughout the model. */
module Wrappers {

  /** A value that may be absent: a file that may not exist, an index that may not be found. */
  datatype Option<+T> = None | Some(value: T)

  /** The outcome of an operation that can be refused with a diagnostic message. */
  datatype Result<+R, +E> = Success(value: R) | Failure(error: E)
}
