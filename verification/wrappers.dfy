/** Failure-compatible wrappers shared by the formatter and the encoder. */
module Wrappers {

  /** A value that may be missing, as a nullable table cell is. */
  datatype Option<+T> = None | Some(value: T)

  /** The outcome of an operation that raises an exception on some inputs. */
  datatype Result<+T, +E> = Success(value: T) | Failure(error: E)
}
