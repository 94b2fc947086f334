/** Failure-compatible wrappers: PHP's nullable results and thrown exceptions
    become values of these types. */
module Wrappers {

  /** A value that may be PHP's `null`. */
  datatype Option<+T> = None | Some(value: T)

  /** The value of an operation that either returns or throws. */
  datatype Result<+T, +E> = Success(value: T) | Failure(error: E)
}
