/** Failure-carrying datatypes shared by the rest of the model. */
module Wrappers {

  /** A value that may be absent (JavaScript's `null`/`undefined` cases). */
  datatype Option<+T> = None | Some(value: T) {

    /** The carried value, or `default` when there is none. */
    function GetOr(default: T): T {
      match this
      case Some(v) => v
      case None => default
    }
  }

  /** The outcome of an operation that either yields a value or fails with an error. */
  datatype Result<+T, +E> = Success(value: T) | Failure(error: E)
}
