/** Failure-carrying values used where the original raises or returns None. */
module Wrappers {

  /** An optional value: the attribute or value may be absent. */
  datatype Option<+T> = None | Some(value: T) {

    /** The carried value, or `default` when there is none. */
    function GetOr(default: T): T {
      match this
      case Some(v) => v
      case None => default
    }
  }

  /** The outcome of an operation that may fail with an error of type `E`. */
  datatype Result<+R, +E> = Success(value: R) | Failure(error: E)
}
