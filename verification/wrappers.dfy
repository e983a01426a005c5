/** Failure-compatible wrappers shared by every module of the model. */
module Wrappers {

  /** A JavaScript value that may be `undefined` (or an absent JSON field). */
  datatype Option<+T> = None | Some(value: T) {

    /** The value, or `default` when absent (JavaScript `x ?? default`). */
    function GetOr(default: T): T {
      match this
      case Some(v) => v
      case None => default
    }
  }

  /** The result of an operation that may throw. */
  datatype Result<+R, +E> = Success(value: R) | Failure(error: E)
}
