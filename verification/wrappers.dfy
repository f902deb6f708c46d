/** Failure-compatible wrappers shared by the model: an optional value (the
    TypeScript `undefined`/`null` cases) and a result that is either a value or
    an error (a thrown exception). */
module Wrappers {

  /** A value that may be absent. */
  datatype Option<+T> = None | Some(value: T) {

    /** The wrapped value, or `default` when absent (JavaScript's `x ?? default`). */
    function GetOr(default: T): T {
      match this
      case Some(v) => v
      case None => default
    }
  }

  /** Either a normal outcome or the error the operation throws. */
  datatype Result<+R, +E> = Success(value: R) | Failure(error: E)
}
