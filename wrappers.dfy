/** Optional values and success/failure results shared by the modules of the model. */
module Wrappers {

  /** A value that may be absent (JavaScript `null` / `undefined`). */
  datatype Option<+T> = None | Some(value: T) {
    function GetOr(default: T): T {
      match this
      case Some(v) => v
      case None => default
    }
  }

  /** The outcome of an operation that may throw: its value, or the error it threw. */
  datatype Result<+R, +E> = Success(value: R) | Failure(error: E)
}
