/** Optional values and success/failure results, used for the optional
    arguments of the inventory operations and for their error paths. */
module Wrappers {

  /** A value that may be absent (an optional argument or field). */
  datatype Option<+T> = None | Some(value: T) {

    /** The wrapped value, or `default` when absent (JavaScript's `??`). */
    function GetOr(default: T): T {
      match this
      case Some(v) => v
      case None => default
    }
  }

  /** The outcome of an operation that may raise an error. */
  datatype Result<+R, +E> = Success(value: R) | Failure(error: E)
}
