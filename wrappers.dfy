/** Optional values and results with an error value, shared by the codec and the locator. */
module Wrappers {

  /** A JavaScript value that may be `undefined` or `null`. */
  datatype Option<+T> = None | Some(value: T) {

    /** The value, or `default` when absent (JavaScript's `??`). */
    function GetOr(default: T): T {
      match this
      case Some(v) => v
      case None => default
    }
  }

  /** Either a value or the error that JavaScript would have thrown. */
  datatype Result<+R, +E> = Success(value: R) | Failure(error: E)
}
