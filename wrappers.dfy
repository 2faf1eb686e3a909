/** Optional values and results with an error, as used throughout the model. */
module Wrappers {

  /** A value that may be absent: Kotlin's nullable types. */
  datatype Option<+T> = None | Some(value: T) {
    function GetOr(default: T): T {
      match this
      case Some(v) => v
      case None => default
    }
  }

  /** A value or the exception that the source would have thrown instead. */
  datatype Result<+R, +E> = Success(value: R) | Failure(error: E)
}
