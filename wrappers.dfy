/** Optional values and results with an error message, as used throughout the model. */
module Wrappers {

  /** A value that may be absent: a missing dictionary key, a Python `None`. */
  datatype Option<+T> = None | Some(value: T) {
    function GetOr(default: T): T {
      match this
      case Some(v) => v
      case None => default
    }
  }

  /** The outcome of a step that may raise an exception in the source. */
  datatype Result<+T> = Success(value: T) | Failure(error: string)
}
