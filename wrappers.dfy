/** Optional values and results with an error, as used throughout the import model. */
module Wrappers {

  /** A value that may be missing (PHP `null`). */
  datatype Option<+T> = None | Some(value: T) {
    function GetOr(default: T): T {
      match this
      case Some(v) => v
      case None => default
    }
  }

  /** The outcome of an operation that can fail with an exception of kind E. */
  datatype Result<+T, +E> = Ok(value: T) | Err(error: E)
}
