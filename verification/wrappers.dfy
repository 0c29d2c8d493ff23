/** Optional values and success-or-error results, the two shapes every
    store lookup and every service call of the token server returns. */
module Wrappers {

  /** A value that may be absent: a row that was not found, a nullable column. */
  datatype Option<+T> = None | Some(value: T) {

    /** The value, or `default` when there is none. */
    function GetOr(default: T): T {
      match this
      case Some(v) => v
      case None => default
    }
  }

  /** The outcome of an operation that either succeeds with a value or fails
      with an error, in place of a thrown exception. */
  datatype Result<+T, +E> = Ok(value: T) | Err(error: E)
}
