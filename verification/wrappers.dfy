/** Optional values (Go's nil pointers and SQL NULLs) and error returns. */
module Wrappers {

  /** A value that may be absent: a Go pointer that may be nil, a nullable SQL column. */
  datatype Option<+T> = None | Some(value: T) {
    function GetOr(default: T): T {
      match this
      case Some(v) => v
      case None => default
    }
  }

  /** The `(value, error)` pair that Go functions return. */
  datatype Result<+T, +E> = Ok(value: T) | Err(error: E)
}
