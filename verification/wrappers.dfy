/** Optional values and failure results, standing in for Python's `None`
    and for the exceptions the applications let escape. */
module Wrappers {

  /** A value that may be absent: a missing dictionary key or a JSON `null`. */
  datatype Option<+T> = None | Some(value: T) {

    /** The value, or `default` when absent (Python's `d.get(k, default)`). */
    function GetOr(default: T): T {
      match this
      case Some(v) => v
      case None => default
    }
  }

  /** Either a value or the error a Python statement would raise. */
  datatype Result<+R, +E> = Success(value: R) | Failure(error: E)
}
