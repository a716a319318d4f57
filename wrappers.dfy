/** Option and Result values used in place of Python's None and exceptions. */
module Wrappers {

  /** A value that may be absent: a dictionary key that is missing, or a Python None. */
  datatype Option<+T> = None | Some(value: T) {

    /** The value, or the default when absent (Python's dict.get(key, default)). */
    function GetOr(default: T): T {
      match this
      case Some(v) => v
      case None => default
    }
  }

  /** The outcome of an operation that raises in the source: a value, or the error it raises. */
  datatype Result<+T, +E> = Ok(value: T) | Err(error: E)
}
