/** Option and Result, for nullable columns and for the error paths of the handlers. */
module Wrappers {

  /** A nullable value: `None` is SQL NULL (or Python `None`). */
  datatype Option<+T> = None | Some(value: T) {
    /** The value, or `default` when absent (SQL `COALESCE(x, default)`). */
    function GetOr(default: T): T {
      match this
      case Some(v) => v
      case None => default
    }
  }

  /** Outcome of an operation that may fail with an error of type `E`. */
  datatype Result<+T, +E> = Ok(value: T) | Err(error: E)
}
