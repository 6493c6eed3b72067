/** Option and Result types shared by the rest of the model. */
module Wrappers {

  datatype Option<+T> = None | Some(value: T) {

    /** The value held, or `default` when absent (Python's `dict.get(key, default)`). */
    function GetOr(default: T): T {
      match this
      case Some(v) => v
      case None => default
    }
  }

  /** A computed value, or the exception raised instead. */
  datatype Result<+R, +E> = Ok(value: R) | Err(error: E)
}
