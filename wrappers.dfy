/** Option and Result, as the rest of the model uses them for Python's `None` and raised errors. */
module Wrappers {

  datatype Option<+T> = None | Some(value: T) {
    function GetOr(default: T): T {
      match this
      case Some(v) => v
      case None => default
    }
  }

  /** `Err` carries the name of the Python exception the source raises. */
  datatype Result<+T> = Ok(value: T) | Err(error: string)
}
