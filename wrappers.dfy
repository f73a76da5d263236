/** Option and Result, as the rest of the model uses them: a Python value that
    may be `None` (or a dictionary key that may be absent), and an operation
    that either produces a value or raises. */
module Wrappers {

  datatype Option<+T> = None | Some(value: T) {
    /** `dict.get(key, default)`: the value if present, else the default. */
    function GetOr(default: T): T {
      match this
      case Some(v) => v
      case None => default
    }
  }

  datatype Result<+T, +E> = Ok(value: T) | Err(error: E)
}
