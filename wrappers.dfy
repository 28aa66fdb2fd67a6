/** Option and Result values used where the application returns "nothing",
    falls back to a default, or answers with an error instead of a value. */
module Wrappers {

  datatype Option<+T> = None | Some(value: T) {
    /** Python's `x or default` for a value that is either missing or present. */
    function GetOr(default: T): T {
      match this
      case Some(v) => v
      case None => default
    }
  }

  datatype Result<+R, +E> = Success(value: R) | Failure(error: E)
}
