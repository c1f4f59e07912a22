/** Failure-carrying values used throughout the model: Go's `(T, error)`
    pairs become `Result`, a bare `error` return becomes `Outcome`. */
module Wrappers {

  datatype Option<+T> = None | Some(value: T) {
    function GetOr(default: T): T {
      match this
      case Some(v) => v
      case None => default
    }
  }

  datatype Result<+T, +E> = Ok(value: T) | Err(error: E)

  /** An `error` return on its own: `Pass` is Go's `nil`. */
  datatype Outcome<+E> = Pass | Fail(error: E)
}
