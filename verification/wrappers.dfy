/** Failure-carrying datatypes used across the model: `Option` for the
    source's `null` results, `Result` for values that may instead be a
    thrown error message, and `Outcome` for checks that only throw. */
module Wrappers {

  datatype Option<+T> = None | Some(value: T) {
    function GetOr(default: T): T {
      match this
      case Some(v) => v
      case None => default
    }
  }

  datatype Result<+R, +E> = Success(value: R) | Failure(error: E)

  /** A check that either passes or fails with an error value. */
  datatype Outcome<+E> = Pass | Fail(error: E)
}
