/** Option and Result: the error paths of the modelled code (Python's None and raised exceptions). */
module Wrappers {

  datatype Option<+T> = None | Some(value: T) {
    function GetOr(default: T): T {
      match this
      case Some(v) => v
      case None => default
    }
  }

  datatype Result<+R, +E> = Success(value: R) | Failure(error: E)

  /** A check that either passes or fails with a reason. */
  datatype Outcome<+E> = Pass | Fail(error: E)
}
