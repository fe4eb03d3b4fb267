/** Optional values and success-or-error results shared by the whole model. */
module Wrappers {

  datatype Option<+T> = None | Some(value: T) {
    function GetOr(default: T): T {
      match this
      case Some(v) => v
      case None => default
    }
  }

  datatype Result<+R, +E> = Success(value: R) | Failure(error: E)

  /** Pass or fail, without a value (a statement that only reports an error). */
  datatype Outcome<+E> = Pass | Fail(error: E)
}
