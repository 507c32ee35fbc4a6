/** Optional values and results shared by every module of the model. */
module Wrappers {

  /** `undefined` / `null` in the application is `None`. */
  datatype Option<+T> = None | Some(value: T) {
    function GetOr(default: T): T {
      match this
      case Some(v) => v
      case None => default
    }
  }

  /** A value, or the error message an exception would carry. */
  datatype Result<+R, +E> = Success(value: R) | Failure(error: E)
}
