/** Optional values and operation results shared by the export pipeline model. */
module Wrappers {

  /** A value that may be SQL NULL, or a JavaScript property that may be absent. */
  datatype Option<+T> = None | Some(value: T) {
    function GetOr(default: T): T {
      match this
      case Some(v) => v
      case None => default
    }
  }

  /** The outcome of an operation that can throw. */
  datatype Result<+R, +E> = Success(value: R) | Failure(error: E)
}
