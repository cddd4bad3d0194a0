/** Optional values and results with an error, shared by every module of the editor model. */
module Wrappers {

  /** A value that may be absent: JavaScript's `undefined`/`null` where the editor tests for it. */
  datatype Option<+T> = None | Some(value: T) {

    /** The value, or `default` when absent. */
    function GetOr(default: T): T {
      match this
      case Some(v) => v
      case None => default
    }
  }

  /** The outcome of a step that may throw: `Failure` stands for the exception. */
  datatype Result<+T, +E> = Success(value: T) | Failure(error: E)
}
