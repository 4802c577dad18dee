/** Failure-carrying values shared by the cache and catalog models. */
module Wrappers {

  /** A value that may be absent: JavaScript's `null`/`undefined`. */
  datatype Option<+T> = None | Some(value: T) {

    /** Returns the value in Some, or `default` when absent. */
    function GetOr(default: T): T {
      match this
      case Some(v) => v
      case None => default
    }
  }

  /** The outcome of an operation that can reject: a success value or an error. */
  datatype Result<+R, +E> = Success(value: R) | Failure(error: E)
}
