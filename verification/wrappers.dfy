/** Optional values and results with an error, used for the nullable and
    optional fields of the client and for handlers that can throw. */
module Wrappers {

  /** A value that may be absent: `T | null` or `T | undefined` in the client. */
  datatype Option<+T> = None | Some(value: T) {

    /** The value, or `default` when absent (the `??` operator). */
    function GetOr(default: T): T {
      match this
      case Some(v) => v
      case None => default
    }
  }

  /** The outcome of a handler: a new state, or the error it throws. */
  datatype Result<+R, +E> = Success(value: R) | Failure(error: E)
}
