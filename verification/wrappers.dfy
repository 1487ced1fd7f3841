/** Optional values and results, shared by the client and the server models. */
module Wrappers {

  /** A value that may be absent: JavaScript's null/undefined, Go's missing result. */
  datatype Option<+T> = None | Some(value: T) {

    /** The carried value, or `default` when absent (JavaScript's `??`). */
    function GetOr(default: T): T {
      match this
      case Some(v) => v
      case None => default
    }
  }

  /** Either a value or the error that replaced it (a thrown exception, a Go `error`). */
  datatype Result<+T, +E> = Success(value: T) | Failure(error: E)
}
