/** Optional values and fallible results, used for JavaScript's `undefined`/`null`
    and for the errors a route handler throws. */
module Wrappers {

  datatype Option<+T> = None | Some(value: T) {
    /** The value, or `default` when absent (JavaScript's `x ?? default`). */
    function GetOr(default: T): T {
      match this
      case Some(v) => v
      case None => default
    }
  }

  /** A handler either yields its value or throws an `Error` with a message. */
  datatype Result<+T> = Success(value: T) | Failure(message: string)
}
