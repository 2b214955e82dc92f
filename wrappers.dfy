/** Optional values (JavaScript's `null`/`undefined`) and error returns. */
module Wrappers {

  /** A value that may be absent: `null` or `undefined` in the tracker's JavaScript. */
  datatype Option<+T> = None | Some(value: T) {

    /** The value, or `default` when absent (JavaScript's `x || default` on an object). */
    function GetOr(default: T): T {
      match this
      case Some(v) => v
      case None => default
    }
  }

  /** The outcome of a handler that may throw. */
  datatype Result<+T> = Ok(value: T) | Err(error: string)
}
