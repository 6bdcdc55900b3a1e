/** Optional values: JavaScript's `null`/`undefined`/`NaN` where the application uses them as "no value". */
module Wrappers {

  datatype Option<+T> = None | Some(value: T) {

    /** The value, or `default` when there is none (JavaScript's `x || default` on a non-empty value). */
    function GetOr(default: T): T {
      match this
      case Some(v) => v
      case None => default
    }
  }

  /** The outcome of an operation that the application ends with `throw new Error(...)` on failure. */
  datatype Result<+T, +E> = Success(value: T) | Failure(error: E)
}
