/** Optional values and success/failure results, used for the JavaScript
    `null`-able fields and for operations that either return or throw. */
module Wrappers {

  /** A value that may be absent (`null`/`undefined` in the source). */
  datatype Option<+T> = None | Some(value: T) {

    /** `x = default` as a parameter default: the value, or `fallback`
        when the argument is absent. */
    function GetOr(fallback: T): (r: T)
      ensures Some? ==> r == value
      ensures None? ==> r == fallback
    {
      if Some? then value else fallback
    }
  }

  /** A returned value, or the message of the error that would be thrown. */
  datatype Result<+R, +E> = Success(value: R) | Failure(error: E)
}
