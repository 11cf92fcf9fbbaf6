/** Optional values and success/failure results, used wherever the admin
    panel has a nullable field, an optional argument or an operation that
    can throw. */
module Wrappers {

  /** A value that may be absent (`null` or `undefined` in the panel). */
  datatype Option<+T> = None | Some(value: T) {
    /** `x ?? fallback` */
    function UnwrapOr(fallback: T): T {
      match this
      case Some(v) => v
      case None => fallback
    }
  }

  /** The outcome of an operation that either returns a value or throws
      an error carrying a message. */
  datatype Result<+R, +E> = Success(value: R) | Failure(error: E)

  /** The outcome of an operation that returns nothing or throws. */
  datatype Outcome<+E> = Pass | Fail(error: E)
}
