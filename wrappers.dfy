/** Option and Result values used for Python's `None`/exceptions and JavaScript's optional fields. */
module Wrappers {

  datatype Option<+T> = None | Some(value: T) {
    /** The value held, or `default` when there is none (Python's `getattr(obj, name, default)`). */
    function GetOr(default: T): T {
      match this
      case Some(v) => v
      case None => default
    }
  }

  datatype Result<+R, +E> = Success(value: R) | Failure(error: E)
}
