/** Option and Result: the "value or null" and "value or thrown error" shapes
    that the services and handlers of the store return. */
module Wrappers {

  datatype Option<+T> = None | Some(value: T) {
    /** The value, or `default` when the field was not supplied (a patch
        field that is `undefined`). */
    function GetOr(default: T): T {
      match this
      case Some(v) => v
      case None => default
    }
  }

  datatype Result<+R, +E> = Success(value: R) | Failure(error: E)
}
