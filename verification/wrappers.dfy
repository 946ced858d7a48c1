/** Failure-carrying datatypes used to model the exceptions the driver raises. */
module Wrappers {

  /** An optional value, used for a results file that may be absent. */
  datatype Option<+T> = None | Some(value: T) {

    /** The wrapped value, or `default` when there is none. */
    function GetOr(default: T): T {
      match this
      case Some(v) => v
      case None => default
    }
  }

  /** Either a value or the error a Python exception would carry. */
  datatype Result<+R, +E> = Success(value: R) | Failure(error: E)
}
