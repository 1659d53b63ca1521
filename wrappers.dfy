/** Option and Result types used for Python's None returns and raised exceptions. */
module Wrappers {

  datatype Option<+T> = None | Some(value: T) {
    function GetOr(default: T): T {
      match this
      case Some(v) => v
      case None => default
    }
  }

  /** A Python call that either returns a value or raises an exception of the named class. */
  datatype Result<+T> = Success(value: T) | Failure(error: string)
}
