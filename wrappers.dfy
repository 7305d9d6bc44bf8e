/** Optional values, standing for Python's `None`, for a missing file or
    for a lookup that produced nothing. */
module Wrappers {

  datatype Option<T> = None | Some(value: T) {
    predicate IsFailure() {
      None?
    }

    function GetOr(default: T): T {
      match this
      case None => default
      case Some(v) => v
    }
  }
}
