/** Option and Result: the absent optional arguments of a request and the
    structured failure results of the store operations. */
module Wrappers {

  /** An optional value: a field that a caller may leave out. */
  datatype Option<+T> = None | Some(value: T) {

    /** The carried value, or `default` when there is none. */
    function GetOr(default: T): T {
      match this
      case Some(v) => v
      case None => default
    }
  }

  /** Either a successful value or an error. */
  datatype Result<+R, +E> = Success(value: R) | Failure(error: E)
}
