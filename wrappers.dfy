/** Option and Result types shared by every model in this project. */
module Wrappers {

  /** A value that may be absent: Python's `None`, JavaScript's `undefined`, a null pointer. */
  datatype Option<+T> = None | Some(value: T) {
    function GetOr(default: T): T {
      match this
      case Some(v) => v
      case None => default
    }
  }

  /** The outcome of an operation that may raise: `Failure` carries the exception. */
  datatype Result<+R, +E> = Success(value: R) | Failure(error: E)
}
