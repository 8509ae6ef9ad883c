/** Optional values and success/failure results, used for the source's
    `undefined` fields, thrown errors and rejected promises. */
module Wrappers {

  datatype Option<+T> = None | Some(value: T) {
    function GetOr(default: T): T {
      match this
      case Some(v) => v
      case None => default
    }
  }

  datatype Result<+R, +E> = Success(value: R) | Failure(error: E)

  /** A result that carries no value: an operation that returns `void` or throws. */
  datatype Outcome<+E> = Pass | Fail(error: E)
}
