/** Option and Result: the value-or-absence and value-or-error types that the
    importer's functional-extensions library (Maybe, Result) supplies. */
module Wrappers {

  /** `Maybe<T>` / a nullable value. */
  datatype Option<+T> = None | Some(value: T) {

    /** `?? default`: the value, or the default when absent. */
    function GetOr(default: T): T {
      match this
      case Some(v) => v
      case None => default
    }
  }

  /** `Result<T, E>`: a value, or an error describing why there is none. */
  datatype Result<+T, +E> = Success(value: T) | Failure(error: E)
}
