/** Optional values and results with an error, used throughout the model. */
module Wrappers {

  /** An optional value: JavaScript's `undefined`/`null`/`NaN` map to None. */
  datatype Option<+T> = None | Some(value: T) {
    function GetOr(default: T): T {
      match this
      case Some(v) => v
      case None => default
    }
  }

  /** The outcome of an operation that may fail with an error of type E. */
  datatype Result<+T, +E> = Ok(value: T) | Err(error: E)
}
