/** Failure-carrying values shared by every module of the model. */
module Wrappers {

  /** A value that may be absent: pandas' NaN / Python's None. */
  datatype Option<+T> = None | Some(value: T) {
    function GetOr(default: T): T {
      match this
      case Some(v) => v
      case None => default
    }
  }

  /** The outcome of a step that can raise: `Err` carries the reason. */
  datatype Result<+T, +E> = Ok(value: T) | Err(error: E)
}
