/** Failure-compatible wrappers shared by every module of the model. */
module Wrappers {

  /** `None` stands for an absent value; for numeric cells it is pandas' NaN. */
  datatype Option<+T> = None | Some(value: T) {
    function GetOr(default: T): T {
      match this
      case Some(v) => v
      case None => default
    }
  }

  /** The outcome of an operation that the source ends by raising. */
  datatype Result<+T, +E> = Ok(value: T) | Err(error: E)
}
