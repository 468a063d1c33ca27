/** Failure-carrying datatypes shared by every module of the model. */
module Wrappers {

  /** A value that may be absent: a missing key, a missing environment
      variable, a file that is not there. */
  datatype Option<+T> = None | Some(value: T) {
    function GetOr(default: T): T {
      match this
      case Some(v) => v
      case None => default
    }
  }

  /** Either a value or the error that the original program would raise. */
  datatype Result<+R, +E> = Ok(value: R) | Err(error: E)
}
