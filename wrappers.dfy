/** Option and Result, used for nullable inputs and for the pipeline's error paths. */
module Wrappers {

  /** A value that may be missing (a NaN cell in the input frame). */
  datatype Option<+T> = None | Some(value: T) {

    /** The value, or `default` when missing (pandas `fillna` / `isnan` test). */
    function GetOr(default: T): T {
      match this
      case Some(v) => v
      case None => default
    }
  }

  /** Either a value or the error that aborted the computation. */
  datatype Result<+T, +E> = Ok(value: T) | Err(error: E)
}
