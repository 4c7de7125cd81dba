/** Option and Result, standing for JavaScript's `undefined` and for thrown errors. */
module Wrappers {

  /** `None` is JavaScript's `undefined` (or `null`) for an optional field. */
  datatype Option<+T> = None | Some(value: T) {
    function GetOr(default: T): T {
      match this
      case Some(v) => v
      case None => default
    }
  }

  /** What a call that may throw produces: its value, or the error it threw. */
  datatype Result<+R, +E> = Ok(value: R) | Err(error: E)
}
