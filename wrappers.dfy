/** Option and Result values used for the absent results and the error paths of the model. */
module Wrappers {

  datatype Option<+T> = None | Some(value: T) {
    /** The value when present, otherwise the given default (JavaScript's `x || d` on a present value). */
    function GetOr(default: T): T {
      match this
      case Some(v) => v
      case None => default
    }
  }

  datatype Result<+T, +E> = Ok(value: T) | Err(error: E)
}
