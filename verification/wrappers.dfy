/** Option and Result, the two failure-carrying datatypes the model uses:
    Option for a value the source reads as possibly `None` (an HTTP getter
    that failed, a dictionary key that is absent), Result for a computation
    that either yields a value or raises. */
module Wrappers {

  datatype Option<+T> = None | Some(value: T) {
    /** The wrapped value, or `default` when there is none (Python's `d.get(k, default)`). */
    function GetOr(default: T): T {
      match this
      case Some(v) => v
      case None => default
    }
  }

  datatype Result<+T, +E> = Ok(value: T) | Err(error: E)
}
