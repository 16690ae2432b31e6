/** Option and Result, the two failure-carrying value types the model uses. */
module Wrappers {

  datatype Option<+T> = None | Some(value: T)
  {
    /** The carried value, or `default` when there is none. */
    function GetOr(default: T): T
    {
      match this
      case Some(v) => v
      case None => default
    }
  }

  /** The success-or-error value a fallible operation returns. */
  datatype Result<+R, +E> = Ok(value: R) | Err(error: E)
}
