/** The optional-value datatype used throughout the model, in place of Python's None. */
module Wrappers {

  datatype Option<+T> = None | Some(value: T) {

    /** The held value, or the fallback when there is none: Python's `x if x is not None else d`. */
    function GetOr(default: T): T
    {
      match this
      case Some(v) => v
      case None => default
    }
  }
}
