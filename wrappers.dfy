/** Failure-compatible wrappers shared by every module of the model. */
module Wrappers {

  /** A value that may be absent: Python's None, or a lookup that raised. */
  datatype Option<+T> = None | Some(value: T) {

    /** The value if present, otherwise the given default (Python's `x or default`
        when only absence is falsy). */
    function GetOr(default: T): T {
      match this
      case Some(v) => v
      case None => default
    }
  }
}
