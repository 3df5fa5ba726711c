/** The optional value used wherever the Python code returns or accepts `None`. */
module Wrappers {

  datatype Option<T> = None | Some(value: T) {

    /** The value inside `Some`, or `default` for `None` (Python's `x or default` on optionals). */
    function GetOr(default: T): T
    {
      match this
      case Some(v) => v
      case None => default
    }
  }
}
