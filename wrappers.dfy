/** The one failure-compatible wrapper the model needs. */
module Wrappers {

  /** A value that may be absent: a call that raised, a terminal that has no size. */
  datatype Option<+T> = None | Some(value: T) {

    /** The wrapped value, or `default` when there is none. */
    function GetOr(default: T): (r: T)
      ensures Some? ==> r == value
      ensures None? ==> r == default
    {
      match this
      case Some(v) => v
      case None => default
    }
  }
}
