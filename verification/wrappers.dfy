/** The optional-value type used wherever the collectors may have nothing to report
    (a Go `nil` value, a failed read, a missing map key). */
module Wrappers {

  datatype Option<+T> = None | Some(value: T) {

    /** The wrapped value, or `default` when there is none. */
    function GetOr(default: T): T {
      match this
      case Some(v) => v
      case None => default
    }
  }
}
