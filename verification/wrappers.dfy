/** The optional value used wherever the plugin reads a field that may be
    missing (`_cropElement`, `cropImage`) or where the JavaScript arithmetic
    would produce a non-number. */
module Wrappers {

  datatype Option<+T> = None | Some(value: T) {

    /** The value, or `default` when there is none. */
    function GetOr(default: T): T {
      match this
      case Some(v) => v
      case None => default
    }
  }
}
