/** Small helper datatypes shared by the other modules. */
module Wrappers {

  /** A value that may be absent: a PHP `null`, a missing array key, a file that does not exist. */
  datatype Option<+T> = None | Some(value: T) {

    /** The encapsulated value, or `default` when absent. */
    function GetOr(default: T): T {
      match this
      case Some(v) => v
      case None => default
    }
  }
}
