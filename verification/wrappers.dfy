/** Optional values: the model's stand-in for the Java `null` reference. */
module Wrappers {

  datatype Option<+T> = None | Some(value: T) {

    /** Returns the value inside `Some`, or `default` for `None`. */
    function GetOr(default: T): T {
      match this
      case Some(v) => v
      case None => default
    }
  }
}
