/** Optional values, standing for JavaScript's `null`/`undefined` and for absent keys. */
module Wrappers {

  datatype Option<+T> = None | Some(value: T) {

    /** The value when present, or `default` when absent: a spread keeps the old field unless the update has the key, whatever its value. */
    function GetOr(default: T): T {
      match this
      case Some(v) => v
      case None => default
    }
  }
}
