/** Optional values: a JavaScript value that may be `undefined` or `null`, or a
    request that may throw. */
module Wrappers {

  datatype Option<+T> = None | Some(value: T) {

    /** `x || default` for a field that may be missing. */
    function GetOr(default: T): T
    {
      match this
      case Some(v) => v
      case None => default
    }
  }
}
