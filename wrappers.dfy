/** Optional values, standing in for JavaScript's `null`/`undefined` and SQL NULL. */
module Wrappers {
  datatype Option<T> = None | Some(value: T) {
    /** `x ?? d`: the value when present, the default otherwise. */
    function GetOr(default: T): T {
      if Some? then value else default
    }
  }
}
