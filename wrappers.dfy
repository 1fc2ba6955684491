/** Optional values: a JavaScript property that may be `undefined`, or a storage slot that may be absent. */
module Wrappers {

  datatype Option<+T> = None | Some(value: T) {

    /** The value if present, otherwise the given default (a TypeScript default parameter). */
    function GetOr(default: T): T {
      match this
      case Some(v) => v
      case None => default
    }
  }
}
