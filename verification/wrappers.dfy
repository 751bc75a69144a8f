/** Optional values: `None` stands for a JavaScript `undefined` or `null`
    field, `Some(v)` for a field that is present. */
module Wrappers {

  datatype Option<+T> = None | Some(value: T) {

    /** The value, or `default` when absent (JavaScript `x ?? default`). */
    function GetOr(default: T): T {
      match this
      case Some(v) => v
      case None => default
    }
  }
}
