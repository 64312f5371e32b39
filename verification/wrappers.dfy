/** Optional values: `None` plays the part of JavaScript's `undefined`, `null` and `NaN`
    wherever the dashboard code tests for them. */
module Wrappers {

  datatype Option<+T> = None | Some(value: T) {

    /** The wrapped value, or `default` when there is none. */
    function GetOr(default: T): T {
      match this
      case Some(v) => v
      case None => default
    }
  }
}
