/** Optional values, standing in for C# `null` references. */
module Wrappers {

  /** `None` plays the part of a C# `null`. */
  datatype Option<+T> = None | Some(value: T) {

    /** Returns the value held in `Some`, or `default` for `None` (the `??` operator). */
    function GetOr(default: T): T {
      match this
      case Some(v) => v
      case None => default
    }
  }
}
