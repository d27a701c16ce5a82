/** The optional value used for the source's `undefined`, `null` and
    `find(...)` results. */
module Wrappers {

  datatype Option<+T> = None | Some(value: T) {

    /** The value, or the given default when there is none (the source's `x || d`
        for fields that are never empty strings). */
    function GetOr(default: T): T {
      match this
      case Some(v) => v
      case None => default
    }
  }
}
