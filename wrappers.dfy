/** The JavaScript values `null`/`undefined` of an optional field. */
module Wrappers {

  datatype Option<+T> = None | Some(value: T) {

    /** The value, or a fallback for a missing one (JavaScript's `x || fallback` on a non-falsy x). */
    function GetOr(fallback: T): T {
      match this
      case Some(v) => v
      case None => fallback
    }
  }
}
