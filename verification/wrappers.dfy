/** The optional values the manager reads from and hands back to its callers
    (Swift's `T?`). */
module Wrappers {

  /** `None` is Swift's `nil`. */
  datatype Option<+T> = None | Some(value: T) {

    /** Swift's nil-coalescing `self ?? default`. */
    function GetOr(default: T): (r: T)
      ensures Some? ==> r == value
      ensures None? ==> r == default
    {
      match this
      case Some(v) => v
      case None => default
    }
  }
}
