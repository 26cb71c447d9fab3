/** Optional values: a JSON key that a parsed report or memory file may lack. */
module Wrappers {

  /** `None` stands for a key that is absent; `Some(v)` for a key present with value `v`. */
  datatype Option<+T> = None | Some(value: T) {

    /** Python's `d.get(key, default)`: the value when present, `default` otherwise. */
    function GetOr(default: T): (r: T)
      ensures Some? ==> r == value
      ensures None? ==> r == default
    {
      match this
      case Some(v) => v
      case None => default
    }
  }
}
