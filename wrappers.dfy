/** Optional values: a nullable SQL cell, an absent JSON field, a row that may not exist. */
module Wrappers {

  datatype Option<+T> = None | Some(value: T) {

    /** The value, or `default` when there is none. */
    function GetOr(default: T): T
    {
      match this
      case Some(v) => v
      case None => default
    }
  }

  function Max(a: int, b: int): int
  {
    if a < b then b else a
  }
}
