/** The optional value used wherever the source returns `null` or may omit a value,
    and `Math.min`. */
module Wrappers {

  datatype Option<+T> = None | Some(value: T) {

    /** The wrapped value, or `default` when there is none. */
    function GetOr(default: T): T {
      match this
      case Some(v) => v
      case None => default
    }
  }

  /** `Math.min` on integers. */
  function Min(a: int, b: int): int {
    if a <= b then a else b
  }
}
