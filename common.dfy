/** Small shared vocabulary: optional values, and the maximum and minimum of two integers. */
module Common {

  /** A value that may be missing (`undefined` in the application's JSON bodies). */
  datatype Option<+T> = None | Some(value: T) {

    /** The value, or `default` when it is missing (the `x || default` idiom). */
    function GetOr(default: T): T {
      match this
      case Some(v) => v
      case None => default
    }
  }

  /** True when a string-valued field is present and truthy, that is, present and not "". */
  predicate Present(o: Option<string>) {
    o.Some? && o.value != ""
  }

  /** A list that may be missing, read as empty when it is (`list || []`). */
  function OrEmpty<T>(o: Option<seq<T>>): seq<T> {
    o.GetOr([])
  }

  function Max(a: int, b: int): (m: int)
    ensures m >= a && m >= b
    ensures m == a || m == b
  {
    if a < b then b else a
  }

  function Min(a: int, b: int): (m: int)
    ensures m <= a && m <= b
    ensures m == a || m == b
  {
    if a < b then a else b
  }
}
