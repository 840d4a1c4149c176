/** The optional value used wherever the dashboard has `undefined`, `null` or a missing key. */
module Wrappers {

  datatype Option<+T> = None | Some(value: T) {

    /** The value, or `default` when absent (the `??` and `||` fallbacks of the dashboard). */
    function GetOr(default: T): T {
      match this
      case Some(v) => v
      case None => default
    }
  }

  /** A JavaScript number held in an optional field is truthy when present and non-zero. */
  predicate Truthy(o: Option<int>) {
    o.Some? && o.value != 0
  }

  /** A string is truthy when it is non-empty. */
  predicate NonEmpty(s: string) {
    |s| > 0
  }
}
