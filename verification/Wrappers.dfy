// Values that may be absent: SQL NULL, a Python None, a dict key that misses.
module Wrappers {
  datatype Option<+T> = None | Some(value: T) {
    function GetOr(default: T): T {
      match this
      case Some(v) => v
      case None => default
    }
  }

  /** Python's truth of an optional string: neither missing nor empty. */
  predicate Truthy(s: Option<string>) {
    s.Some? && s.value != ""
  }
}
