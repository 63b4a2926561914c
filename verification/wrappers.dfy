/** Optional values and the payload-field shape shared by every handler. */
module Wrappers {

  /** A value that may be absent (Python `None`). */
  datatype Option<+T> = None | Some(value: T) {
    function GetOr(default: T): T {
      match this
      case Some(v) => v
      case None => default
    }
  }

  /** One key of a JSON payload as a marshmallow schema sees it:
      absent, explicitly `null`, a value of the expected shape, or a value
      the field's type/format validator (Str, Email, Url, Int) refuses. */
  datatype Field<+T> = Absent | Null | Given(v: T) | Malformed {
    predicate Present() { !Absent? }
  }

  /** Python truthiness of an optional integer id: `None` and `0` are falsy. */
  predicate TruthyId(p: Option<int>) {
    p.Some? && p.value != 0
  }

  /** Python truthiness of an optional string: `None` and `""` are falsy. */
  predicate TruthyStr(s: Option<string>) {
    s.Some? && |s.value| > 0
  }
}
