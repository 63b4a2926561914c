/** Loading one key of a JSON payload the way a marshmallow `Schema.load`
    does: `required`, `load_default`, `allow_none`, the field's validators,
    and `partial=True` (a missing key is skipped, no default applied). */
module Marshal {
  import opened Wrappers

  datatype Loaded<+U> = Invalid | Skipped | Value(v: U)

  /** `missing` is the `load_default` (`None` for a required field), `onNull`
      the value an explicit `null` loads as (`None` when `allow_none` is
      off), `accept` the type check and validators on a given value. */
  function LoadField<T, U>(f: Field<T>, partial: bool, missing: Option<U>,
                           onNull: Option<U>, accept: T -> Option<U>): (r: Loaded<U>)
    ensures r.Skipped? <==> f.Absent? && partial
    ensures f.Absent? && !partial ==> r == (if missing.Some? then Value(missing.value) else Invalid)
    ensures f.Null? ==> r == (if onNull.Some? then Value(onNull.value) else Invalid)
    ensures f.Malformed? ==> r.Invalid?
    ensures f.Given? ==> r == (if accept(f.v).Some? then Value(accept(f.v).value) else Invalid)
  {
    match f
    case Absent => if partial then Skipped else if missing.Some? then Value(missing.value) else Invalid
    case Null => if onNull.Some? then Value(onNull.value) else Invalid
    case Malformed => Invalid
    case Given(v) => if accept(v).Some? then Value(accept(v).value) else Invalid
  }

  /** A loaded value as "present in the result dict or not". */
  function Got<U>(l: Loaded<U>): Option<U> {
    if l.Value? then Some(l.v) else None
  }

  /** `validate.Length(min=lo, max=hi)` on a string (`hi` < 0: no maximum). */
  function Length(lo: nat, hi: int): string -> Option<string> {
    (s: string) => if lo <= |s| && (hi < 0 || |s| <= hi) then Some(s) else None
  }

  /** Wraps an accepted value, for fields whose loaded value may be `None`. */
  function Nullable<T>(accept: T -> Option<T>): T -> Option<Option<T>> {
    (v: T) => if accept(v).Some? then Some(Some(accept(v).value)) else None
  }

  /** A field type with no validator. */
  function AnyValue<T>(): T -> Option<T> {
    (v: T) => Some(v)
  }
}
