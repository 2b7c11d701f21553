/** Values shared by every layer: the optional value used for Python's `None` and
    TypeScript's `undefined`/`null`, and JavaScript truthiness for the value kinds the
    frontend tests with `if (x)` or `x || fallback`. */
module Common {

  datatype Option<+T> = None | Some(value: T) {
    function GetOr(default: T): T {
      match this
      case Some(v) => v
      case None => default
    }
  }

  /** A field of a JSON request body that may be absent, an explicit `null`, or a value;
      `model_dump(exclude_unset=True)` keeps the last two and drops the first. */
  datatype Patch<+T> = Absent | Null | Given(value: T) {
    /** The column value after `setattr` with this field, when the field was sent. */
    function ApplyTo(current: Option<T>): (r: Option<T>)
      ensures Absent? ==> r == current
      ensures Null? ==> r.None?
      ensures Given? ==> r == Some(value)
    {
      match this
      case Absent => current
      case Null => None
      case Given(v) => Some(v)
    }
  }

  /** `if (s)` on a JavaScript string: only the empty string is falsy. */
  predicate TruthyStr(s: string) {
    s != ""
  }

  /** `if (o)` on an optional string: `undefined`, `null` and "" are falsy. */
  predicate TruthyOptStr(o: Option<string>) {
    o.Some? && o.value != ""
  }

  /** `if (n)` on an optional integer: `undefined`, `null` and 0 are falsy. NaN is not modelled. */
  predicate TruthyOptInt(o: Option<int>) {
    o.Some? && o.value != 0
  }

  /** `o || fallback` on an optional string. */
  function OrStr(o: Option<string>, fallback: string): (r: string)
    ensures TruthyOptStr(o) ==> r == o.value
    ensures !TruthyOptStr(o) ==> r == fallback
  {
    if o.Some? && o.value != "" then o.value else fallback
  }

  /** `x || undefined` on an optional integer: 0 becomes `undefined`. */
  function NonZero(o: Option<int>): (r: Option<int>)
    ensures r.Some? <==> TruthyOptInt(o)
    ensures r.Some? ==> r == o
  {
    if o.Some? && o.value != 0 then o else None
  }

  /** `x || undefined` on a string: "" becomes `undefined`. */
  function NonEmpty(s: string): (r: Option<string>)
    ensures r.Some? <==> s != ""
    ensures r.Some? ==> r.value == s
  {
    if s != "" then Some(s) else None
  }

  /** `Math.abs` on an integer. */
  function Abs(i: int): (r: nat)
    ensures r == i || r == -i
  {
    if i < 0 then -i else i
  }
}
