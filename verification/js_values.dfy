/**
 The few pieces of JavaScript value semantics that the placemark transform
 relies on: optional JSON fields, truthiness, `x || default` and `x + y`
 on numeric fields.  Numbers are integers here (counts, and coordinates in
 fixed scaled units); floating point is not modelled.
 */
module JsValues {

  datatype Option<+T> = None | Some(value: T)

  /** A numeric field of a decoded JSON object: absent (`undefined`), `null`, or a number. */
  datatype NumField = Missing | Null | Number(value: int)

  /** A JavaScript number that may be NaN. */
  datatype JsNumber = NaN | Finite(n: int)

  /** Numeric conversion used by `+`: `undefined` becomes NaN, `null` becomes 0. */
  function ToNumber(x: NumField): JsNumber {
    match x
    case Missing => NaN
    case Null => Finite(0)
    case Number(v) => Finite(v)
  }

  /** `a + b` on numbers: NaN is absorbing. */
  function Add(a: JsNumber, b: JsNumber): JsNumber {
    if a.NaN? || b.NaN? then NaN else Finite(a.n + b.n)
  }

  /** A number is truthy unless it is 0 or NaN. */
  predicate Truthy(a: JsNumber) {
    a.Finite? && a.n != 0
  }

  /** `a || d` for a number `a` and a numeric default `d`. */
  function NumberOr(a: JsNumber, d: int): int {
    if Truthy(a) then a.n else d
  }

  /**
   `x || 0` on a numeric field.  `undefined` and `null` are falsy like 0,
   so the result is the field's number when there is one and 0 otherwise.
   */
  function FieldOrZero(x: NumField): (r: int)
    ensures r != 0 <==> x.Number? && x.value != 0
    ensures r != 0 ==> x == Number(r)
  {
    NumberOr(ToNumber(x), 0)
  }

  /**
   `x + y || 0` on two numeric fields.  A missing field makes the sum NaN,
   hence 0, even when the other field is non-zero; a `null` field counts as 0.
   */
  function SumOrZero(x: NumField, y: NumField): (r: int)
    ensures x.Missing? || y.Missing? ==> r == 0
    ensures !x.Missing? && !y.Missing? ==> r == FieldOrZero(x) + FieldOrZero(y)
  {
    NumberOr(Add(ToNumber(x), ToNumber(y)), 0)
  }

  /** `s || d` on an optional string field: absent, `null` and "" are falsy. */
  function StringOr(s: Option<string>, d: string): string {
    if s.Some? && s.value != "" then s.value else d
  }

  /** A string field is truthy when it is present and non-empty. */
  predicate StringTruthy(s: Option<string>) {
    s.Some? && s.value != ""
  }
}
