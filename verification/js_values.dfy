/** The few JavaScript value rules the handlers depend on: truthiness of
    request fields and the number a route parameter denotes under `==`. */
module JsValues {
  import opened Wrappers

  /** A field of a request body or socket payload. Booleans, `null`, objects
      and non-integer numbers are not modelled. */
  datatype Scalar = Undefined | Num(n: int) | Str(s: string)

  /** JavaScript truthiness: `undefined`, `0` and `""` are falsy. */
  predicate Truthy(v: Scalar) {
    match v
    case Undefined => false
    case Num(n) => n != 0
    case Str(s) => |s| > 0
  }

  predicate IsDigit(c: char) {
    '0' <= c <= '9'
  }

  predicate AllDigits(s: string) {
    forall i :: 0 <= i < |s| ==> IsDigit(s[i])
  }

  /** The value of a string of decimal digits, most significant first. */
  function DigitsValue(s: string): nat
    requires AllDigits(s)
  {
    if |s| == 0 then 0
    else 10 * DigitsValue(s[..|s| - 1]) + (s[|s| - 1] - '0') as int
  }

  /** `Number(s)` for the texts a route parameter holds in practice: the empty
      string is 0, an optionally signed run of decimal digits is its value,
      anything else is NaN (`None`). */
  function ToNumber(s: string): (r: Option<int>)
    ensures AllDigits(s) ==> r == Some(DigitsValue(s))
    ensures r.Some? && |s| > 0 && s[0] == '-' ==> r.value <= 0
  {
    if |s| == 0 then Some(0)
    else if AllDigits(s) then Some(DigitsValue(s))
    else if (s[0] == '-' || s[0] == '+') && |s| > 1 && AllDigits(s[1..]) then
      Some(if s[0] == '-' then -(DigitsValue(s[1..]) as int) else DigitsValue(s[1..]))
    else None
  }

  /** `x == s` for a number `x` and a string `s`: loose equality converts the
      string to a number, and NaN equals nothing. */
  predicate LooseEquals(x: int, s: string) {
    ToNumber(s) == Some(x)
  }
}
