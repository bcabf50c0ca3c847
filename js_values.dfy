/** The JavaScript values the filter operators and the grouping column
    look at, and the few coercions of the language they rely on:
    `== null`, truthiness, `Number(...)`, `===` against a number and the
    SameValueZero equality used by `Array.prototype.includes`. */
module JsValues {

  /** A JavaScript number, without fractions or infinities: a finite
      integer or NaN. */
  datatype Number = Finite(n: int) | NaN

  datatype JsValue =
    | Null
    | Undefined
    | Bool(b: bool)
    | Num(num: Number)
    | Str(s: string)
    | Array(items: seq<JsValue>)

  /** `v == null` (loose equality): true for null and for undefined. */
  predicate IsNullish(v: JsValue) {
    v.Null? || v.Undefined?
  }

  /** `Boolean(v)`: the falsy values are null, undefined, false, 0, NaN and "". */
  predicate Truthy(v: JsValue) {
    match v
    case Null => false
    case Undefined => false
    case Bool(b) => b
    case Num(x) => x.Finite? && x.n != 0
    case Str(s) => s != ""
    case Array(_) => true
  }

  predicate IsDigit(c: char) {
    '0' <= c <= '9'
  }

  /** `10` to the power `n`. */
  function Pow10(n: nat): (r: nat)
    ensures r >= 1
  {
    if n == 0 then 1 else 10 * Pow10(n - 1)
  }

  /** The value of a run of decimal digits: `n` digits denote a number below
      `10^n`, and the empty run and a single digit have their obvious values. */
  function DecimalValue(s: string): (r: nat)
    requires forall i :: 0 <= i < |s| ==> IsDigit(s[i])
    ensures s == [] ==> r == 0
    ensures |s| == 1 ==> r == s[0] as int - '0' as int
    ensures r < Pow10(|s|)
  {
    if s == [] then 0
    else
      assert IsDigit(s[|s| - 1]);
      var prefix := DecimalValue(s[..|s| - 1]);
      var digit := s[|s| - 1] as int - '0' as int;
      assert prefix * 10 + digit <= (Pow10(|s| - 1) - 1) * 10 + 9;
      prefix * 10 + digit
  }

  /** `Number(s)` for a string: the empty string is 0, a run of decimal
      digits is its value, anything else is NaN. */
  function StringToNumber(s: string): (r: Number)
    ensures s == "" ==> r == Finite(0)
    ensures r.Finite? ==> r.n >= 0
  {
    if s == "" then Finite(0)
    else if forall i :: 0 <= i < |s| ==> IsDigit(s[i]) then Finite(DecimalValue(s))
    else NaN
  }

  /** `Number(v)`. */
  function ToNumber(v: JsValue): Number {
    match v
    case Null => Finite(0)
    case Undefined => NaN
    case Bool(b) => if b then Finite(1) else Finite(0)
    case Num(x) => x
    case Str(s) => StringToNumber(s)
    case Array(_) => NaN
  }

  /** `Number.isNaN(v)`: true only for the number NaN, never after coercion. */
  predicate IsNaNNumber(v: JsValue) {
    v == Num(NaN)
  }

  /** `x === v` where `x` is a number: NaN equals nothing, and a value of
      another type is never strictly equal to a number. */
  predicate NumberStrictEquals(x: Number, v: JsValue) {
    x.Finite? && v.Num? && v.num.Finite? && v.num.n == x.n
  }

  /** The relational operators `<`, `<=`, `>`, `>=` between two numbers:
      every comparison with NaN is false. */
  predicate NumberLess(x: Number, y: Number) {
    x.Finite? && y.Finite? && x.n < y.n
  }

  predicate NumberLessOrEqual(x: Number, y: Number) {
    x.Finite? && y.Finite? && x.n <= y.n
  }

  /** SameValueZero, the equality of `includes`: like `===` except that NaN
      equals NaN. */
  predicate SameValueZero(v: JsValue, x: Number) {
    v.Num? && (v.num == x)
  }

  /** `items.includes(Num(x))`. */
  predicate Includes(items: seq<JsValue>, x: Number) {
    exists i :: 0 <= i < |items| && SameValueZero(items[i], x)
  }
}
