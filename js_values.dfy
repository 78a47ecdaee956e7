/**
 * The few JavaScript value semantics the plugin relies on: truthiness,
 * strict equality, `String(v)` rendering, and the decimal rendering of
 * integers.
 */
module JsValues {

  /**
   * A JavaScript value as it reaches the plugin from parsed JSON or from
   * its own settings.  Numbers are integers.  `Obj` stands for any object
   * or array, carrying the text `String(v)` gives it; every such value is a
   * fresh reference, so it is never `===` to anything else.
   */
  datatype JsValue =
    | Undefined
    | Null
    | Bool(b: bool)
    | Num(n: int)
    | Str(s: string)
    | Obj(text: string)

  /** JavaScript truthiness (`if (v)`, `!v`, `a || b`). */
  predicate Truthy(v: JsValue) {
    match v
    case Undefined => false
    case Null => false
    case Bool(b) => b
    case Num(n) => n != 0
    case Str(s) => s != ""
    case Obj(_) => true
  }

  /** `a || b`: the first operand when it is truthy, otherwise the second. */
  function Or(a: JsValue, b: JsValue): JsValue {
    if Truthy(a) then a else b
  }

  /** `a === b`: primitives compare by value, two objects are never the
      same reference. */
  predicate StrictEquals(a: JsValue, b: JsValue) {
    a == b && !a.Obj?
  }

  /** `String(v)`, the rendering used by template literals and by property
      keys. */
  function ToJsString(v: JsValue): string {
    match v
    case Undefined => "undefined"
    case Null => "null"
    case Bool(b) => if b then "true" else "false"
    case Num(n) => IntToString(n)
    case Str(s) => s
    case Obj(t) => t
  }

  predicate IsDigit(c: char) {
    '0' <= c <= '9'
  }

  predicate AllDigits(s: string) {
    forall k :: 0 <= k < |s| ==> IsDigit(s[k])
  }

  /** The value of a string of decimal digits, read left to right. */
  function DecimalValue(s: string): nat
    requires AllDigits(s)
  {
    if s == [] then 0
    else 10 * DecimalValue(s[..|s| - 1]) + (s[|s| - 1] as int - '0' as int)
  }

  /** Canonical decimal rendering of a natural number: digits only, no
      leading zero, and it reads back as `n`. */
  function NatToDecimal(n: nat): (r: string)
    ensures r != [] && AllDigits(r)
    ensures r[0] == '0' ==> r == "0"
    ensures DecimalValue(r) == n
  {
    var last := [('0' as int + n % 10) as char];
    if n < 10 then last
    else
      var prefix := NatToDecimal(n / 10);
      assert (prefix + last)[..|prefix + last| - 1] == prefix;
      prefix + last
  }

  /** `String(n)` for an integer `n`. */
  function IntToString(n: int): string {
    if n < 0 then "-" + NatToDecimal(-n) else NatToDecimal(n)
  }
}
