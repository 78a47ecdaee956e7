/**
 * String operations of the JavaScript runtime used by the plugin and its
 * release script: `parseInt`, `String.prototype.split` on one character and
 * `Array.prototype.join`.
 */
module JsStrings {
  import opened Wrappers
  import opened JsValues

  /** The characters `parseInt` skips before the number (white space and
      line terminators of ECMAScript). */
  predicate IsWhiteSpace(c: char) {
    || c == '\t' || c == '\U{B}' || c == '\U{C}' || c == ' ' || c == '\U{A0}'
    || c == '\U{FEFF}' || c == '\n' || c == '\r' || c == '\U{2028}' || c == '\U{2029}'
    || c == '\U{1680}' || ('\U{2000}' <= c <= '\U{200A}') || c == '\U{202F}'
    || c == '\U{205F}' || c == '\U{3000}'
  }

  /** `s` without its leading white space. */
  function TrimStart(s: string): (r: string)
    ensures |r| <= |s| && r == s[|s| - |r|..]
    ensures forall k :: 0 <= k < |s| - |r| ==> IsWhiteSpace(s[k])
    ensures r != [] ==> !IsWhiteSpace(r[0])
  {
    if s != [] && IsWhiteSpace(s[0]) then TrimStart(s[1..]) else s
  }

  /** The value of `c` as a digit in base `radix` (10 or 16), if it is one. */
  function DigitValue(c: char, radix: nat): Option<nat> {
    var d :=
      if '0' <= c <= '9' then c as int - '0' as int
      else if 'a' <= c <= 'z' then c as int - 'a' as int + 10
      else if 'A' <= c <= 'Z' then c as int - 'A' as int + 10
      else 36;
    if d < radix then Some(d) else None
  }

  /** Length of the longest prefix of `s` made of base-`radix` digits. */
  function DigitPrefixLength(s: string, radix: nat): (k: nat)
    ensures k <= |s|
    ensures forall j :: 0 <= j < k ==> DigitValue(s[j], radix).Some?
    ensures k < |s| ==> DigitValue(s[k], radix).None?
  {
    if s != [] && DigitValue(s[0], radix).Some? then 1 + DigitPrefixLength(s[1..], radix) else 0
  }

  /** The value of a string of base-`radix` digits, read left to right. */
  function DigitsValue(s: string, radix: nat): nat
    requires forall j :: 0 <= j < |s| ==> DigitValue(s[j], radix).Some?
  {
    if s == [] then 0
    else
      var high := DigitsValue(s[..|s| - 1], radix);
      ProductOfNats(radix, high);
      radix * high + DigitValue(s[|s| - 1], radix).value
  }

  lemma ProductOfNats(a: nat, b: nat)
    ensures a * b >= 0
  {
  }

  /** The longest base-`radix` digit prefix of `body`, read as a number;
      `None` (`NaN`) when `body` does not start with a digit. */
  function DigitRun(body: string, radix: nat): Option<nat> {
    var k := DigitPrefixLength(body, radix);
    if k == 0 then None else Some(DigitsValue(body[..k], radix))
  }

  /** The unsigned part of `parseInt`: without an explicit radix a `0x` or
      `0X` prefix selects base 16, otherwise the base is 10. */
  function ParseMagnitude(u: string, radixGiven: bool): Option<nat> {
    if !radixGiven && |u| >= 2 && u[0] == '0' && (u[1] == 'x' || u[1] == 'X')
    then DigitRun(u[2..], 16)
    else DigitRun(u, 10)
  }

  /**
   * `parseInt(s)` when `radixGiven` is false and `parseInt(s, 10)` when it
   * is true; `None` stands for `NaN`.  Leading white space is skipped and
   * one sign is read; the longest digit prefix that follows is the number
   * and the rest of the string is ignored.
   */
  function ParseIntWith(s: string, radixGiven: bool): Option<int> {
    var t := TrimStart(s);
    if t != [] && t[0] == '-' then
      match ParseMagnitude(t[1..], radixGiven)
      case Some(m) => Some(-(m as int))
      case None => None
    else if t != [] && t[0] == '+' then
      match ParseMagnitude(t[1..], radixGiven)
      case Some(m) => Some(m as int)
      case None => None
    else
      match ParseMagnitude(t, radixGiven)
      case Some(m) => Some(m as int)
      case None => None
  }

  /** `parseInt(s)`. */
  function ParseInt(s: string): Option<int> {
    ParseIntWith(s, false)
  }

  /** `parseInt(s, 10)`. */
  function ParseInt10(s: string): Option<int> {
    ParseIntWith(s, true)
  }

  /** `s.split(sep)` for a one-character separator: the pieces between
      separators, in order; joining them back gives `s`. */
  function Split(s: string, sep: char): (parts: seq<string>)
    ensures parts != []
    ensures forall i :: 0 <= i < |parts| ==> sep !in parts[i]
    ensures Join(parts, sep) == s
  {
    if s == [] then [""]
    else
      var rest := Split(s[1..], sep);
      assert s == [s[0]] + s[1..];
      if s[0] == sep then
        var parts := [""] + rest;
        assert parts[1..] == rest;
        parts
      else
        var parts := [[s[0]] + rest[0]] + rest[1..];
        assert forall i :: 1 <= i < |parts| ==> parts[i] == rest[i];
        assert |rest| > 1 ==> parts[1..] == rest[1..] && Join(rest, sep) == rest[0] + [sep] + Join(rest[1..], sep);
        parts
  }

  /** `parts.join(sep)`. */
  function Join(parts: seq<string>, sep: char): string {
    if parts == [] then ""
    else if |parts| == 1 then parts[0]
    else parts[0] + [sep] + Join(parts[1..], sep)
  }

  /** A character other than the separator glues onto the first piece. */
  lemma SplitCons(c: char, u: string, sep: char)
    requires c != sep
    ensures Split([c] + u, sep) == [[c] + Split(u, sep)[0]] + Split(u, sep)[1..]
  {
    var s := [c] + u;
    assert s[0] == c && s[1..] == u;
  }

  /** A separator-free prefix glues onto the first piece of the rest. */
  lemma {:induction false} SplitPrefix(p: string, t: string, sep: char)
    requires sep !in p
    ensures Split(p + t, sep) == [p + Split(t, sep)[0]] + Split(t, sep)[1..]
  {
    var st := Split(t, sep);
    if p == [] {
      assert p + t == t;
      assert st != [] && p + st[0] == st[0];
      assert st == [st[0]] + st[1..];
    } else {
      var u := p[1..] + t;
      assert p + t == [p[0]] + u;
      assert p[0] != sep by { assert p[0] in p; }
      var r := Split(u, sep);
      SplitPrefix(p[1..], t, sep);
      assert r[0] == p[1..] + st[0] && r[1..] == st[1..];
      SplitCons(p[0], u, sep);
      assert [p[0]] + r[0] == p + st[0];
    }
  }

  /** Splitting undoes joining pieces that hold no separator. */
  lemma {:induction false} SplitJoin(parts: seq<string>, sep: char)
    requires parts != []
    requires forall i :: 0 <= i < |parts| ==> sep !in parts[i]
    ensures Split(Join(parts, sep), sep) == parts
  {
    if |parts| == 1 {
      SplitPrefix(parts[0], "", sep);
      assert parts[0] + "" == parts[0];
      assert Split("", sep) == [""];
    } else {
      var tail := Join(parts[1..], sep);
      SplitJoin(parts[1..], sep);
      var t := [sep] + tail;
      assert Join(parts, sep) == parts[0] + t;
      SplitPrefix(parts[0], t, sep);
      assert t[0] == sep && t[1..] == tail;
      assert Split(t, sep) == [""] + Split(tail, sep);
      assert Split(t, sep)[0] == "" && Split(t, sep)[1..] == parts[1..];
      assert parts[0] + "" == parts[0];
      assert parts == [parts[0]] + parts[1..];
    }
  }

  lemma {:induction false} DigitsValueIsDecimal(s: string)
    requires AllDigits(s)
    ensures forall j :: 0 <= j < |s| ==> DigitValue(s[j], 10).Some?
    ensures DigitsValue(s, 10) == DecimalValue(s)
  {
    if s != [] {
      DigitsValueIsDecimal(s[..|s| - 1]);
    }
  }

  lemma {:induction false} DigitPrefixOfDigits(s: string, rest: string)
    requires AllDigits(s)
    requires rest == [] || !IsDigit(rest[0])
    ensures DigitPrefixLength(s + rest, 10) == |s|
  {
    if s != [] {
      assert (s + rest)[1..] == s[1..] + rest;
      DigitPrefixOfDigits(s[1..], rest);
    }
  }

  /** The unsigned part reads a leading run of decimal digits `d` and
      ignores whatever follows it, unless (without an explicit radix) `d`
      is `0` followed by an `x`, which would select base 16. */
  lemma MagnitudeReadsDigits(d: string, rest: string, radixGiven: bool)
    requires d != [] && AllDigits(d)
    requires rest == [] || !IsDigit(rest[0])
    requires radixGiven || d != "0" || rest == [] || (rest[0] != 'x' && rest[0] != 'X')
    ensures ParseMagnitude(d + rest, radixGiven) == Some(DecimalValue(d))
  {
    var s := d + rest;
    assert s[0] == d[0];
    assert |d| > 1 ==> s[1] == d[1];
    assert |d| == 1 && rest != [] ==> s[1] == rest[0];
    assert ParseMagnitude(s, radixGiven) == DigitRun(s, 10);
    DigitPrefixOfDigits(d, rest);
    assert s[..|d|] == d;
    DigitsValueIsDecimal(d);
  }

  /** With no white space or sign in front, `parseInt` is its unsigned
      part. */
  lemma ParseIntUnsigned(s: string, radixGiven: bool)
    requires s != [] && !IsWhiteSpace(s[0]) && s[0] != '-' && s[0] != '+'
    ensures ParseMagnitude(s, radixGiven).None? ==> ParseIntWith(s, radixGiven) == None
    ensures ParseMagnitude(s, radixGiven).Some? ==>
              ParseIntWith(s, radixGiven) == Some(ParseMagnitude(s, radixGiven).value as int)
  {
    assert TrimStart(s) == s;
  }

  /** After a minus sign and no white space, `parseInt` is the negated
      unsigned part. */
  lemma ParseIntMinus(s: string, radixGiven: bool)
    requires s != [] && s[0] == '-'
    ensures ParseMagnitude(s[1..], radixGiven).None? ==> ParseIntWith(s, radixGiven) == None
    ensures ParseMagnitude(s[1..], radixGiven).Some? ==>
              ParseIntWith(s, radixGiven) == Some(-(ParseMagnitude(s[1..], radixGiven).value as int))
  {
    assert !IsWhiteSpace(s[0]);
    assert TrimStart(s) == s;
  }

  /** `parseInt` reads a leading run of decimal digits and ignores
      whatever follows it (with the `0x` exception above). */
  lemma ParseIntReadsDigits(d: string, rest: string, radixGiven: bool)
    requires d != [] && AllDigits(d)
    requires rest == [] || !IsDigit(rest[0])
    requires radixGiven || d != "0" || rest == [] || (rest[0] != 'x' && rest[0] != 'X')
    ensures ParseIntWith(d + rest, radixGiven) == Some(DecimalValue(d))
  {
    var s := d + rest;
    assert s[0] == d[0];
    ParseIntUnsigned(s, radixGiven);
    MagnitudeReadsDigits(d, rest, radixGiven);
  }

  /** A minus sign before such a digit run negates what is read. */
  lemma ParseIntReadsNegative(d: string, rest: string, radixGiven: bool)
    requires d != [] && AllDigits(d)
    requires rest == [] || !IsDigit(rest[0])
    requires radixGiven || d != "0" || rest == [] || (rest[0] != 'x' && rest[0] != 'X')
    ensures ParseIntWith("-" + (d + rest), radixGiven) == Some(-(DecimalValue(d) as int))
  {
    var s := "-" + (d + rest);
    assert s[0] == '-' && s[1..] == d + rest;
    ParseIntMinus(s, radixGiven);
    MagnitudeReadsDigits(d, rest, radixGiven);
  }

  /** Text that starts with neither white space, a sign nor a digit is
      `NaN`. */
  lemma ParseIntRejectsNonDigit(s: string, radixGiven: bool)
    requires s != [] && !IsWhiteSpace(s[0]) && !IsDigit(s[0]) && s[0] != '-' && s[0] != '+'
    ensures ParseIntWith(s, radixGiven) == None
  {
    ParseIntUnsigned(s, radixGiven);
    assert DigitPrefixLength(s, 10) == 0;
  }

  /** Both forms of `parseInt` read back the decimal rendering of a
      natural number. */
  lemma ParseIntReadsDecimal(n: nat)
    ensures ParseInt(NatToDecimal(n)) == Some(n)
    ensures ParseInt10(NatToDecimal(n)) == Some(n)
  {
    var s := NatToDecimal(n);
    assert s + "" == s;
    ParseIntReadsDigits(s, "", false);
    ParseIntReadsDigits(s, "", true);
  }
}
