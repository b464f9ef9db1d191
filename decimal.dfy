/**
 * Decimal text of integers: what a JavaScript template literal prints for an
 * integral number (`${n}`), and the digit reader behind `parseInt(s, 10)`.
 */
module Decimal {
  import opened Wrappers

  predicate IsDigit(c: char) {
    '0' <= c <= '9'
  }

  predicate AllDigits(s: string) {
    forall i :: 0 <= i < |s| ==> IsDigit(s[i])
  }

  function DigitChar(d: nat): (c: char)
    requires d < 10
    ensures IsDigit(c)
  {
    (48 + d) as char
  }

  function DigitValue(c: char): (d: nat)
    requires IsDigit(c)
    ensures d < 10
  {
    c as int - 48
  }

  /** Decimal digits of `n`, most significant first, without leading zeros. */
  function NatToString(n: nat): (s: string)
    ensures |s| > 0 && AllDigits(s)
    ensures s[0] == '0' ==> n == 0
    decreases n
  {
    if n < 10 then [DigitChar(n)] else NatToString(n / 10) + [DigitChar(n % 10)]
  }

  /** The value of a string of decimal digits. */
  function DigitsValue(s: string): nat
    requires AllDigits(s)
  {
    if s == [] then 0 else DigitsValue(s[..|s| - 1]) * 10 + DigitValue(s[|s| - 1])
  }

  lemma {:induction false} NatToStringRoundTrip(n: nat)
    ensures DigitsValue(NatToString(n)) == n
    decreases n
  {
    var s := NatToString(n);
    if n >= 10 {
      NatToStringRoundTrip(n / 10);
      assert s[..|s| - 1] == NatToString(n / 10);
    }
  }

  /** `${i}` for an integral JavaScript number (negative numbers get a leading minus). */
  function IntToString(i: int): (s: string)
    ensures |s| > 0
    ensures forall k :: 0 <= k < |s| ==> IsDigit(s[k]) || s[k] == '-'
  {
    if i < 0 then "-" + NatToString(-i) else NatToString(i)
  }

  /** Reads an optional minus sign followed by at least one digit; anything else is rejected. */
  function ParseInt(s: string): (r: Option<int>)
    ensures r.Some? <==> (|s| > 0 && AllDigits(s)) || (|s| > 1 && s[0] == '-' && AllDigits(s[1..]))
    ensures r.Some? && s[0] == '-' ==> r.value <= 0
    ensures r.Some? && s[0] != '-' ==> r.value >= 0
  {
    if |s| > 1 && s[0] == '-' && AllDigits(s[1..]) then
      var v: int := DigitsValue(s[1..]);
      Some(-v)
    else if |s| > 0 && AllDigits(s) then
      Some(DigitsValue(s))
    else None
  }

  lemma IntToStringRoundTrip(i: int)
    ensures ParseInt(IntToString(i)) == Some(i)
  {
    var s := IntToString(i);
    if i < 0 {
      NatToStringRoundTrip(-i);
      assert s[1..] == NatToString(-i);
      assert s[0] == '-';
    } else {
      NatToStringRoundTrip(i);
      assert s[0] != '-';
    }
  }

  /** Different integers print differently. */
  lemma IntToStringInjective(a: int, b: int)
    ensures IntToString(a) == IntToString(b) ==> a == b
  {
    IntToStringRoundTrip(a);
    IntToStringRoundTrip(b);
  }

  /**
   * ECMAScript white space and line terminators: what `parseInt` skips before
   * the number and what `String.prototype.trim` removes.
   */
  predicate IsJsWhiteSpace(c: char) {
    var n := c as int;
    (0x09 <= n <= 0x0D) || n == 0x20 || n == 0xA0 || n == 0x1680 || (0x2000 <= n <= 0x200A) ||
    n == 0x2028 || n == 0x2029 || n == 0x202F || n == 0x205F || n == 0x3000 || n == 0xFEFF
  }

  function SkipSpace(s: string): (r: string)
    ensures |r| <= |s| && r == s[|s| - |r|..]
    ensures r != [] ==> !IsJsWhiteSpace(r[0])
  {
    if s != [] && IsJsWhiteSpace(s[0]) then SkipSpace(s[1..]) else s
  }

  /** The longest prefix of `s` made of digits. */
  function DigitPrefix(s: string): (r: string)
    ensures AllDigits(r) && r <= s
    ensures |r| < |s| ==> !IsDigit(s[|r|])
  {
    if s != [] && IsDigit(s[0]) then [s[0]] + DigitPrefix(s[1..]) else []
  }

  /**
   * `parseInt(s, 10)`: leading white space is skipped, then an optional sign
   * and the longest run of digits are read; `None` stands for NaN (no digit).
   */
  function JsParseInt(s: string): (r: Option<int>)
    ensures (forall k :: 0 <= k < |s| ==> !IsDigit(s[k])) ==> r == None
    ensures s != [] && !IsJsWhiteSpace(s[0]) && !IsDigit(s[0]) && s[0] != '-' && s[0] != '+' ==> r == None
  {
    var t := SkipSpace(s);
    var negative := t != [] && t[0] == '-';
    var body := if t != [] && (t[0] == '-' || t[0] == '+') then t[1..] else t;
    var digits := DigitPrefix(body);
    if digits == [] then None
    else
      assert body[0] == s[|s| - |body|];
      var v: int := DigitsValue(digits);
      Some(if negative then -v else v)
  }

  lemma {:induction false} DigitPrefixOfDigits(s: string)
    requires AllDigits(s)
    ensures DigitPrefix(s) == s
    decreases |s|
  {
    if s != [] {
      DigitPrefixOfDigits(s[1..]);
    }
  }

  lemma SignOrDigitIsNotSpace(c: char)
    requires IsDigit(c) || c == '-'
    ensures !IsJsWhiteSpace(c)
  {
  }

  /** `parseInt` of a run of digits, with or without a leading minus sign. */
  lemma ReadsSignedDigits(s: string, negative: bool, d: string)
    requires d != [] && AllDigits(d)
    requires s == if negative then "-" + d else d
    ensures var v: int := DigitsValue(d); JsParseInt(s) == Some(if negative then -v else v)
  {
    if negative {
      ReadsNegativeDigits(d);
    } else {
      ReadsDigits(d);
    }
  }

  lemma ReadsDigits(d: string)
    requires d != [] && AllDigits(d)
    ensures JsParseInt(d) == Some(DigitsValue(d))
  {
    SignOrDigitIsNotSpace(d[0]);
    assert SkipSpace(d) == d;
    DigitPrefixOfDigits(d);
  }

  lemma ReadsNegativeDigits(d: string)
    requires d != [] && AllDigits(d)
    ensures JsParseInt("-" + d) == Some(0 - DigitsValue(d))
  {
    var s := "-" + d;
    SignOrDigitIsNotSpace(s[0]);
    assert SkipSpace(s) == s;
    assert s[1..] == d;
    DigitPrefixOfDigits(d);
  }

  /** `parseInt` reads back every integer that a template literal prints. */
  lemma JsParseIntRoundTrip(i: int)
    ensures JsParseInt(IntToString(i)) == Some(i)
  {
    var n: nat := if i < 0 then -i else i;
    var d := NatToString(n);
    assert IntToString(i) == if i < 0 then "-" + d else d;
    ReadsSignedDigits(IntToString(i), i < 0, d);
    NatToStringRoundTrip(n);
  }
}
