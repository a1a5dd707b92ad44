/**
 * The JavaScript string built-ins the validation rules rely on:
 * `trim`, the `\s` and `\D` regular-expression classes, `toLowerCase`,
 * `length` (in UTF-16 code units) and the decimal rendering of an integer
 * inside a template literal.
 */
module JsString {

  /**
   * The code points ECMAScript counts as WhiteSpace or LineTerminator. Both
   * `String.prototype.trim` and the regular-expression class `\s` use exactly
   * this set.
   */
  predicate IsWhitespace(c: char) {
    || c == '\t' || c == '\n' || c == '\U{B}' || c == '\U{C}' || c == '\r' || c == ' '
    || c == '\U{A0}' || c == '\U{1680}' || ('\U{2000}' <= c <= '\U{200A}')
    || c == '\U{2028}' || c == '\U{2029}' || c == '\U{202F}' || c == '\U{205F}'
    || c == '\U{3000}' || c == '\U{FEFF}'
  }

  /** Every character of `s` is whitespace (vacuously true of ""). */
  predicate IsBlank(s: string) {
    forall i | 0 <= i < |s| :: IsWhitespace(s[i])
  }

  /** Drops the leading whitespace: the result is a suffix of `s` that starts with a non-blank character. */
  function TrimStart(s: string): (r: string)
    ensures |r| <= |s| && r == s[|s| - |r|..]
    ensures IsBlank(s[..|s| - |r|])
    ensures r != [] ==> !IsWhitespace(r[0])
  {
    if s != [] && IsWhitespace(s[0]) then
      var r := TrimStart(s[1..]);
      assert s[..|s| - |r|] == [s[0]] + s[1..][..|s[1..]| - |r|];
      r
    else s
  }

  /** Drops the trailing whitespace: the result is a prefix of `s` that ends with a non-blank character. */
  function TrimEnd(s: string): (r: string)
    ensures |r| <= |s| && r == s[..|r|]
    ensures IsBlank(s[|r|..])
    ensures r != [] ==> !IsWhitespace(r[|r| - 1])
  {
    if s != [] && IsWhitespace(s[|s| - 1]) then
      var r := TrimEnd(s[..|s| - 1]);
      assert s[|r|..] == s[..|s| - 1][|r|..] + [s[|s| - 1]];
      r
    else s
  }

  /** `s.trim()`. */
  function Trim(s: string): string {
    TrimEnd(TrimStart(s))
  }

  /** `s.trim() === ''` exactly when every character of `s` is whitespace. */
  lemma TrimEmptyIffBlank(s: string)
    ensures Trim(s) == "" <==> IsBlank(s)
  {
    var t := TrimStart(s);
    if Trim(s) == "" {
      assert IsBlank(t) by { assert t[0..] == t; }
      assert s == s[..|s| - |t|] + t;
    } else {
      assert t != [] && t[0] == s[|s| - |t|];
    }
  }

  predicate IsAsciiDigit(c: char) {
    '0' <= c <= '9'
  }

  /** `s.replace(/\D/g, '')`: keeps the ASCII digits, in order, and drops everything else. */
  function DigitsOnly(s: string): (r: string)
    ensures |r| <= |s|
    ensures forall i | 0 <= i < |r| :: IsAsciiDigit(r[i])
  {
    if s == [] then []
    else if IsAsciiDigit(s[0]) then [s[0]] + DigitsOnly(s[1..])
    else DigitsOnly(s[1..])
  }

  /** `DigitsOnly` keeps every digit of `s`, as often as it occurs there. */
  lemma {:induction false} DigitsOnlyKeepsEveryDigit(s: string, c: char)
    requires IsAsciiDigit(c)
    ensures multiset(DigitsOnly(s))[c] == multiset(s)[c]
  {
    if s != [] {
      assert s == [s[0]] + s[1..];
      DigitsOnlyKeepsEveryDigit(s[1..], c);
    }
  }

  /** Digits are counted piece by piece. */
  lemma {:induction false} DigitsOnlyAppend(a: string, b: string)
    ensures DigitsOnly(a + b) == DigitsOnly(a) + DigitsOnly(b)
  {
    if a == [] {
      assert a + b == b;
    } else {
      assert (a + b)[1..] == a[1..] + b;
      DigitsOnlyAppend(a[1..], b);
    }
  }

  /**
   * The lower case of one character where that lower case is ASCII: `A`-`Z`
   * and the Kelvin sign (U+212A), whose lower case is `k`. Every other
   * character is left alone; its true lower case contains a non-ASCII
   * character either way.
   */
  function LowerChar(c: char): char {
    if 'A' <= c <= 'Z' then (c as int - 'A' as int + 'a' as int) as char
    else if c == '\U{212A}' then 'k'
    else c
  }

  /** `s.toLowerCase()`, exact wherever the result is compared with an ASCII text. */
  function ToLower(s: string): (r: string)
    ensures |r| == |s|
    ensures forall i | 0 <= i < |s| && !('A' <= s[i] <= 'Z') && s[i] != '\U{212A}' :: r[i] == s[i]
    ensures forall i | 0 <= i < |s| && 'A' <= s[i] <= 'Z' :: r[i] as int == s[i] as int + 32
    ensures forall i | 0 <= i < |s| && s[i] == '\U{212A}' :: r[i] == 'k'
  {
    seq(|s|, i requires 0 <= i < |s| => LowerChar(s[i]))
  }

  /** Text with no capital and no Kelvin sign is its own lower case. */
  lemma ToLowerOfLowerCase(s: string)
    requires forall i | 0 <= i < |s| :: !('A' <= s[i] <= 'Z') && s[i] != '\U{212A}'
    ensures ToLower(s) == s
  {
  }

  /** `s.length`: characters outside the Basic Multilingual Plane take two UTF-16 code units. */
  function Utf16Length(s: string): (n: nat)
    ensures |s| <= n <= 2 * |s|
    ensures (forall i | 0 <= i < |s| :: s[i] as int <= 0xFFFF) ==> n == |s|
    ensures (forall i | 0 <= i < |s| :: s[i] as int > 0xFFFF) ==> n == 2 * |s|
  {
    if s == [] then 0
    else (if s[0] as int > 0xFFFF then 2 else 1) + Utf16Length(s[1..])
  }

  /** The code units of a text are those of its pieces, one character at a time. */
  lemma {:induction false} Utf16LengthAppend(a: string, b: string)
    ensures Utf16Length(a + b) == Utf16Length(a) + Utf16Length(b)
  {
    if a == [] {
      assert a + b == b;
    } else {
      assert (a + b)[1..] == a[1..] + b;
      Utf16LengthAppend(a[1..], b);
    }
  }

  /** One character takes two code units outside the Basic Multilingual Plane and one inside it. */
  lemma Utf16LengthOfChar(c: char)
    ensures Utf16Length([c]) == if c as int > 0xFFFF then 2 else 1
  {
    assert [c][1..] == [];
  }

  function DigitChar(d: nat): (c: char)
    requires d < 10
    ensures IsAsciiDigit(c)
  {
    (d + '0' as int) as char
  }

  /** The number a run of decimal digits denotes, most significant digit first. */
  function DecimalValue(digits: string): nat
    requires forall i | 0 <= i < |digits| :: IsAsciiDigit(digits[i])
  {
    if digits == [] then 0
    else
      var last := digits[|digits| - 1];
      assert IsAsciiDigit(last);
      DecimalValue(digits[..|digits| - 1]) * 10 + (last as int - '0' as int)
  }

  /** The decimal digits of `n`, most significant first, without leading zeros. */
  function NatToDecimal(n: nat): (r: string)
    ensures r != [] && (forall i | 0 <= i < |r| :: IsAsciiDigit(r[i]))
    ensures (r[0] == '0') <==> n == 0
    ensures n == 0 ==> r == "0"
  {
    if n < 10 then [DigitChar(n)] else NatToDecimal(n / 10) + [DigitChar(n % 10)]
  }

  /** The rendered digits read back as `n`. */
  lemma {:induction false} NatToDecimalDenotes(n: nat)
    ensures DecimalValue(NatToDecimal(n)) == n
  {
    var r := NatToDecimal(n);
    if n < 10 {
      assert r[..|r| - 1] == [];
    } else {
      assert r[..|r| - 1] == NatToDecimal(n / 10);
      NatToDecimalDenotes(n / 10);
    }
  }

  /** `${n}` for an integer `n`: its digits, after a minus sign when `n` is negative. */
  function IntToDecimal(n: int): (r: string)
    ensures r != []
    ensures n >= 0 ==> (forall i | 0 <= i < |r| :: IsAsciiDigit(r[i])) && DecimalValue(r) == n
    ensures n < 0 ==> r[0] == '-' && (forall i | 1 <= i < |r| :: IsAsciiDigit(r[i])) && DecimalValue(r[1..]) == -n
    ensures n == 0 ==> r == "0"
    ensures n > 0 ==> r[0] != '0'
    ensures n < 0 ==> |r| >= 2 && r[1] != '0'
  {
    var digits := NatToDecimal(if n < 0 then -n else n);
    NatToDecimalDenotes(if n < 0 then -n else n);
    if n < 0 then
      assert ("-" + digits)[1..] == digits;
      "-" + digits
    else digits
  }
}
