/** JavaScript's `parseInt(string, 10)` on the strings that reach it from
    the environment: skip leading white space, read an optional sign, then
    the longest run of decimal digits. No digit at all gives `NaN`, modelled
    as `None`. */
module JsParseInt {
  import opened Options

  /** ECMAScript white space and line terminators (StrWhiteSpaceChar): the
      characters `parseInt` strips before it looks for a sign. */
  predicate IsJsWhitespace(c: char) {
    || c == '\t' || c == '\n' || c == '\U{000B}' || c == '\U{000C}' || c == '\r'
    || c == ' ' || c == '\U{00A0}' || c == '\U{1680}'
    || ('\U{2000}' <= c <= '\U{200A}')
    || c == '\U{2028}' || c == '\U{2029}' || c == '\U{202F}' || c == '\U{205F}'
    || c == '\U{3000}' || c == '\U{FEFF}'
  }

  predicate IsDigit(c: char) {
    '0' <= c <= '9'
  }

  predicate AllDigits(s: string) {
    forall i :: 0 <= i < |s| ==> IsDigit(s[i])
  }

  predicate AllWhitespace(s: string) {
    forall i :: 0 <= i < |s| ==> IsJsWhitespace(s[i])
  }

  function DigitValue(c: char): (d: nat)
    requires IsDigit(c)
    ensures d < 10
  {
    (c as int) - ('0' as int)
  }

  function DigitChar(d: nat): (c: char)
    requires d < 10
    ensures IsDigit(c) && DigitValue(c) == d
  {
    ('0' as int + d) as char
  }

  /** The value of a run of decimal digits, most significant first. */
  function DigitsValue(ds: string): nat
    requires AllDigits(ds)
    decreases |ds|
  {
    if ds == [] then 0 else 10 * DigitsValue(ds[..|ds| - 1]) + DigitValue(ds[|ds| - 1])
  }

  /** The input with its leading white space removed. */
  function TrimStart(s: string): string {
    if |s| > 0 && IsJsWhitespace(s[0]) then TrimStart(s[1..]) else s
  }

  /** `TrimStart` removes exactly the leading run of white space: what it
      drops is white space, and what it keeps is a suffix that does not
      start with white space. */
  lemma {:induction false} TrimStartSpec(s: string)
    ensures var t := TrimStart(s);
      && |t| <= |s| && t == s[|s| - |t|..]
      && AllWhitespace(s[..|s| - |t|])
      && (t == [] || !IsJsWhitespace(t[0]))
  {
    if |s| > 0 && IsJsWhitespace(s[0]) {
      TrimStartSpec(s[1..]);
      var t := TrimStart(s);
      assert s[..|s| - |t|] == [s[0]] + s[1..][..|s| - 1 - |t|];
    }
  }

  /** The longest prefix of `s` made only of decimal digits. */
  function LeadingDigits(s: string): (d: string)
    ensures AllDigits(d)
  {
    if |s| > 0 && IsDigit(s[0]) then [s[0]] + LeadingDigits(s[1..]) else []
  }

  /** `LeadingDigits` is the maximal digit prefix: a prefix, all digits, and
      followed by the end of the input or by a non-digit. */
  lemma {:induction false} LeadingDigitsSpec(s: string)
    ensures var d := LeadingDigits(s);
      && d <= s
      && AllDigits(d)
      && (|d| == |s| || !IsDigit(s[|d|]))
  {
    if |s| > 0 && IsDigit(s[0]) {
      LeadingDigitsSpec(s[1..]);
    }
  }

  /** The integer a sign and a digit value denote. */
  function Signed(negative: bool, magnitude: nat): int {
    if negative then -(magnitude as int) else magnitude
  }

  /** `parseInt(s, 10)`; `None` is `NaN`. A negative zero is read as 0. */
  function ParseInt(s: string): Option<int> {
    ParseSigned(TrimStart(s))
  }

  /** What `parseInt` does once the white space is gone: an optional sign,
      then the digits. */
  function ParseSigned(t: string): Option<int> {
    var negative := |t| > 0 && t[0] == '-';
    var body := if |t| > 0 && (t[0] == '-' || t[0] == '+') then t[1..] else t;
    var ds := LeadingDigits(body);
    if ds == [] then None else Some(Signed(negative, DigitsValue(ds)))
  }

  /** The canonical decimal spelling of a natural number (no leading zeros). */
  function NatDigits(n: nat): (ds: string)
    ensures ds != [] && AllDigits(ds)
    decreases n
  {
    if n < 10 then [DigitChar(n)] else NatDigits(n / 10) + [DigitChar(n % 10)]
  }

  /** The canonical decimal spelling of an integer, with a `-` when negative. */
  function Decimal(n: int): string {
    if n < 0 then ['-'] + NatDigits(-n) else NatDigits(n)
  }

  /** Reading back the canonical spelling of `n` gives `n`. */
  lemma {:induction false} NatDigitsValue(n: nat)
    ensures DigitsValue(NatDigits(n)) == n
    decreases n
  {
    if n >= 10 {
      NatDigitsValue(n / 10);
      var ds := NatDigits(n);
      assert ds[..|ds| - 1] == NatDigits(n / 10);
    }
  }

  /** `LeadingDigits` stops exactly at the first non-digit. */
  lemma {:induction false} LeadingDigitsOfDigitsThenStop(ds: string, rest: string)
    requires AllDigits(ds)
    requires rest == [] || !IsDigit(rest[0])
    ensures LeadingDigits(ds + rest) == ds
    decreases |ds|
  {
    if ds == [] {
      assert ds + rest == rest;
    } else {
      assert (ds + rest)[1..] == ds[1..] + rest;
      LeadingDigitsOfDigitsThenStop(ds[1..], rest);
      assert [ds[0]] + ds[1..] == ds;
    }
  }

  /** Leading white space is skipped wholesale. */
  lemma {:induction false} TrimStartSkipsWhitespace(ws: string, s: string)
    requires AllWhitespace(ws)
    ensures TrimStart(ws + s) == TrimStart(s)
    decreases |ws|
  {
    if ws != [] {
      assert (ws + s)[1..] == ws[1..] + s;
      TrimStartSkipsWhitespace(ws[1..], s);
    } else {
      assert ws + s == s;
    }
  }

  /** An optional sign as `parseInt` reads it: nothing, `+` or `-`. */
  predicate IsSign(sign: string) {
    sign == [] || (|sign| == 1 && (sign[0] == '+' || sign[0] == '-'))
  }

  predicate IsMinus(sign: string) {
    sign != [] && sign[0] == '-'
  }

  /** After the white space, a sign and a digit run are read; the rest is
      ignored. */
  lemma ParseSignedDigits(sign: string, ds: string, rest: string)
    requires IsSign(sign)
    requires ds != [] && AllDigits(ds)
    requires rest == [] || !IsDigit(rest[0])
    ensures ParseSigned(sign + ds + rest) == Some(Signed(IsMinus(sign), DigitsValue(ds)))
  {
    LeadingDigitsOfDigitsThenStop(ds, rest);
    var t := sign + ds + rest;
    if sign == [] {
      assert t == ds + rest;
      assert t[0] == ds[0];
    } else {
      assert t == [sign[0]] + ds + rest;
      assert t[0] == sign[0];
      assert t[1..] == ds + rest;
    }
  }

  /** After the white space, a sign with no digit behind it reads as `NaN`. */
  lemma ParseSignedNoDigits(sign: string, rest: string)
    requires IsSign(sign)
    requires rest == [] || !IsDigit(rest[0])
    requires sign == [] && rest != [] ==> rest[0] != '+' && rest[0] != '-'
    ensures ParseSigned(sign + rest) == None
  {
    var t := sign + rest;
    if sign == [] {
      assert t == rest;
    } else {
      assert t == [sign[0]] + rest;
      assert t[0] == sign[0];
      assert t[1..] == rest;
    }
  }

  /** Every input that has digits after its white space and optional sign
      parses to the signed value of the longest digit run; whatever follows
      that run is ignored (`"30s"` is 30, `"1e6"` is 1, `"0x10"` is 0). */
  lemma ParseIntDigits(ws: string, sign: string, ds: string, rest: string)
    requires AllWhitespace(ws)
    requires IsSign(sign)
    requires ds != [] && AllDigits(ds)
    requires rest == [] || !IsDigit(rest[0])
    ensures ParseInt(ws + sign + ds + rest) == Some(Signed(IsMinus(sign), DigitsValue(ds)))
  {
    var t := sign + ds + rest;
    assert ws + sign + ds + rest == ws + t;
    TrimStartSkipsWhitespace(ws, t);
    assert t[0] == (if sign == [] then ds[0] else sign[0]);
    assert TrimStart(t) == t;
    ParseSignedDigits(sign, ds, rest);
  }

  /** Every input with no digit right after its white space and optional
      sign parses to `NaN`: the empty string, `"abc"`, `"-"`, `"+ 5"`,
      `"- 5"`, `".5"`. */
  lemma ParseIntNoDigits(ws: string, sign: string, rest: string)
    requires AllWhitespace(ws)
    requires IsSign(sign)
    requires rest == [] || !IsDigit(rest[0])
    requires sign == [] && rest != [] ==> !IsJsWhitespace(rest[0]) && rest[0] != '+' && rest[0] != '-'
    ensures ParseInt(ws + sign + rest) == None
  {
    var t := sign + rest;
    assert ws + sign + rest == ws + t;
    TrimStartSkipsWhitespace(ws, t);
    if t != [] {
      assert t[0] == (if sign == [] then rest[0] else sign[0]);
    }
    assert TrimStart(t) == t;
    ParseSignedNoDigits(sign, rest);
  }

  /** `parseInt` reads back what `Decimal` writes, even with a suffix that
      does not start with a digit. */
  lemma ParseIntDecimal(n: int, rest: string)
    requires rest == [] || !IsDigit(rest[0])
    ensures ParseInt(Decimal(n) + rest) == Some(n)
  {
    if n < 0 {
      ParseIntNegative(-n, rest);
    } else {
      ParseIntNatural(n, rest);
    }
  }

  lemma ParseIntNatural(m: nat, rest: string)
    requires rest == [] || !IsDigit(rest[0])
    ensures ParseInt(NatDigits(m) + rest) == Some(m)
  {
    NatDigitsValue(m);
    ParseIntUnsigned(NatDigits(m), rest);
  }

  lemma ParseIntUnsigned(ds: string, rest: string)
    requires ds != [] && AllDigits(ds)
    requires rest == [] || !IsDigit(rest[0])
    ensures ParseInt(ds + rest) == Some(DigitsValue(ds))
  {
    LeadingDigitsOfDigitsThenStop(ds, rest);
    var t := ds + rest;
    assert t[0] == ds[0];
    assert TrimStart(t) == t;
  }

  lemma ParseIntNegative(m: nat, rest: string)
    requires m > 0
    requires rest == [] || !IsDigit(rest[0])
    ensures ParseInt(['-'] + NatDigits(m) + rest) == Some(-(m as int))
  {
    var ds := NatDigits(m);
    NatDigitsValue(m);
    LeadingDigitsOfDigitsThenStop(ds, rest);
    var t := ['-'] + ds + rest;
    assert t[0] == '-';
    assert t[1..] == ds + rest;
    assert TrimStart(t) == t;
  }
}
