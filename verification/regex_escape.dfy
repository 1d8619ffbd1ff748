/** `escapeRegex`: `str.replace(/[.*+?^${}()|[\]\\]/g, '\\$&')`, which puts
    a backslash in front of every regular-expression syntax character so
    that the result, used as a pattern, matches the input literally. */
module RegexEscape {

  /** The fourteen characters the replacement's character class names. */
  predicate IsMeta(c: char) {
    || c == '.' || c == '*' || c == '+' || c == '?' || c == '^' || c == '$'
    || c == '{' || c == '}' || c == '(' || c == ')' || c == '|'
    || c == '[' || c == ']' || c == '\\'
  }

  /** How many characters of `s` get a backslash. */
  function CountMeta(s: string): nat {
    if s == [] then 0 else (if IsMeta(s[0]) then 1 else 0) + CountMeta(s[1..])
  }

  /** One match of the global replace: a syntax character becomes `\` and
      itself, anything else is copied. */
  function EscapeChar(c: char): string {
    if IsMeta(c) then ['\\', c] else [c]
  }

  function Escape(s: string): (p: string)
    ensures |p| == |s| + CountMeta(s)
  {
    if s == [] then [] else EscapeChar(s[0]) + Escape(s[1..])
  }

  /** Drops the backslash in front of each escaped character. */
  function Unescape(p: string): string {
    if p == [] then []
    else if p[0] == '\\' && |p| >= 2 then [p[1]] + Unescape(p[2..])
    else [p[0]] + Unescape(p[1..])
  }

  /** A pattern in which every syntax character is escaped: read left to
      right, it is a run of plain characters and of `\` pairs whose second
      character is a syntax character. */
  predicate WellEscaped(p: string) {
    if p == [] then true
    else if p[0] == '\\' then |p| >= 2 && IsMeta(p[1]) && WellEscaped(p[2..])
    else !IsMeta(p[0]) && WellEscaped(p[1..])
  }

  /** Escaping distributes over concatenation, as a global replace of
      single characters does. */
  lemma {:induction false} EscapeAppend(a: string, b: string)
    ensures Escape(a + b) == Escape(a) + Escape(b)
    decreases |a|
  {
    if a == [] {
      assert a + b == b;
    } else {
      assert (a + b)[1..] == a[1..] + b;
      EscapeAppend(a[1..], b);
    }
  }

  /** Removing the inserted backslashes recovers the original string. */
  lemma {:induction false} UnescapeEscape(s: string)
    ensures Unescape(Escape(s)) == s
    decreases |s|
  {
    if s != [] {
      UnescapeEscape(s[1..]);
      var p := Escape(s);
      if IsMeta(s[0]) {
        assert p[2..] == Escape(s[1..]);
      } else {
        assert p[1..] == Escape(s[1..]);
      }
    }
  }

  /** No syntax character is left unescaped in the output. */
  lemma {:induction false} EscapeWellEscaped(s: string)
    ensures WellEscaped(Escape(s))
    decreases |s|
  {
    if s != [] {
      EscapeWellEscaped(s[1..]);
      var p := Escape(s);
      if IsMeta(s[0]) {
        assert p[2..] == Escape(s[1..]);
      } else {
        assert p[1..] == Escape(s[1..]);
      }
    }
  }

  /** Every well-escaped pattern is the escape of exactly one string: the
      one `Unescape` gives back. With `UnescapeEscape` this makes `Escape` a
      bijection between strings and well-escaped patterns. */
  lemma {:induction false} EscapeUnescape(p: string)
    requires WellEscaped(p)
    ensures Escape(Unescape(p)) == p
    decreases |p|
  {
    if p != [] {
      if p[0] == '\\' {
        EscapeUnescape(p[2..]);
        assert [p[1]] + Unescape(p[2..]) == Unescape(p);
        assert p == ['\\', p[1]] + p[2..];
      } else {
        EscapeUnescape(p[1..]);
        assert p == [p[0]] + p[1..];
      }
    }
  }

  /** Distinct names give distinct patterns. */
  lemma EscapeInjective(a: string, b: string)
    requires Escape(a) == Escape(b)
    ensures a == b
  {
    UnescapeEscape(a);
    UnescapeEscape(b);
  }

  /** A string without syntax characters is its own escape. */
  lemma {:induction false} EscapePlain(s: string)
    requires forall i :: 0 <= i < |s| ==> !IsMeta(s[i])
    ensures Escape(s) == s
    decreases |s|
  {
    if s != [] {
      EscapePlain(s[1..]);
      assert s == [s[0]] + s[1..];
    }
  }

  /** The replace as a left-to-right scan: each syntax character found is
      copied after a backslash, every other character is copied as it is. */
  method EscapeScan(str: string) returns (out: string)
    ensures out == Escape(str)
    ensures |out| == |str| + CountMeta(str)
  {
    out := [];
    var i := 0;
    while i < |str|
      invariant 0 <= i <= |str|
      invariant out == Escape(str[..i])
    {
      EscapeAppend(str[..i], [str[i]]);
      assert str[..i + 1] == str[..i] + [str[i]];
      if IsMeta(str[i]) {
        out := out + ['\\', str[i]];
      } else {
        out := out + [str[i]];
      }
      i := i + 1;
    }
    assert str[..i] == str;
  }
}
