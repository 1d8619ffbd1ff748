/** `TRIGGER_PATTERN`: the regular expression `^@<escaped name>\b` with the
    `i` flag, and the message test it performs. The pattern is built as a
    string exactly as the configuration builds it, read by a tokenizer for
    the few constructs it can contain (the `^` anchor, literal characters,
    identity escapes and `\b`) and run against a message the way
    `RegExp.prototype.test` runs a pattern without alternatives or
    quantifiers. `TriggerIsDirect` proves that this is the plain string
    predicate `DirectTrigger`. */
module Trigger {
  import opened Options
  import opened RegexEscape

  /** Case folding of the `i` flag, restricted to ASCII letters. */
  function AsciiUpper(c: char): char {
    if 'a' <= c <= 'z' then (c as int - 'a' as int + 'A' as int) as char else c
  }

  predicate SameIgnoringCase(a: char, b: char) {
    AsciiUpper(a) == AsciiUpper(b)
  }

  predicate EqualIgnoringCase(a: string, b: string) {
    |a| == |b| && forall i :: 0 <= i < |a| ==> SameIgnoringCase(a[i], b[i])
  }

  /** The word characters of `\b` without the `u` flag: `[A-Za-z0-9_]`. */
  predicate IsWordChar(c: char) {
    ('a' <= c <= 'z') || ('A' <= c <= 'Z') || ('0' <= c <= '9') || c == '_'
  }

  /** Positions outside the message count as non-word characters. */
  predicate IsWordAt(s: string, k: int) {
    0 <= k < |s| && IsWordChar(s[k])
  }

  /** `\b` at position `i`: exactly one side of `i` is a word character. */
  predicate AtWordBoundary(s: string, i: int) {
    IsWordAt(s, i - 1) != IsWordAt(s, i)
  }

  /** The trigger as a plain predicate: `@`, then the assistant name in any
      ASCII case, then a word boundary, with nothing in front of the `@`. */
  predicate DirectTrigger(name: string, msg: string) {
    && |msg| >= 1 + |name|
    && msg[0] == '@'
    && EqualIgnoringCase(msg[1..1 + |name|], name)
    && AtWordBoundary(msg, 1 + |name|)
  }

  /** The source text of `TRIGGER_PATTERN`: the anchor and the `@`, the
      name with one backslash added per syntax character, and `\b`. */
  function TriggerPattern(name: string): (p: string)
    ensures |p| == |name| + RegexEscape.CountMeta(name) + 4
    ensures p[0] == '^' && p[1] == '@'
    ensures p[|p| - 2] == '\\' && p[|p| - 1] == 'b'
  {
    "^@" + Escape(name) + BoundaryText
  }

  /** The pattern text of `\b`. */
  const BoundaryText: string := "\\b"

  datatype Token = AtStart | Lit(c: char) | WordBoundary

  /** Tokens read so far in front of the reading of the rest, which may
      have failed. */
  function Prepend(front: seq<Token>, rest: Option<seq<Token>>): Option<seq<Token>> {
    match rest
    case None => None
    case Some(ts) => Some(front + ts)
  }

  /** Reads the pattern constructs `TriggerPattern` can produce; anything
      else is outside this model and gives `None`. */
  function Tokenize(p: string): Option<seq<Token>> {
    if p == [] then Some([])
    else if p[0] == '\\' then
      if |p| < 2 then None
      else if IsMeta(p[1]) then Prepend([Lit(p[1])], Tokenize(p[2..]))
      else if p[1] == 'b' then Prepend([WordBoundary], Tokenize(p[2..]))
      else None
    else if p[0] == '^' then Prepend([AtStart], Tokenize(p[1..]))
    else if IsMeta(p[0]) then None
    else Prepend([Lit(p[0])], Tokenize(p[1..]))
  }

  /** Whether the tokens match the message starting at position `i`. */
  predicate MatchFrom(toks: seq<Token>, s: string, i: nat)
    requires i <= |s|
    decreases |toks|
  {
    if toks == [] then true
    else match toks[0]
      case AtStart => i == 0 && MatchFrom(toks[1..], s, i)
      case Lit(c) => i < |s| && SameIgnoringCase(s[i], c) && MatchFrom(toks[1..], s, i + 1)
      case WordBoundary => AtWordBoundary(s, i) && MatchFrom(toks[1..], s, i)
  }

  /** `RegExp.prototype.test` without the `g` and `y` flags: a match may
      start at any position. */
  predicate Test(toks: seq<Token>, s: string) {
    exists i: nat :: i <= |s| && MatchFrom(toks, s, i)
  }

  /** `TRIGGER_PATTERN.test(msg)`. */
  predicate Triggers(name: string, msg: string) {
    match Tokenize(TriggerPattern(name))
    case None => false
    case Some(toks) => Test(toks, msg)
  }

  /** The tokens of a literal name. */
  function Lits(name: string): (ts: seq<Token>)
    ensures |ts| == |name|
    ensures forall k :: 0 <= k < |name| ==> ts[k] == Lit(name[k])
  {
    if name == [] then [] else [Lit(name[0])] + Lits(name[1..])
  }

  lemma TokenizeEscapedChar(c: char, q: string)
    requires IsMeta(c)
    ensures Tokenize(['\\', c] + q) == Prepend([Lit(c)], Tokenize(q))
  {
    var p := ['\\', c] + q;
    assert p[0] == '\\' && p[1] == c && p[2..] == q;
  }

  lemma TokenizePlainChar(c: char, q: string)
    requires !IsMeta(c)
    ensures Tokenize([c] + q) == Prepend([Lit(c)], Tokenize(q))
  {
    var p := [c] + q;
    assert p[0] == c && p[1..] == q;
  }

  /** An escaped name reads back as the name's characters, one literal
      token each. */
  lemma {:induction false} TokenizeEscape(name: string, rest: string)
    ensures Tokenize(Escape(name) + rest) == Prepend(Lits(name), Tokenize(rest))
    decreases |name|
  {
    if name == [] {
      assert Escape(name) + rest == rest;
      match Tokenize(rest)
      case None =>
      case Some(ts) => assert Lits(name) + ts == ts;
    } else {
      TokenizeEscape(name[1..], rest);
      var c := name[0];
      var q := Escape(name[1..]) + rest;
      assert Escape(name) + rest == EscapeChar(c) + q;
      if IsMeta(c) {
        TokenizeEscapedChar(c, q);
      } else {
        TokenizePlainChar(c, q);
      }
      match Tokenize(rest)
      case None =>
      case Some(ts) =>
        assert [Lit(c)] + (Lits(name[1..]) + ts) == Lits(name) + ts;
    }
  }

  /** The pattern built from any name tokenizes to: start anchor, `@`, the
      name's characters, word boundary. */
  lemma TokenizeTriggerPattern(name: string)
    ensures Tokenize(TriggerPattern(name))
         == Some([AtStart, Lit('@')] + Lits(name) + [WordBoundary])
  {
    var q := Escape(name) + BoundaryText;
    TokenizeBoundary();
    TokenizeEscape(name, BoundaryText);
    TokenizePlainChar('@', q);
    TokenizeCaret(['@'] + q);
    TriggerPatternShape(name);
    TriggerTokensShape(Lits(name));
  }

  lemma TriggerPatternShape(name: string)
    ensures TriggerPattern(name) == ['^'] + (['@'] + (Escape(name) + BoundaryText))
  {
  }

  lemma TriggerTokensShape(lits: seq<Token>)
    ensures [AtStart] + ([Lit('@')] + (lits + [WordBoundary]))
         == [AtStart, Lit('@')] + lits + [WordBoundary]
  {
  }

  lemma TokenizeBoundary()
    ensures Tokenize(BoundaryText) == Some([WordBoundary])
  {
    var p := BoundaryText;
    assert p[0] == '\\' && p[1] == 'b' && !IsMeta('b') && p[2..] == [];
    assert Tokenize(p[2..]) == Some([]);
    assert [WordBoundary] + [] == [WordBoundary];
  }

  lemma TokenizeCaret(q: string)
    ensures Tokenize(['^'] + q) == Prepend([AtStart], Tokenize(q))
  {
    var p := ['^'] + q;
    assert p[0] == '^' && p[1..] == q;
  }

  /** Matching a run of literal tokens compares that many characters,
      ignoring ASCII case. */
  lemma {:induction false} MatchLits(name: string, rest: seq<Token>, s: string, i: nat)
    requires i <= |s|
    ensures MatchFrom(Lits(name) + rest, s, i)
        <==> (&& i + |name| <= |s|
              && EqualIgnoringCase(s[i..i + |name|], name)
              && MatchFrom(rest, s, i + |name|))
    decreases |name|
  {
    if name == [] {
      assert Lits(name) + rest == rest;
    } else {
      var toks := Lits(name) + rest;
      assert toks[0] == Lit(name[0]);
      assert toks[1..] == Lits(name[1..]) + rest;
      if i < |s| && SameIgnoringCase(s[i], name[0]) {
        MatchLits(name[1..], rest, s, i + 1);
        if i + |name| <= |s| {
          var w := s[i..i + |name|];
          assert w[0] == s[i];
          assert w[1..] == s[i + 1..i + 1 + |name[1..]|];
          assert EqualIgnoringCase(w, name)
             <==> EqualIgnoringCase(w[1..], name[1..]);
        }
      } else if i + |name| <= |s| {
        assert s[i..i + |name|][0] == s[i];
      }
    }
  }

  /** A pattern that starts with `^` can only match at position 0. */
  lemma AnchoredTest(toks: seq<Token>, s: string)
    requires toks != [] && toks[0] == AtStart
    ensures Test(toks, s) <==> MatchFrom(toks, s, 0)
  {
    if Test(toks, s) {
      var i: nat :| i <= |s| && MatchFrom(toks, s, i);
      assert i == 0;
    }
  }

  /** The trigger's tokens match from the start exactly when the plain
      predicate holds. */
  lemma MatchTriggerTokens(name: string, msg: string)
    ensures MatchFrom([AtStart, Lit('@')] + Lits(name) + [WordBoundary], msg, 0)
        <==> DirectTrigger(name, msg)
  {
    var toks := [AtStart, Lit('@')] + Lits(name) + [WordBoundary];
    var afterAt := Lits(name) + [WordBoundary];
    assert toks[0] == AtStart;
    assert toks[1..][0] == Lit('@');
    assert toks[1..][1..] == afterAt;
    assert [WordBoundary][1..] == [];
    assert MatchFrom(toks, msg, 0)
       <==> |msg| >= 1 && msg[0] == '@' && MatchFrom(afterAt, msg, 1);
    if |msg| >= 1 {
      MatchLits(name, [WordBoundary], msg, 1);
    }
  }

  /** The message test of `TRIGGER_PATTERN` is exactly the plain predicate. */
  lemma TriggerIsDirect(name: string, msg: string)
    ensures Triggers(name, msg) <==> DirectTrigger(name, msg)
  {
    TokenizeTriggerPattern(name);
    var toks := [AtStart, Lit('@')] + Lits(name) + [WordBoundary];
    AnchoredTest(toks, msg);
    MatchTriggerTokens(name, msg);
  }

  /** Folding ASCII case never changes whether a character is a word
      character. */
  lemma SameIgnoringCaseWord(a: char, b: char)
    requires SameIgnoringCase(a, b)
    ensures IsWordChar(a) == IsWordChar(b)
  {
  }

  /** The trigger is insensitive to the ASCII case of the whole message. */
  lemma TriggerIgnoresCase(name: string, m1: string, m2: string)
    requires EqualIgnoringCase(m1, m2)
    ensures DirectTrigger(name, m1) <==> DirectTrigger(name, m2)
  {
    if |m1| >= 1 + |name| {
      var e := 1 + |name|;
      assert SameIgnoringCase(m1[0], m2[0]);
      if e < |m1| {
        SameIgnoringCaseWord(m1[e], m2[e]);
      }
      SameIgnoringCaseWord(m1[e - 1], m2[e - 1]);
      assert m1[0] == '@' <==> m2[0] == '@';
      assert EqualIgnoringCase(m1[1..e], name) <==> EqualIgnoringCase(m2[1..e], name) by {
        forall k | 0 <= k < |name|
          ensures SameIgnoringCase(m1[1..e][k], name[k]) <==> SameIgnoringCase(m2[1..e][k], name[k])
        {
          assert m1[1..e][k] == m1[k + 1] && m2[1..e][k] == m2[k + 1];
          assert SameIgnoringCase(m1[k + 1], m2[k + 1]);
        }
      }
    }
  }

  /** A message that starts with `@` and the name itself triggers exactly
      when the character after the name lies on the other side of a word
      boundary from the name's last character. For `Andy`, `"@Andy"` and
      `"@andy, hi"` trigger and `"@Andyx"` does not; for a name that ends
      in a non-word character such as `Andy!`, `"@Andy!"` alone does not
      trigger, but `"@Andy!x"` does. */
  lemma MentionTriggers(name: string, rest: string)
    requires name != []
    ensures DirectTrigger(name, "@" + name + rest)
        <==> IsWordChar(name[|name| - 1]) != (rest != [] && IsWordChar(rest[0]))
  {
    var msg := "@" + name + rest;
    var e := 1 + |name|;
    assert msg[1..e] == name;
    assert forall k :: 0 <= k < |name| ==> SameIgnoringCase(name[k], name[k]);
    assert msg[e - 1] == name[|name| - 1];
    if rest != [] {
      assert msg[e] == rest[0];
    }
  }

  /** A message with anything in front of the `@` never triggers. */
  lemma PrefixedMessageDoesNotTrigger(name: string, c: char, msg: string)
    requires c != '@'
    ensures !Triggers(name, [c] + msg)
  {
    TriggerIsDirect(name, [c] + msg);
  }
}
