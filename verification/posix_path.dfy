/** The POSIX flavour of Node's `path.join`, as `MOUNT_ALLOWLIST_PATH` uses
    it: the non-empty arguments are joined with `/` and the result is
    normalized. Normalizing splits the path at `/`, drops empty and `.`
    segments, lets `..` remove the segment before it (at the root of an
    absolute path it is dropped, in a relative path with nothing left to
    remove it is kept), and puts back the leading `/` and a trailing `/`. */
module PosixPath {

  predicate NoSlash(seg: string) {
    forall i :: 0 <= i < |seg| ==> seg[i] != '/'
  }

  /** The pieces between slashes, empty ones included:
      `Split("/a//b")` is `["", "a", "", "b"]`. */
  function Split(s: string): (parts: seq<string>)
    ensures |parts| >= 1
  {
    if s == [] then [[]]
    else if s[0] == '/' then [[]] + Split(s[1..])
    else
      var rest := Split(s[1..]);
      [[s[0]] + rest[0]] + rest[1..]
  }

  /** The segments with a `/` between each two. */
  function JoinWith(parts: seq<string>): string {
    if |parts| == 0 then []
    else if |parts| == 1 then parts[0]
    else parts[0] + "/" + JoinWith(parts[1..])
  }

  /** Splitting undoes joining. */
  lemma {:induction false} JoinSplit(s: string)
    ensures JoinWith(Split(s)) == s
    decreases |s|
  {
    if s != [] {
      JoinSplit(s[1..]);
      var rest := Split(s[1..]);
      if s[0] == '/' {
        assert s == "/" + s[1..];
      } else if |rest| == 1 {
        assert s == [s[0]] + s[1..];
      } else {
        assert JoinWith(rest) == rest[0] + "/" + JoinWith(rest[1..]);
        assert s == [s[0]] + s[1..];
      }
    }
  }

  /** No piece of a split contains a slash. */
  lemma {:induction false} SplitNoSlash(s: string)
    ensures forall k :: 0 <= k < |Split(s)| ==> NoSlash(Split(s)[k])
    decreases |s|
  {
    if s != [] {
      SplitNoSlash(s[1..]);
      var rest := Split(s[1..]);
      if s[0] != '/' {
        assert NoSlash([s[0]] + rest[0]);
      }
    }
  }

  lemma SplitSlash(q: string)
    ensures Split("/" + q) == [[]] + Split(q)
  {
    assert ("/" + q)[0] == '/' && ("/" + q)[1..] == q;
  }

  lemma SplitChar(c: char, q: string)
    requires c != '/'
    ensures Split([c] + q) == [[c] + Split(q)[0]] + Split(q)[1..]
  {
    assert ([c] + q)[0] == c && ([c] + q)[1..] == q;
  }

  /** Splitting at a `/` splits the pieces on both sides. */
  lemma {:induction false} SplitAppend(a: string, b: string)
    ensures Split(a + "/" + b) == Split(a) + Split(b)
    decreases |a|
  {
    if a == [] {
      assert a + "/" + b == "/" + b;
      SplitSlash(b);
    } else {
      var c := a[0];
      var a' := a[1..];
      var q := a' + "/" + b;
      assert a + "/" + b == [c] + q;
      assert a == [c] + a';
      SplitAppend(a', b);
      if c == '/' {
        SplitSlash(q);
        SplitSlash(a');
      } else {
        SplitCharAppend(c, Split(q), Split(a'), Split(b));
        SplitChar(c, q);
        SplitChar(c, a');
      }
    }
  }

  lemma SplitCharAppend(c: char, sq: seq<string>, sa: seq<string>, sb: seq<string>)
    requires sa != [] && sq == sa + sb
    ensures [[c] + sq[0]] + sq[1..] == ([[c] + sa[0]] + sa[1..]) + sb
  {
    assert sq[0] == sa[0];
    assert sq[1..] == sa[1..] + sb;
  }

  /** A segment without a slash splits to itself. */
  lemma {:induction false} SplitSegment(seg: string)
    requires NoSlash(seg)
    ensures Split(seg) == [seg]
    decreases |seg|
  {
    if seg != [] {
      SplitSegment(seg[1..]);
      assert seg == [seg[0]] + seg[1..];
    }
  }

  /** Joining undoes splitting, for slash-free segments. */
  lemma {:induction false} SplitJoin(parts: seq<string>)
    requires |parts| >= 1
    requires forall k :: 0 <= k < |parts| ==> NoSlash(parts[k])
    ensures Split(JoinWith(parts)) == parts
    decreases |parts|
  {
    SplitSegment(parts[0]);
    if |parts| > 1 {
      SplitJoin(parts[1..]);
      SplitAppend(parts[0], JoinWith(parts[1..]));
      assert parts == [parts[0]] + parts[1..];
    }
  }

  /** A segment that names a directory entry: not empty, `.` or `..`. */
  predicate IsName(seg: string) {
    seg != [] && seg != "." && seg != ".." && NoSlash(seg)
  }

  predicate AllNames(segs: seq<string>) {
    forall k :: 0 <= k < |segs| ==> IsName(segs[k])
  }

  /** Applies the segments to a stack of resolved segments, the way
      Node's `normalizeString` does. */
  function Resolve(stack: seq<string>, segs: seq<string>, allowAboveRoot: bool): seq<string>
    decreases |segs|
  {
    if segs == [] then stack
    else
      var seg := segs[0];
      if seg == [] || seg == "." then Resolve(stack, segs[1..], allowAboveRoot)
      else if seg == ".." then
        if stack != [] && stack[|stack| - 1] != ".." then
          Resolve(stack[..|stack| - 1], segs[1..], allowAboveRoot)
        else if allowAboveRoot then Resolve(stack + [".."], segs[1..], allowAboveRoot)
        else Resolve(stack, segs[1..], allowAboveRoot)
      else Resolve(stack + [seg], segs[1..], allowAboveRoot)
  }

  /** A resolved stack holds only names, and `..` only where going above
      the start is allowed. */
  predicate Resolved(stack: seq<string>, allowAboveRoot: bool) {
    forall k :: 0 <= k < |stack| ==> IsName(stack[k]) || (allowAboveRoot && stack[k] == "..")
  }

  /** Resolution never produces an empty, `.` or stray `..` segment. */
  lemma {:induction false} ResolveResolved(stack: seq<string>, segs: seq<string>, allowAboveRoot: bool)
    requires Resolved(stack, allowAboveRoot)
    requires forall k :: 0 <= k < |segs| ==> NoSlash(segs[k])
    ensures Resolved(Resolve(stack, segs, allowAboveRoot), allowAboveRoot)
    decreases |segs|
  {
    if segs != [] {
      var seg := segs[0];
      var next := segs[1..];
      assert NoSlash(segs[0]);
      assert forall k :: 0 <= k < |next| ==> NoSlash(next[k]) by {
        forall k | 0 <= k < |next| ensures NoSlash(next[k]) { assert next[k] == segs[k + 1]; }
      }
      if seg == [] || seg == "." {
        ResolveResolved(stack, next, allowAboveRoot);
      } else if seg == ".." {
        if stack != [] && stack[|stack| - 1] != ".." {
          ResolveResolved(stack[..|stack| - 1], next, allowAboveRoot);
        } else if allowAboveRoot {
          ResolveResolved(stack + [".."], next, allowAboveRoot);
        } else {
          ResolveResolved(stack, next, allowAboveRoot);
        }
      } else {
        assert NoSlash(segs[0]);
        ResolveResolved(stack + [seg], next, allowAboveRoot);
      }
    }
  }

  /** Resolving two runs of segments is resolving the first, then the
      second on top of the result. */
  lemma {:induction false} ResolveAppend(stack: seq<string>, a: seq<string>, b: seq<string>, allowAboveRoot: bool)
    ensures Resolve(stack, a + b, allowAboveRoot)
         == Resolve(Resolve(stack, a, allowAboveRoot), b, allowAboveRoot)
    decreases |a|
  {
    if a == [] {
      assert a + b == b;
    } else {
      assert (a + b)[0] == a[0];
      assert (a + b)[1..] == a[1..] + b;
      var seg := a[0];
      if seg == [] || seg == "." {
        ResolveAppend(stack, a[1..], b, allowAboveRoot);
      } else if seg == ".." {
        if stack != [] && stack[|stack| - 1] != ".." {
          ResolveAppend(stack[..|stack| - 1], a[1..], b, allowAboveRoot);
        } else if allowAboveRoot {
          ResolveAppend(stack + [".."], a[1..], b, allowAboveRoot);
        } else {
          ResolveAppend(stack, a[1..], b, allowAboveRoot);
        }
      } else {
        ResolveAppend(stack + [seg], a[1..], b, allowAboveRoot);
      }
    }
  }

  /** Plain names are pushed unchanged. */
  lemma {:induction false} ResolveNames(stack: seq<string>, names: seq<string>, allowAboveRoot: bool)
    requires AllNames(names)
    ensures Resolve(stack, names, allowAboveRoot) == stack + names
    decreases |names|
  {
    if names == [] {
      assert stack + names == stack;
    } else {
      assert IsName(names[0]);
      assert AllNames(names[1..]) by {
        forall k | 0 <= k < |names[1..]| ensures IsName(names[1..][k]) { assert names[1..][k] == names[k + 1]; }
      }
      ResolveNames(stack + [names[0]], names[1..], allowAboveRoot);
      assert stack + [names[0]] + names[1..] == stack + names;
    }
  }

  /** `path.posix.normalize`. */
  function Normalize(p: string): string {
    if p == [] then "."
    else
      var isAbsolute := p[0] == '/';
      var trailingSeparator := p[|p| - 1] == '/';
      var body := JoinWith(Resolve([], Split(p), !isAbsolute));
      if body == [] then
        if isAbsolute then "/" else if trailingSeparator then "./" else "."
      else
        (if isAbsolute then "/" else "") + body + (if trailingSeparator then "/" else "")
  }

  function NonEmpty(parts: seq<string>): (r: seq<string>)
    ensures forall k :: 0 <= k < |r| ==> r[k] != []
  {
    if parts == [] then []
    else if parts[0] == [] then NonEmpty(parts[1..])
    else [parts[0]] + NonEmpty(parts[1..])
  }

  /** `path.posix.join`: an all-empty argument list gives `.`. */
  function Join(parts: seq<string>): string {
    var joined := JoinWith(NonEmpty(parts));
    if joined == [] then "." else Normalize(joined)
  }

  /** Where names joined after `base` end up: the normalized `base` as a
      directory, that is `/` for an absolute base that resolves to the
      root, nothing for a relative base that resolves to nothing, and the
      resolved segments followed by `/` otherwise. */
  function DirPrefix(base: string): (d: string)
    requires base != []
    ensures d == [] || d[|d| - 1] == '/'
    ensures d != [] && d[0] == '/' <==> base[0] == '/'
  {
    var isAbsolute := base[0] == '/';
    var stack := Resolve([], Split(base), !isAbsolute);
    var lead: string := if isAbsolute then "/" else [];
    if stack == [] then lead
    else
      SplitNoSlash(base);
      ResolveResolved([], Split(base), !isAbsolute);
      assert stack[0] != [];
      JoinWithNonEmpty(stack);
      lead + JoinWith(stack) + "/"
  }

  /** Joined segments start with the first one. */
  lemma JoinWithNonEmpty(parts: seq<string>)
    requires parts != [] && parts[0] != []
    ensures JoinWith(parts) != [] && JoinWith(parts)[0] == parts[0][0]
  {
  }

  /** Joined names end with the last name. */
  lemma {:induction false} JoinWithLast(parts: seq<string>)
    requires parts != [] && parts[|parts| - 1] != []
    ensures JoinWith(parts) != []
    ensures JoinWith(parts)[|JoinWith(parts)| - 1] == parts[|parts| - 1][|parts[|parts| - 1]| - 1]
    decreases |parts|
  {
    if |parts| > 1 {
      JoinWithLast(parts[1..]);
    }
  }

  /** Joining two non-empty runs puts one `/` between them. */
  lemma {:induction false} JoinWithAppend(a: seq<string>, b: seq<string>)
    requires a != [] && b != []
    ensures JoinWith(a + b) == JoinWith(a) + "/" + JoinWith(b)
    decreases |a|
  {
    if |a| == 1 {
      assert (a + b)[1..] == b;
    } else {
      JoinWithAppend(a[1..], b);
      assert (a + b)[1..] == a[1..] + b;
    }
  }

  /** Normalizing `base/n1/.../nk` for plain names keeps the names at the
      end and puts the normalized base in front of them. */
  lemma NormalizeAppendNames(base: string, names: seq<string>)
    requires base != []
    requires names != [] && AllNames(names)
    ensures Normalize(base + "/" + JoinWith(names)) == DirPrefix(base) + JoinWith(names)
  {
    var p := base + "/" + JoinWith(names);
    var isAbsolute := base[0] == '/';
    var stack := Resolve([], Split(base), !isAbsolute);
    var lead: string := if isAbsolute then "/" else [];
    var tail := JoinWith(names);
    var dir: string := if stack == [] then [] else JoinWith(stack) + "/";
    assert Normalize(p) == lead + (dir + tail) by {
      JoinWithNonEmptyNames(names);
      NoTrailingSlash(base, names);
      ResolveBaseNames(base, names, !isAbsolute);
      JoinStackNames(stack, names);
      assert p[0] == base[0];
      NormalizeWithoutTrailingSlash(p, stack + names);
    }
    assert DirPrefix(base) == lead + dir by {
      DirPrefixStack(base, stack);
    }
    ConcatAssoc(lead, dir, tail);
  }

  lemma ConcatAssoc(a: string, b: string, c: string)
    ensures a + (b + c) == (a + b) + c
  {
  }

  /** The directory prefix, spelled out from the base's resolved stack. */
  lemma DirPrefixStack(base: string, stack: seq<string>)
    requires base != []
    requires stack == Resolve([], Split(base), base[0] != '/')
    ensures DirPrefix(base)
         == (if base[0] == '/' then "/" else [])
          + (if stack == [] then [] else JoinWith(stack) + "/")
  {
  }

  /** `Normalize` of a path without a trailing slash whose segments resolve
      to something. */
  lemma NormalizeWithoutTrailingSlash(p: string, stack: seq<string>)
    requires p != [] && p[|p| - 1] != '/'
    requires stack == Resolve([], Split(p), p[0] != '/')
    requires JoinWith(stack) != []
    ensures Normalize(p) == (if p[0] == '/' then "/" else []) + JoinWith(stack)
  {
  }

  /** The joined path does not end in a slash. */
  lemma NoTrailingSlash(base: string, names: seq<string>)
    requires names != [] && AllNames(names)
    ensures var p := base + "/" + JoinWith(names); p[|p| - 1] != '/'
  {
    var tail := JoinWith(names);
    var last := names[|names| - 1];
    assert IsName(last);
    JoinWithLast(names);
    assert tail[|tail| - 1] == last[|last| - 1];
    var p := base + "/" + tail;
    assert p[|p| - 1] == tail[|tail| - 1];
  }

  /** The joined path resolves to the base's stack with the names on top. */
  lemma ResolveBaseNames(base: string, names: seq<string>, allowAboveRoot: bool)
    requires names != [] && AllNames(names)
    ensures Resolve([], Split(base + "/" + JoinWith(names)), allowAboveRoot)
         == Resolve([], Split(base), allowAboveRoot) + names
  {
    assert forall k :: 0 <= k < |names| ==> NoSlash(names[k]) by {
      forall k | 0 <= k < |names| ensures NoSlash(names[k]) { assert IsName(names[k]); }
    }
    SplitAppend(base, JoinWith(names));
    SplitJoin(names);
    ResolveAppend([], Split(base), names, allowAboveRoot);
    ResolveNames(Resolve([], Split(base), allowAboveRoot), names, allowAboveRoot);
  }

  /** The stack and the names, joined. */
  lemma JoinStackNames(stack: seq<string>, names: seq<string>)
    requires names != []
    ensures JoinWith(stack + names)
         == (if stack == [] then JoinWith(names) else JoinWith(stack) + "/" + JoinWith(names))
  {
    if stack == [] {
      assert stack + names == names;
    } else {
      JoinWithAppend(stack, names);
    }
  }

  lemma JoinWithNonEmptyNames(names: seq<string>)
    requires names != [] && AllNames(names)
    ensures JoinWith(names) != []
  {
    assert IsName(names[0]);
    JoinWithNonEmpty(names);
  }

  /** An absolute path with no empty, `.` or `..` segment and no trailing
      slash: `/Users/user`, `/home/andy`. */
  predicate IsCleanAbsolute(p: string) {
    |p| >= 2 && p[0] == '/' && AllNames(Split(p[1..]))
  }

  /** A root followed by plain, slash-free names is a clean absolute path. */
  lemma CleanAbsoluteOfNames(names: seq<string>)
    requires |names| >= 1 && AllNames(names)
    requires forall k :: 0 <= k < |names| ==> NoSlash(names[k])
    ensures IsCleanAbsolute("/" + JoinWith(names))
  {
    var p := "/" + JoinWith(names);
    JoinWithNonEmpty(names);
    assert p[1..] == JoinWith(names);
    SplitJoin(names);
  }

  /** Such a path is its own directory prefix, less the final slash. */
  lemma DirPrefixClean(p: string)
    requires IsCleanAbsolute(p)
    ensures DirPrefix(p) == p + "/"
  {
    var names := Split(p[1..]);
    assert p == "/" + p[1..];
    assert Split(p) == [[]] + names;
    ResolveAppend([], [[]], names, false);
    assert Resolve([], [[]], false) == [];
    ResolveNames([], names, false);
    assert [] + names == names;
    JoinSplit(p[1..]);
    assert names[0] != [];
  }
}
