/**
 * The few JavaScript string primitives the modelled code relies on:
 * the `\s` character class, `trim`, `.length` in UTF-16 code units,
 * `startsWith`, `includes`, `join`, a literal global `replace`,
 * ASCII `toLowerCase` and number-to-string conversion.
 */
module JsText {
  import opened Wrappers

  /** JavaScript WhiteSpace and LineTerminator: the set `\s` and `String.prototype.trim` use. */
  predicate IsSpace(c: char) {
    c == '\t' || c == '\n' || c == '\U{000B}' || c == '\U{000C}' || c == '\r' || c == ' '
    || c == '\U{00A0}' || c == '\U{1680}' || ('\U{2000}' <= c <= '\U{200A}')
    || c == '\U{2028}' || c == '\U{2029}' || c == '\U{202F}' || c == '\U{205F}'
    || c == '\U{3000}' || c == '\U{FEFF}'
  }

  /** The characters at which `.` stops and after which `^` matches in multiline mode. */
  predicate IsLineTerminator(c: char) {
    c == '\n' || c == '\r' || c == '\U{2028}' || c == '\U{2029}'
  }

  lemma LineTerminatorIsSpace(c: char)
    ensures IsLineTerminator(c) ==> IsSpace(c)
  {}

  /** `s.trimStart()`: drops the leading run of white space and nothing else. */
  function TrimStart(s: string): (r: string)
    ensures |r| <= |s| && r == s[|s| - |r|..]
    ensures forall i :: 0 <= i < |s| - |r| ==> IsSpace(s[i])
    ensures r != [] ==> !IsSpace(r[0])
  {
    if s != [] && IsSpace(s[0]) then TrimStart(s[1..]) else s
  }

  /** `s.trimEnd()`: drops the trailing run of white space and nothing else. */
  function TrimEnd(s: string): (r: string)
    ensures |r| <= |s| && r == s[..|r|]
    ensures forall i :: |r| <= i < |s| ==> IsSpace(s[i])
    ensures r != [] ==> !IsSpace(r[|r| - 1])
  {
    if s != [] && IsSpace(s[|s| - 1]) then TrimEnd(s[..|s| - 1]) else s
  }

  /** `s.trim()`. */
  function Trim(s: string): (r: string)
    ensures |r| <= |s|
    ensures r == [] <==> forall i :: 0 <= i < |s| ==> IsSpace(s[i])
    ensures r != [] ==> !IsSpace(r[0]) && !IsSpace(r[|r| - 1])
  {
    var t := TrimStart(s);
    var r := TrimEnd(t);
    assert r == [] ==> t == [];
    r
  }

  /** Trimming twice is trimming once. */
  lemma TrimIdempotent(s: string)
    ensures Trim(Trim(s)) == Trim(s)
  {
    var r := Trim(s);
    TrimmedIsFixed(r);
  }

  /** A string with no white space at either end is its own trim. */
  lemma TrimmedIsFixed(s: string)
    requires s != [] ==> !IsSpace(s[0]) && !IsSpace(s[|s| - 1])
    ensures Trim(s) == s
  {}

  /** When the first character is not white space, trimming keeps a prefix that
      reaches at least to the last non-space character. */
  lemma TrimKeepsPrefix(s: string, k: nat)
    requires k < |s| && !IsSpace(s[k]) && !IsSpace(s[0])
    ensures k < |Trim(s)| && Trim(s) == s[..|Trim(s)|]
  {
    assert TrimStart(s) == s;
  }

  /** `.length`: the number of UTF-16 code units (astral characters count twice). */
  function Utf16Length(s: string): (n: nat)
    ensures |s| <= n <= 2 * |s|
  {
    if s == [] then 0 else (if s[0] as int > 0xFFFF then 2 else 1) + Utf16Length(s[1..])
  }

  /** Outside the astral planes, `.length` is the number of characters. */
  lemma {:induction false} Utf16LengthBasic(s: string)
    requires forall i :: 0 <= i < |s| ==> s[i] as int <= 0xFFFF
    ensures Utf16Length(s) == |s|
  {
    if s != [] {
      Utf16LengthBasic(s[1..]);
    }
  }

  /** The length of the first line: how far `.*` reaches from the start. */
  function LineLength(s: string): (n: nat)
    ensures n <= |s|
    ensures forall i :: 0 <= i < n ==> !IsLineTerminator(s[i])
    ensures n < |s| ==> IsLineTerminator(s[n])
    ensures s != [] && !IsLineTerminator(s[0]) ==> n > 0
  {
    if s == [] || IsLineTerminator(s[0]) then 0 else 1 + LineLength(s[1..])
  }

  /** A line other than the first starts at `i` and begins with `#`. */
  predicate CommentLineAt(t: string, i: nat) {
    1 <= i < |t| && t[i] == '#' && IsLineTerminator(t[i - 1])
  }

  /** No line of `t` starts with `#` (the first line only when `lineStart`). */
  predicate NoCommentLine(t: string, lineStart: bool) {
    && (lineStart ==> t == [] || t[0] != '#')
    && forall i: nat :: i < |t| ==> !CommentLineAt(t, i)
  }

  /** A character in front of text without comment lines adds none, unless it
      is itself a `#` at a line start. */
  lemma ConsNoComment(c: char, t: string, lineStart: bool)
    requires NoCommentLine(t, IsLineTerminator(c)) && (lineStart ==> c != '#')
    ensures NoCommentLine([c] + t, lineStart)
  {
    var u := [c] + t;
    forall i: nat | i < |u| ensures !CommentLineAt(u, i) {
      if 1 <= i < |u| && u[i] == '#' {
        assert u[i] == t[i - 1];
        if i > 1 {
          assert u[i - 1] == t[i - 2];
          assert !CommentLineAt(t, i - 1);
        }
      }
    }
  }

  /** The characters of `s` that are line terminators, in order. */
  function LineBreaks(s: string): string {
    if s == [] then [] else (if IsLineTerminator(s[0]) then [s[0]] else []) + LineBreaks(s[1..])
  }

  lemma {:induction false} LineBreaksAppend(a: string, b: string)
    ensures LineBreaks(a + b) == LineBreaks(a) + LineBreaks(b)
    decreases |a|
  {
    if a != [] {
      assert (a + b)[1..] == a[1..] + b;
      LineBreaksAppend(a[1..], b);
    } else {
      assert a + b == b;
    }
  }

  /** A text without line terminators has no line breaks. */
  lemma {:induction false} LineBreaksNone(s: string)
    requires forall i :: 0 <= i < |s| ==> !IsLineTerminator(s[i])
    ensures LineBreaks(s) == []
    decreases |s|
  {
    if s != [] {
      LineBreaksNone(s[1..]);
    }
  }

  predicate StartsWith(s: string, prefix: string) {
    |prefix| <= |s| && s[..|prefix|] == prefix
  }

  /** `sub` occurs in `s` starting at index `i`. */
  predicate OccursAt(s: string, sub: string, i: nat) {
    i + |sub| <= |s| && s[i..i + |sub|] == sub
  }

  /** Past the end of `x`, an occurrence in `x + y` is one in `y`. */
  lemma OccursAtShift(x: string, y: string, sub: string, i: nat)
    requires |x| <= i
    ensures OccursAt(x + y, sub, i) <==> OccursAt(y, sub, i - |x|)
  {
    if i + |sub| <= |x + y| {
      assert (x + y)[i..i + |sub|] == y[i - |x|..i - |x| + |sub|];
    }
  }

  /** `s.includes(sub)`. */
  predicate Includes(s: string, sub: string) {
    exists i: nat :: i <= |s| && OccursAt(s, sub, i)
  }

  lemma IncludesAt(s: string, sub: string, i: nat)
    requires OccursAt(s, sub, i)
    ensures Includes(s, sub)
  {}

  /** A string lacking one of the characters of `sub` does not include `sub`. */
  lemma MissingCharExcludes(s: string, sub: string, c: char)
    requires c in sub && c !in s
    ensures !Includes(s, sub)
  {
    var j :| 0 <= j < |sub| && sub[j] == c;
    forall i: nat | i <= |s| ensures !OccursAt(s, sub, i) {
      if i + |sub| <= |s| { assert s[i..i + |sub|][j] == s[i + j]; }
    }
  }

  /** A decision procedure for `Includes`, usable on concrete strings. */
  function IncludesFrom(s: string, sub: string): (b: bool)
    ensures b <==> Includes(s, sub)
  {
    if |s| < |sub| then false
    else if s[..|sub|] == sub then IncludesAt(s, sub, 0); true
    else
      var b := IncludesFrom(s[1..], sub);
      assert Includes(s[1..], sub) ==> Includes(s, sub) by {
        if Includes(s[1..], sub) {
          var i: nat :| i <= |s[1..]| && OccursAt(s[1..], sub, i);
          assert OccursAt(s, sub, i + 1) by { assert s[i + 1..i + 1 + |sub|] == s[1..][i..i + |sub|]; }
        }
      }
      assert Includes(s, sub) ==> Includes(s[1..], sub) by {
        if Includes(s, sub) {
          var i: nat :| i <= |s| && OccursAt(s, sub, i);
          assert i > 0;
          assert OccursAt(s[1..], sub, i - 1) by { assert s[1..][i - 1..i - 1 + |sub|] == s[i..i + |sub|]; }
        }
      }
      b
  }

  /** `s.indexOf(sub)`: the first position where `sub` occurs, if any. */
  function IndexOf(s: string, sub: string): (k: Option<nat>)
    ensures k.Some? ==> OccursAt(s, sub, k.value) && forall j: nat :: j < k.value ==> !OccursAt(s, sub, j)
    ensures k.None? ==> forall j: nat :: !OccursAt(s, sub, j)
    decreases |s|
  {
    if |s| < |sub| then None
    else if s[..|sub|] == sub then Some(0)
    else
      var k := IndexOf(s[1..], sub);
      forall j: nat | 1 <= j ensures OccursAt(s, sub, j) <==> OccursAt(s[1..], sub, j - 1) {
        if j + |sub| <= |s| {
          assert s[1..][j - 1..j - 1 + |sub|] == s[j..j + |sub|];
        }
      }
      assert !OccursAt(s, sub, 0);
      if k.None? then None else Some(k.value + 1)
  }

  /** `s.replace(p, r)` with a string pattern: only the first occurrence is replaced. */
  function ReplaceFirst(s: string, p: string, r: string): string {
    match IndexOf(s, p)
    case None => s
    case Some(k) => s[..k] + r + s[k + |p|..]
  }

  /** Where the pattern first occurs after `a`, the replacement takes its place. */
  lemma ReplaceFirstAt(a: string, p: string, b: string, r: string)
    requires forall j: nat :: j < |a| ==> !OccursAt(a + p + b, p, j)
    ensures ReplaceFirst(a + p + b, p, r) == a + r + b
  {
    var s := a + p + b;
    assert s[|a|..|a| + |p|] == p;
    assert OccursAt(s, p, |a|);
    assert IndexOf(s, p) == Some(|a|);
    assert s[..|a|] == a && s[|a| + |p|..] == b;
  }

  /** `xs.join(sep)`. */
  function Join(xs: seq<string>, sep: string): string {
    if xs == [] then "" else if |xs| == 1 then xs[0] else xs[0] + sep + Join(xs[1..], sep)
  }

  lemma JoinOne(a: string, sep: string)
    ensures Join([a], sep) == a
  {}

  lemma JoinTwo(a: string, b: string, sep: string)
    ensures Join([a, b], sep) == a + sep + b
  {
    assert [a, b][1..] == [b];
  }

  /** Every joined element occurs in the joined string. */
  lemma {:induction false} JoinIncludes(xs: seq<string>, sep: string, i: nat)
    requires i < |xs|
    ensures Includes(Join(xs, sep), xs[i])
  {
    if |xs| == 1 {
      IncludesAt(Join(xs, sep), xs[0], 0);
    } else if i == 0 {
      var j := Join(xs, sep);
      assert j[..|xs[0]|] == xs[0];
      IncludesAt(j, xs[0], 0);
    } else {
      JoinIncludes(xs[1..], sep, i - 1);
      assert xs[1..][i - 1] == xs[i];
      var rest := Join(xs[1..], sep);
      IncludesInfix(xs[0] + sep, rest, "", xs[i]);
      assert xs[0] + sep + rest + "" == Join(xs, sep);
    }
  }

  /** A string occurring in the middle part occurs in the whole. */
  lemma IncludesInfix(a: string, b: string, c: string, sub: string)
    requires Includes(b, sub)
    ensures Includes(a + b + c, sub)
  {
    var k: nat :| k <= |b| && OccursAt(b, sub, k);
    assert (a + b + c)[|a| + k..|a| + k + |sub|] == b[k..k + |sub|];
    IncludesAt(a + b + c, sub, |a| + k);
  }

  /** `s.replace(/p/g, r)` for a pattern without special characters: every
      occurrence, found left to right without overlap, is replaced. */
  function ReplaceAll(s: string, p: string, r: string): string
    requires p != []
    decreases |s|
  {
    if |s| < |p| then s
    else if s[..|p|] == p then r + ReplaceAll(s[|p|..], p, r)
    else [s[0]] + ReplaceAll(s[1..], p, r)
  }

  /** A string in which the pattern does not occur is left unchanged. */
  lemma {:induction false} ReplaceAllAbsent(s: string, p: string, r: string)
    requires p != [] && !Includes(s, p)
    ensures ReplaceAll(s, p, r) == s
    decreases |s|
  {
    if |s| >= |p| {
      if s[..|p|] == p { IncludesAt(s, p, 0); }
      assert !Includes(s[1..], p) by {
        if Includes(s[1..], p) {
          var i: nat :| i <= |s[1..]| && OccursAt(s[1..], p, i);
          assert s[i + 1..i + 1 + |p|] == s[1..][i..i + |p|];
          IncludesAt(s, p, i + 1);
        }
      }
      ReplaceAllAbsent(s[1..], p, r);
    }
  }

  /** Replacing a pattern by itself changes nothing. */
  lemma {:induction false} ReplaceAllIdentity(s: string, p: string)
    requires p != []
    ensures ReplaceAll(s, p, p) == s
    decreases |s|
  {
    if |s| >= |p| {
      if s[..|p|] == p {
        ReplaceAllIdentity(s[|p|..], p);
        assert s == s[..|p|] + s[|p|..];
      } else {
        ReplaceAllIdentity(s[1..], p);
      }
    }
  }

  /** Replacing by `r` cannot create an occurrence of `q`: no placement of `q`
      that overlaps `r` agrees with it on the overlap, whether `q` starts
      inside `r` or runs into it from before. */
  predicate ReplacementIsClean(q: string, r: string) {
    && (forall j :: 0 <= j < |r| ==> !StartsWith(q, r[j..]) && !StartsWith(r[j..], q))
    && (forall m :: 0 < m < |q| ==> !StartsWith(r, q[m..]) && !StartsWith(q[m..], r))
  }

  /** No suffix of `s` agrees with `h` on their common length: `h` occurs
      nowhere in `s`, not even cut off at its end. */
  predicate NoAlignment(s: string, h: string) {
    forall j :: 0 <= j < |s| ==> !StartsWith(s[j..], h) && !StartsWith(h, s[j..])
  }

  /** Cleanliness from the characters: wherever the replacement shows the
      pattern's first character, a later character disagrees with the pattern. */
  lemma CleanByMismatch(p: string, r: string)
    requires p != [] && r != [] && r[0] !in p
    requires forall j :: 0 <= j < |r| && r[j] == p[0] ==> exists m :: 0 < m < |p| && j + m < |r| && r[j + m] != p[m]
    ensures ReplacementIsClean(p, r)
  {
    forall j | 0 <= j < |r| ensures !StartsWith(p, r[j..]) && !StartsWith(r[j..], p) {
      if r[j] == p[0] {
        var m :| 0 < m < |p| && j + m < |r| && r[j + m] != p[m];
        assert r[j..][m] != p[m];
      } else {
        assert r[j..][0] != p[0];
      }
    }
    forall m | 0 < m < |p| ensures !StartsWith(r, p[m..]) && !StartsWith(p[m..], r) {
      assert p[m..][0] == p[m] != r[0];
    }
  }

  /** Cleanliness from the heads: `q` starts with `qh`, `r` with `rh`; `qh`
      lines up nowhere in `r`, and `rh` nowhere in `q` after its first character. */
  lemma CleanByHeads(q: string, r: string, qh: string, rh: string)
    requires qh != [] && rh != [] && StartsWith(q, qh) && StartsWith(r, rh)
    requires NoAlignment(r, qh) && NoAlignment(q[1..], rh)
    ensures ReplacementIsClean(q, r)
  {
    forall j | 0 <= j < |r| ensures !StartsWith(q, r[j..]) && !StartsWith(r[j..], q) {
      var t := r[j..];
      assert !StartsWith(t, qh) && !StartsWith(qh, t);
    }
    forall m | 0 < m < |q| ensures !StartsWith(r, q[m..]) && !StartsWith(q[m..], r) {
      var t := q[m..];
      assert t == q[1..][m - 1..];
      assert !StartsWith(t, rh) && !StartsWith(rh, t);
    }
  }

  /** Alignments of `h` in a concatenation start in one of its parts. */
  lemma NoAlignmentAppend(x: string, y: string, h: string)
    requires NoAlignment(x, h) && NoAlignment(y, h)
    ensures NoAlignment(x + y, h)
  {
    var s := x + y;
    forall j | 0 <= j < |s| ensures !StartsWith(s[j..], h) && !StartsWith(h, s[j..]) {
      if j >= |x| {
        assert s[j..] == y[j - |x|..];
      } else {
        var t := x[j..];
        assert s[j..] == t + y;
        assert !StartsWith(t, h) && !StartsWith(h, t);
      }
    }
  }

  /** `h` lines up nowhere when each of its first characters in `s` is
      followed by something other than its second. */
  lemma NoAlignmentByPairs(s: string, h: string)
    requires |h| >= 2
    requires forall i :: 0 <= i < |s| && s[i] == h[0] ==> i + 1 < |s| && s[i + 1] != h[1]
    ensures NoAlignment(s, h)
  {
    forall j | 0 <= j < |s| ensures !StartsWith(s[j..], h) && !StartsWith(h, s[j..]) {
      assert s[j..][0] == s[j];
      if s[j] == h[0] { assert s[j..][1] == s[j + 1]; }
    }
  }

  /** `h` lines up nowhere in a text lacking its second character and not
      ending in its first. */
  lemma NoAlignmentByAbsence(s: string, h: string)
    requires |h| >= 2 && h[1] !in s && (s == [] || s[|s| - 1] != h[0])
    ensures NoAlignment(s, h)
  {
    forall i | 0 <= i < |s| && s[i] == h[0] ensures i + 1 < |s| && s[i + 1] != h[1] {
      assert i != |s| - 1;
      assert s[i + 1] in s;
    }
    NoAlignmentByPairs(s, h);
  }

  /** Where the pattern does not occur in the first `n` positions, those
      characters are copied as they are. */
  lemma {:induction false} ReplaceAllSkip(t: string, p: string, r: string, n: nat)
    requires p != [] && n <= |t|
    requires forall j: nat :: j < n ==> !OccursAt(t, p, j)
    ensures ReplaceAll(t, p, r) == t[..n] + ReplaceAll(t[n..], p, r)
    decreases n
  {
    if n > 0 {
      if |t| < |p| {
        assert ReplaceAll(t[n..], p, r) == t[n..];
        assert t == t[..n] + t[n..];
      } else {
        assert !OccursAt(t, p, 0);
        forall j: nat | j < n - 1 ensures !OccursAt(t[1..], p, j) {
          assert !OccursAt(t, p, j + 1);
          if j + |p| <= |t[1..]| { assert t[1..][j..j + |p|] == t[j + 1..j + 1 + |p|]; }
        }
        ReplaceAllSkip(t[1..], p, r, n - 1);
        assert t[1..][n - 1..] == t[n..];
        assert [t[0]] + t[1..][..n - 1] == t[..n];
      }
    }
  }

  /** An occurrence of `q` cannot start at a kept character and run into the
      output of the replacement. */
  lemma {:induction false} ReplaceAllNoStraddle(c: char, t: string, p: string, r: string, q: string, n: nat)
    requires p != [] && ReplacementIsClean(q, r)
    requires n <= |t| && n < |q|
    requires forall j: nat :: j < n ==> !OccursAt(t, p, j)
    requires !StartsWith([c] + t, q)
    ensures !StartsWith([c] + ReplaceAll(t, p, r), q)
    decreases |q| - n
  {
    ReplaceAllSkip(t, p, r, n);
    var out := [c] + ReplaceAll(t, p, r);
    if n == |q| - 1 {
      if |out| >= |q| {
        assert out[..|q|] == ([c] + t)[..|q|];
      }
    } else if n == |t| {
      assert t[n..] == [];
      assert out == [c] + t;
    } else if OccursAt(t, p, n) {
      assert t[n..][..|p|] == p;
      var rest := ReplaceAll(t[n..][|p|..], p, r);
      assert ReplaceAll(t[n..], p, r) == r + rest;
      var m := n + 1;
      assert out[m..] == r + rest;
      assert !StartsWith(r, q[m..]) && !StartsWith(q[m..], r);
    } else {
      ReplaceAllNoStraddle(c, t, p, r, q, n + 1);
    }
  }

  /** A clean replacement put before text free of `q` leaves it free. */
  lemma CleanBeforeFree(r: string, x: string, q: string)
    requires ReplacementIsClean(q, r) && !Includes(x, q)
    ensures !Includes(r + x, q)
  {
    var out := r + x;
    forall i: nat | i <= |out| && i + |q| <= |out| ensures !OccursAt(out, q, i) {
      if i >= |r| {
        assert x[i - |r|..i - |r| + |q|] == out[i..i + |q|];
        assert !OccursAt(x, q, i - |r|);
      } else if i + |q| <= |r| {
        assert r[i..][..|q|] == out[i..i + |q|];
        assert !StartsWith(r[i..], q);
      } else {
        assert out[i..i + |q|][..|r| - i] == r[i..];
        assert !StartsWith(q, r[i..]);
      }
    }
  }

  /** A clean replacement between two texts free of `q` leaves no `q`. */
  lemma CleanBetweenFree(x: string, r: string, y: string, q: string)
    requires ReplacementIsClean(q, r) && !Includes(x, q) && !Includes(y, q)
    ensures !Includes(x + r + y, q)
  {
    CleanBeforeFree(r, y, q);
    var out := x + (r + y);
    assert x + r + y == out;
    forall i: nat | i <= |out| && i + |q| <= |out| ensures !OccursAt(out, q, i) {
      if i >= |x| {
        assert (r + y)[i - |x|..i - |x| + |q|] == out[i..i + |q|];
        assert !OccursAt(r + y, q, i - |x|);
      } else if i + |q| <= |x| {
        assert x[i..i + |q|] == out[i..i + |q|];
        assert !OccursAt(x, q, i);
      } else {
        var m := |x| - i;
        assert out[i..i + |q|][m..] == out[|x|..i + |q|];
        if |q| - m <= |r| {
          assert out[|x|..i + |q|] == out[|x|..|x| + |r|][..|q| - m];
          assert out[|x|..|x| + |r|] == r;
        } else {
          assert out[|x|..|x| + |r|] == r;
          assert out[|x|..i + |q|][..|r|] == out[|x|..|x| + |r|];
        }
        assert !StartsWith(r, q[m..]) && !StartsWith(q[m..], r);
      }
    }
  }

  /** A kept character before text free of the pattern, where the pattern does
      not start, leaves it free. */
  lemma KeptBeforeFree(c: char, x: string, p: string)
    requires !Includes(x, p) && !StartsWith([c] + x, p)
    ensures !Includes([c] + x, p)
  {
    var out := [c] + x;
    forall i: nat | i <= |out| && i + |p| <= |out| ensures !OccursAt(out, p, i) {
      if i >= 1 {
        assert x[i - 1..i - 1 + |p|] == out[i..i + |p|];
        assert !OccursAt(x, p, i - 1);
      }
    }
  }

  /** A text free of `q` has no `q` from any position on. */
  lemma FreeSuffix(s: string, q: string, n: nat)
    requires n <= |s| && !Includes(s, q)
    ensures !Includes(s[n..], q)
  {
    forall i: nat | i <= |s[n..]| && OccursAt(s[n..], q, i) ensures false {
      assert s[n..][i..i + |q|] == s[n + i..n + i + |q|];
      IncludesAt(s, q, n + i);
    }
  }

  /** With a clean replacement, no occurrence of the pattern survives a
      global replace. */
  lemma {:induction false} ReplaceAllRemoves(s: string, p: string, r: string)
    requires p != [] && ReplacementIsClean(p, r)
    ensures !Includes(ReplaceAll(s, p, r), p)
    decreases |s|
  {
    if |s| < |p| {
      assert ReplaceAll(s, p, r) == s;
      forall i: nat | i <= |s| ensures !OccursAt(s, p, i) {}
    } else if s[..|p|] == p {
      ReplaceAllRemoves(s[|p|..], p, r);
      CleanBeforeFree(r, ReplaceAll(s[|p|..], p, r), p);
    } else {
      ReplaceAllRemoves(s[1..], p, r);
      assert s == [s[0]] + s[1..];
      ReplaceAllNoStraddle(s[0], s[1..], p, r, p, 0);
      KeptBeforeFree(s[0], ReplaceAll(s[1..], p, r), p);
    }
  }

  /** A global replace whose replacement cannot create `q` keeps a text free
      of `q` free of it. */
  lemma {:induction false} ReplaceAllKeepsFree(s: string, p: string, r: string, q: string)
    requires p != [] && ReplacementIsClean(q, r) && !Includes(s, q)
    ensures !Includes(ReplaceAll(s, p, r), q)
    decreases |s|
  {
    if |s| < |p| {
    } else if s[..|p|] == p {
      FreeSuffix(s, q, |p|);
      ReplaceAllKeepsFree(s[|p|..], p, r, q);
      CleanBeforeFree(r, ReplaceAll(s[|p|..], p, r), q);
    } else {
      FreeSuffix(s, q, 1);
      ReplaceAllKeepsFree(s[1..], p, r, q);
      assert s == [s[0]] + s[1..];
      if q == [] { IncludesAt(s, q, 0); }
      assert !OccursAt(s, q, 0);
      ReplaceAllNoStraddle(s[0], s[1..], p, r, q, 0);
      KeptBeforeFree(s[0], ReplaceAll(s[1..], p, r), q);
    }
  }

  predicate IsUpperAscii(c: char) { 'A' <= c <= 'Z' }

  /** `toLowerCase` on ASCII letters; other characters are kept. */
  function LowerChar(c: char): (d: char)
    ensures IsUpperAscii(c) ==> d as int == c as int + 32
    ensures !IsUpperAscii(c) ==> d == c
  {
    if IsUpperAscii(c) then (c as int + 32) as char else c
  }

  function Lower(s: string): (r: string)
    ensures |r| == |s| && forall i :: 0 <= i < |s| ==> r[i] == LowerChar(s[i])
  {
    seq(|s|, i requires 0 <= i < |s| => LowerChar(s[i]))
  }

  /** Case-insensitive equality as the `i` flag of a regular expression applies it to ASCII letters. */
  predicate EqualsIgnoreCase(a: string, b: string) {
    Lower(a) == Lower(b)
  }

  predicate IsDigit(c: char) { '0' as int <= c as int <= '9' as int }

  function DigitChar(d: nat): (c: char)
    requires d < 10
    ensures IsDigit(c) && c as int - '0' as int == d
  {
    ('0' as int + d) as char
  }

  /** Decimal notation of a natural number, as `${n}` prints it. */
  function NatToString(n: nat): (s: string)
    ensures s != [] && (forall i :: 0 <= i < |s| ==> IsDigit(s[i]))
    ensures |s| > 1 ==> s[0] != '0'
  {
    if n < 10 then [DigitChar(n)] else NatToString(n / 10) + [DigitChar(n % 10)]
  }

  function DigitValue(c: char): nat
    requires IsDigit(c)
  {
    c as int - '0' as int
  }

  /** The value of a string of decimal digits. */
  function DigitsValue(s: string): nat
    requires forall i :: 0 <= i < |s| ==> IsDigit(s[i])
  {
    if s == [] then 0 else 10 * DigitsValue(s[..|s| - 1]) + DigitValue(s[|s| - 1])
  }

  /** Reading back the printed number gives the number. */
  lemma {:induction false} NatToStringRoundTrip(n: nat)
    ensures DigitsValue(NatToString(n)) == n
  {
    if n >= 10 {
      NatToStringRoundTrip(n / 10);
      var s := NatToString(n);
      assert s[..|s| - 1] == NatToString(n / 10);
    }
  }

  /** `${n}` for an integer. */
  function IntToString(n: int): (s: string)
    ensures s != []
    ensures n < 0 <==> s[0] == '-'
  {
    if n < 0 then "-" + NatToString(-n) else NatToString(n)
  }
}
