/** Character classes and scanning helpers over the raw lyrics text. */
module Text {

  /** An ASCII decimal digit (what `\d` matches, restricted to ASCII). */
  predicate IsDigit(c: char) {
    '0' <= c <= '9'
  }

  /** Any character the regex `.` matches: everything but a line feed. */
  predicate NotNewline(c: char) {
    c != '\n'
  }

  /** The only character `[ ]*` skips. */
  predicate IsSpace(c: char) {
    c == ' '
  }

  /** Rust's `char::is_whitespace`: the Unicode White_Space property. */
  predicate IsWhitespace(c: char) {
    || ('\t' <= c <= '\r')
    || c == ' '
    || c == '\U{85}'
    || c == '\U{A0}'
    || c == '\U{1680}'
    || ('\U{2000}' <= c <= '\U{200A}')
    || c == '\U{2028}'
    || c == '\U{2029}'
    || c == '\U{202F}'
    || c == '\U{205F}'
    || c == '\U{3000}'
  }

  /** `str::trim(x).is_empty()`: every character of `x` is whitespace. */
  predicate AllWhitespace(x: string) {
    forall k :: 0 <= k < |x| ==> IsWhitespace(x[k])
  }

  /** Every position of `s` in `[a, b)` satisfies `p`. */
  predicate AllBetween(s: string, a: nat, b: nat, p: char -> bool)
    requires a <= b <= |s|
  {
    forall k :: a <= k < b ==> p(s[k])
  }

  /** End of the longest run of `p`-characters of `s` starting at `a`:
      the first position at or after `a` whose character fails `p`, or `|s|`. */
  function SpanEnd(s: string, a: nat, p: char -> bool): (e: nat)
    requires a <= |s|
    ensures a <= e <= |s|
    ensures AllBetween(s, a, e, p)
    ensures e == |s| || !p(s[e])
    decreases |s| - a
  {
    if a == |s| || !p(s[a]) then a else SpanEnd(s, a + 1, p)
  }

  /** A run end is determined by the run: any `b` such that `[a, b)` is all
      `p` and `b` is followed by a non-`p` character (or the end) is the
      span end, and any all-`p` stretch ends no later than it. */
  lemma SpanEndIsMaximal(s: string, a: nat, b: nat, p: char -> bool)
    requires a <= b <= |s|
    requires AllBetween(s, a, b, p)
    ensures b <= SpanEnd(s, a, p)
    ensures (b == |s| || !p(s[b])) ==> b == SpanEnd(s, a, p)
  {
  }

  /** A span that stops before `|t|` in `t`, where `t` is a prefix of `s`
      whose successor in `s` (if any) fails `p`, ends at the same place in `s`. */
  lemma {:induction false} SpanEndOfPrefix(s: string, t: string, a: nat, p: char -> bool)
    requires a <= |t| <= |s|
    requires t == s[..|t|]
    requires |t| < |s| ==> !p(s[|t|])
    ensures SpanEnd(s, a, p) == SpanEnd(t, a, p)
    decreases |t| - a
  {
    if a < |t| {
      assert s[a] == t[a];
      if p(t[a]) {
        SpanEndOfPrefix(s, t, a + 1, p);
      }
    }
  }

  /** Position of the first line feed at or after `a`, or `|s|`. */
  function LineEnd(s: string, a: nat): (e: nat)
    requires a <= |s|
    ensures a <= e <= |s|
    ensures forall k :: a <= k < e ==> s[k] != '\n'
    ensures e == |s| || s[e] == '\n'
  {
    SpanEnd(s, a, NotNewline)
  }

  /** `s` split at every line feed, as Rust's `str::split('\n')` does:
      `k` line feeds give `k + 1` lines, the last possibly empty. */
  function SplitLines(s: string): (lines: seq<string>)
    ensures |lines| >= 1
    ensures forall i :: 0 <= i < |lines| ==> '\n' !in lines[i]
    decreases |s|
  {
    var e := LineEnd(s, 0);
    if e == |s| then
      assert forall k :: 0 <= k < |s| ==> s[k] != '\n';
      [s]
    else
      assert forall k :: 0 <= k < e ==> s[..e][k] != '\n';
      [s[..e]] + SplitLines(s[e + 1..])
  }

  /** The inverse of `SplitLines`: the lines rejoined with line feeds. */
  function JoinLines(lines: seq<string>): string
    requires |lines| >= 1
  {
    if |lines| == 1 then lines[0] else lines[0] + "\n" + JoinLines(lines[1..])
  }

  /** Splitting loses nothing: rejoining the lines gives the text back. */
  lemma {:induction false} JoinSplitLines(s: string)
    ensures JoinLines(SplitLines(s)) == s
    decreases |s|
  {
    var e := LineEnd(s, 0);
    if e < |s| {
      JoinSplitLines(s[e + 1..]);
      assert s == s[..e] + "\n" + s[e + 1..];
    }
  }

  /** Splitting undoes joining for lines free of line feeds. */
  lemma {:induction false} SplitJoinLines(lines: seq<string>)
    requires |lines| >= 1
    requires forall i :: 0 <= i < |lines| ==> '\n' !in lines[i]
    ensures SplitLines(JoinLines(lines)) == lines
  {
    var s := JoinLines(lines);
    var l := lines[0];
    assert forall k :: 0 <= k < |l| ==> l[k] != '\n';
    if |lines| == 1 {
      SpanEndIsMaximal(s, 0, |s|, NotNewline);
    } else {
      var rest := JoinLines(lines[1..]);
      SplitJoinLines(lines[1..]);
      assert s == l + "\n" + rest;
      LineEndAfterLine(l, rest);
      assert s[..|l|] == l;
      assert s[|l| + 1..] == rest;
    }
  }

  /** The first line feed of `l + "\n" + rest`, for `l` free of line feeds,
      is the one just after `l`. */
  lemma LineEndAfterLine(l: string, rest: string)
    requires '\n' !in l
    ensures LineEnd(l + "\n" + rest, 0) == |l|
  {
    var s := l + "\n" + rest;
    assert AllBetween(s, 0, |l|, NotNewline) by {
      forall k | 0 <= k < |l| ensures NotNewline(s[k]) {
        assert s[k] == l[k];
      }
    }
    assert s[|l|] == '\n';
    SpanEndIsMaximal(s, 0, |l|, NotNewline);
  }

  /** Dropping the first character of a concatenation whose left part is non-empty. */
  lemma DropFirstOfConcat(a: string, b: string)
    requires |a| > 0
    ensures (a + b)[1..] == a[1..] + b
  {
  }

  /** Slices within a prefix are slices of the prefix. */
  lemma SliceOfPrefix(s: string, l: string, a: nat, b: nat)
    requires |l| <= |s| && s[..|l|] == l && a <= b <= |l|
    ensures s[a..b] == l[a..b]
  {
    assert forall k :: a <= k < b ==> s[k] == l[k];
  }
}
