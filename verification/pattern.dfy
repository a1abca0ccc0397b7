/** The scan `pieces` performs with the regex `\[(\d+):(\d+).(\d+)\][ ]*(.*)`
    over the whole raw text, with Rust regex semantics: leftmost-first
    matching, `.` matching anything but a line feed, greedy repetition, and
    successive non-overlapping matches. */
module Pattern {
  import opened Text
  import opened Decimal
  import opened Outcomes

  /** Where the groups of the timestamp tag end, relative to the tag's `[`:
      minutes are `[1, mEnd)`, `:` is at `mEnd`, seconds are `[mEnd + 1, sEnd)`,
      the separator (the unescaped `.`) is at `sEnd`, the fraction is
      `[sEnd + 1, fEnd)` and `]` is at `fEnd`. */
  datatype Split = Split(mEnd: nat, sEnd: nat, fEnd: nat)

  /** `\[(\d+):(\d+).(\d+)\]` matches a prefix of `s` with these group
      boundaries. Any split the regex admits satisfies this, and nothing else. */
  predicate IsTag(s: string, mEnd: nat, sEnd: nat, fEnd: nat) {
    && 1 < mEnd && mEnd + 1 < sEnd && sEnd + 1 < fEnd && fEnd < |s|
    && s[0] == '['
    && AllBetween(s, 1, mEnd, IsDigit) && s[mEnd] == ':'
    && AllBetween(s, mEnd + 1, sEnd, IsDigit) && NotNewline(s[sEnd])
    && AllBetween(s, sEnd + 1, fEnd, IsDigit) && s[fEnd] == ']'
  }

  /** The tag the regex engine reports at the start of `s`, if any. The
      minutes group is the whole digit run before `:`. The seconds group is
      greedy: it first takes the whole digit run, leaving the following
      non-digit as separator; when that fails and the run is followed by `]`,
      it gives back two digits, the first becoming the separator and the
      second the fraction. */
  function MatchTag(s: string): (r: Option<Split>)
    ensures r.Some? ==> IsTag(s, r.value.mEnd, r.value.sEnd, r.value.fEnd)
  {
    if |s| == 0 || s[0] != '[' then None
    else
      var mEnd := SpanEnd(s, 1, IsDigit);
      if mEnd == 1 || mEnd == |s| || s[mEnd] != ':' then None
      else
        var d := SpanEnd(s, mEnd + 1, IsDigit);
        if d == mEnd + 1 || d == |s| then None
        else
          var f := SpanEnd(s, d + 1, IsDigit);
          if NotNewline(s[d]) && d + 1 < f < |s| && s[f] == ']' then
            Some(Split(mEnd, d, f))
          else if d - (mEnd + 1) >= 3 && s[d] == ']' then
            assert AllBetween(s, mEnd + 1, d - 2, IsDigit);
            assert AllBetween(s, d - 1, d, IsDigit);
            Some(Split(mEnd, d - 2, d))
          else
            None
  }

  /** `MatchTag` is exactly the regex's leftmost-first choice: whenever the
      regex admits some split at the start of `s`, a tag is reported, with
      the same minutes group and the longest seconds group among all admitted
      splits (the fraction then being determined by the seconds). */
  lemma MatchTagIsLeftmostFirst(s: string, mEnd: nat, sEnd: nat, fEnd: nat)
    requires IsTag(s, mEnd, sEnd, fEnd)
    ensures MatchTag(s).Some?
    ensures MatchTag(s).value.mEnd == mEnd
    ensures sEnd <= MatchTag(s).value.sEnd
    ensures sEnd == MatchTag(s).value.sEnd ==> fEnd == MatchTag(s).value.fEnd
  {
    SpanEndIsMaximal(s, 1, mEnd, IsDigit);
    assert mEnd == SpanEnd(s, 1, IsDigit);
    var d := SpanEnd(s, mEnd + 1, IsDigit);
    SpanEndIsMaximal(s, mEnd + 1, sEnd, IsDigit);
    assert sEnd <= d;
    if sEnd == d {
      SpanEndIsMaximal(s, d + 1, fEnd, IsDigit);
    } else {
      // the separator is a digit, so the fraction runs to the end of the
      // seconds digit run, which must be the `]`
      assert IsDigit(s[sEnd]);
      assert AllBetween(s, sEnd + 1, d, IsDigit);
      SpanEndIsMaximal(s, sEnd + 1, fEnd, IsDigit);
      SpanEndIsMaximal(s, sEnd + 1, d, IsDigit);
      assert fEnd == d;
      assert s[d] == ']';
    }
  }

  /** What one match reports: the four capture groups. */
  datatype Capture = Capture(minutes: string, seconds: string, fraction: string, text: string)

  /** The three numeric groups are non-empty digit strings. */
  predicate WellFormed(c: Capture) {
    && |c.minutes| >= 1 && AllDigits(c.minutes)
    && |c.seconds| >= 1 && AllDigits(c.seconds)
    && |c.fraction| >= 1 && AllDigits(c.fraction)
  }

  /** The first line feed (or end of text) after the tag: where the greedy
      `(.*)`, and so the whole match, ends. */
  function MatchEnd(s: string, t: Split): (e: nat)
    requires IsTag(s, t.mEnd, t.sEnd, t.fEnd)
    ensures t.fEnd < e <= |s|
  {
    LineEnd(s, t.fEnd + 1)
  }

  /** Where the text group starts: after the spaces `[ ]*` skips. Never past
      the end of the match, since a line feed is not a space. */
  function TextStart(s: string, t: Split): (b: nat)
    requires IsTag(s, t.mEnd, t.sEnd, t.fEnd)
    ensures t.fEnd < b <= MatchEnd(s, t)
    ensures AllBetween(s, t.fEnd + 1, b, IsSpace)
    ensures b == MatchEnd(s, t) || s[b] != ' '
  {
    var a := t.fEnd + 1;
    var b := SpanEnd(s, a, IsSpace);
    assert AllBetween(s, a, b, NotNewline);
    SpanEndIsMaximal(s, a, b, NotNewline);
    b
  }

  /** The capture groups of the tag `t` at the start of `s`. */
  function CaptureOf(s: string, t: Split): (c: Capture)
    requires IsTag(s, t.mEnd, t.sEnd, t.fEnd)
    ensures WellFormed(c)
    ensures '\n' !in c.text
    ensures |c.text| == 0 || c.text[0] != ' '
  {
    Capture(s[1..t.mEnd], s[t.mEnd + 1..t.sEnd], s[t.sEnd + 1..t.fEnd], s[TextStart(s, t)..MatchEnd(s, t)])
  }

  /** The groups spell the matched text back: the tag is its groups with the
      punctuation and separator between them, and the rest of the line is
      the spaces `[ ]*` skipped followed by the text group. */
  lemma CaptureRespells(s: string, t: Split)
    requires IsTag(s, t.mEnd, t.sEnd, t.fEnd)
    ensures var c := CaptureOf(s, t);
            && s[..t.fEnd + 1] == "[" + c.minutes + ":" + c.seconds + [s[t.sEnd]] + c.fraction + "]"
            && t.fEnd + 1 + |c.text| <= MatchEnd(s, t)
            && AllBetween(s, t.fEnd + 1, MatchEnd(s, t) - |c.text|, IsSpace)
            && s[MatchEnd(s, t) - |c.text|..MatchEnd(s, t)] == c.text
  {
    var c := CaptureOf(s, t);
    CaptureOfGroups(s, t);
    TagRespells(s, t, c.minutes, c.seconds, s[t.sEnd], c.fraction,
                "[" + c.minutes + ":" + c.seconds + [s[t.sEnd]] + c.fraction + "]");
  }

  /** The tag is its groups with the punctuation and separator between them. */
  lemma TagRespells(s: string, t: Split, m: string, sec: string, sep: char, f: string, y: string)
    requires IsTag(s, t.mEnd, t.sEnd, t.fEnd)
    requires m == s[1..t.mEnd] && sec == s[t.mEnd + 1..t.sEnd] && sep == s[t.sEnd] && f == s[t.sEnd + 1..t.fEnd]
    requires y == "[" + m + ":" + sec + [sep] + f + "]"
    ensures y == s[..t.fEnd + 1]
  {
    TagIndices(m, sec, sep, f, y, t);
    forall k | 0 <= k < |y| ensures y[k] == s[k] {
      if 1 <= k < t.mEnd {
        assert y[k] == m[k - 1];
      } else if t.mEnd + 1 <= k < t.sEnd {
        assert y[k] == sec[k - t.mEnd - 1];
      } else if t.sEnd + 1 <= k < t.fEnd {
        assert y[k] == f[k - t.sEnd - 1];
      }
    }
  }

  /** Each character of a tag spelled from its groups, by position. */
  lemma TagIndices(m: string, sec: string, sep: char, f: string, y: string, t: Split)
    requires y == "[" + m + ":" + sec + [sep] + f + "]"
    requires t == Split(1 + |m|, 2 + |m| + |sec|, 3 + |m| + |sec| + |f|)
    ensures |y| == t.fEnd + 1
    ensures y[0] == '[' && y[t.mEnd] == ':' && y[t.sEnd] == sep && y[t.fEnd] == ']'
    ensures forall k :: 1 <= k < t.mEnd ==> y[k] == m[k - 1]
    ensures forall k :: t.mEnd + 1 <= k < t.sEnd ==> y[k] == sec[k - t.mEnd - 1]
    ensures forall k :: t.sEnd + 1 <= k < t.fEnd ==> y[k] == f[k - t.sEnd - 1]
  {
  }

  /** The groups of `CaptureOf`, by position. */
  lemma CaptureOfGroups(s: string, t: Split)
    requires IsTag(s, t.mEnd, t.sEnd, t.fEnd)
    ensures CaptureOf(s, t)
         == Capture(s[1..t.mEnd], s[t.mEnd + 1..t.sEnd], s[t.sEnd + 1..t.fEnd], s[TextStart(s, t)..MatchEnd(s, t)])
  {
  }

  /** `captures_iter` over `s`: try the pattern at each position in turn; on
      a match report its groups and resume at the end of the match (the end
      of that line), otherwise move one character on. */
  function Captures(s: string): (cs: seq<Capture>)
    ensures forall k :: 0 <= k < |cs| ==> WellFormed(cs[k]) && '\n' !in cs[k].text
    ensures '[' !in s ==> cs == []
    decreases |s|
  {
    if |s| == 0 then []
    else
      match MatchTag(s)
      case None => Captures(s[1..])
      case Some(t) => [CaptureOf(s, t)] + Captures(s[MatchEnd(s, t)..])
  }

  // ---------------------------------------------------------------------
  // Lines. Neither the tag, `[ ]*` nor `.*` can cross a line feed, so the
  // scan over the whole text is the scan of each line in turn.

  /** A tag that starts on a line is found on that line alone. */
  lemma MatchTagOfLine(l: string, rest: string)
    requires |l| > 0 && '\n' !in l
    ensures MatchTag(l + "\n" + rest) == MatchTag(l)
  {
    var s := l + "\n" + rest;
    assert s[..|l|] == l;
    assert s[|l|] == '\n';
    assert s[0] == l[0];
    if l[0] == '[' {
      SpanEndOfPrefix(s, l, 1, IsDigit);
      var m := SpanEnd(l, 1, IsDigit);
      if 1 < m < |l| {
        assert s[m] == l[m];
        SpanEndOfPrefix(s, l, m + 1, IsDigit);
        var d := SpanEnd(l, m + 1, IsDigit);
        if m + 1 < d < |l| {
          assert s[d] == l[d];
          SpanEndOfPrefix(s, l, d + 1, IsDigit);
          var f := SpanEnd(l, d + 1, IsDigit);
          if f < |l| {
            assert s[f] == l[f];
          }
        }
      }
    }
  }

  /** The groups of a tag on a line are the same whether or not more lines follow. */
  lemma CaptureOfLine(l: string, rest: string, t: Split)
    requires '\n' !in l
    requires IsTag(l, t.mEnd, t.sEnd, t.fEnd)
    ensures IsTag(l + "\n" + rest, t.mEnd, t.sEnd, t.fEnd)
    ensures MatchEnd(l + "\n" + rest, t) == |l| == MatchEnd(l, t)
    ensures CaptureOf(l + "\n" + rest, t) == CaptureOf(l, t)
  {
    var s := l + "\n" + rest;
    assert s[..|l|] == l;
    assert s[|l|] == '\n';
    CaptureOfExtension(s, l, t);
  }

  /** The same, for any text `s` in which the line `l` is followed by a line feed. */
  lemma CaptureOfExtension(s: string, l: string, t: Split)
    requires '\n' !in l && |l| < |s| && s[..|l|] == l && s[|l|] == '\n'
    requires IsTag(l, t.mEnd, t.sEnd, t.fEnd)
    ensures IsTag(s, t.mEnd, t.sEnd, t.fEnd)
    ensures MatchEnd(s, t) == |l| == MatchEnd(l, t)
    ensures CaptureOf(s, t) == CaptureOf(l, t)
  {
    assert forall k :: 0 <= k < |l| ==> s[k] == l[k];
    assert IsTag(s, t.mEnd, t.sEnd, t.fEnd);
    var a := t.fEnd + 1;
    assert AllBetween(l, a, |l|, NotNewline);
    SpanEndIsMaximal(l, a, |l|, NotNewline);
    SpanEndOfPrefix(s, l, a, NotNewline);
    SpanEndOfPrefix(s, l, a, IsSpace);
    var b := TextStart(s, t);
    assert b == TextStart(l, t);
    CaptureOfGroups(s, t);
    CaptureOfGroups(l, t);
    SliceOfPrefix(s, l, 1, t.mEnd);
    SliceOfPrefix(s, l, t.mEnd + 1, t.sEnd);
    SliceOfPrefix(s, l, t.sEnd + 1, t.fEnd);
    SliceOfPrefix(s, l, b, |l|);
  }

  /** A line feed never starts a match. */
  lemma CapturesAfterLineFeed(rest: string)
    ensures Captures("\n" + rest) == Captures(rest)
  {
    var s := "\n" + rest;
    assert MatchTag(s).None?;
    assert s[1..] == rest;
  }

  /** Scanning a line followed by a line feed and more text reports the
      line's matches, then those of the text after the line feed. */
  lemma {:induction false} CapturesOfLine(l: string, rest: string)
    requires '\n' !in l
    ensures Captures(l + "\n" + rest) == Captures(l) + Captures(rest)
    decreases |l|
  {
    if |l| == 0 {
      assert l + "\n" + rest == "\n" + rest;
      CapturesAfterLineFeed(rest);
    } else {
      MatchTagOfLine(l, rest);
      if MatchTag(l).None? {
        CapturesOfUntaggedStart(l, rest);
      } else {
        CapturesOfTaggedStart(l, rest);
      }
    }
  }

  lemma {:induction false} CapturesOfUntaggedStart(l: string, rest: string)
    requires '\n' !in l && |l| > 0
    requires MatchTag(l + "\n" + rest).None? && MatchTag(l).None?
    ensures Captures(l + "\n" + rest) == Captures(l) + Captures(rest)
    decreases |l|, 0
  {
    var s := l + "\n" + rest;
    assert Captures(s) == Captures(s[1..]);
    assert Captures(l) == Captures(l[1..]);
    DropFirstOfConcat(l, "\n");
    DropFirstOfConcat(l + "\n", rest);
    CapturesOfLine(l[1..], rest);
  }

  lemma CapturesOfTaggedStart(l: string, rest: string)
    requires '\n' !in l
    requires MatchTag(l).Some? && MatchTag(l + "\n" + rest) == MatchTag(l)
    ensures Captures(l + "\n" + rest) == Captures(l) + Captures(rest)
  {
    var s := l + "\n" + rest;
    var t := MatchTag(l).value;
    CaptureOfLine(l, rest, t);
    var c := CaptureOf(l, t);
    CapturesAtTag(s);
    CapturesAtTag(l);
    assert s[|l|..] == "\n" + rest;
    CapturesAfterLineFeed(rest);
    assert |l[|l|..]| == 0;
    assert Captures(l) == [c];
  }

  /** Unfolding `Captures` at a tag. */
  lemma CapturesAtTag(s: string)
    requires MatchTag(s).Some?
    ensures Captures(s) == [CaptureOf(s, MatchTag(s).value)] + Captures(s[MatchEnd(s, MatchTag(s).value)..])
  {
  }

  /** The matches of each line in turn. */
  function ByLines(lines: seq<string>): seq<Capture>
  {
    if |lines| == 0 then [] else Captures(lines[0]) + ByLines(lines[1..])
  }

  /** The scan over the whole text reports, in order, the matches of each of
      its lines. */
  lemma {:induction false} CapturesByLines(s: string)
    ensures Captures(s) == ByLines(SplitLines(s))
    decreases |s|
  {
    var e := LineEnd(s, 0);
    if e < |s| {
      var l := s[..e];
      assert '\n' !in l by {
        assert forall k :: 0 <= k < e ==> l[k] == s[k];
      }
      assert s == l + "\n" + s[e + 1..];
      CapturesOfLine(l, s[e + 1..]);
      CapturesByLines(s[e + 1..]);
      assert SplitLines(s)[1..] == SplitLines(s[e + 1..]);
    } else {
      assert ByLines([s]) == Captures(s) + ByLines([]);
    }
  }

  /** Some position of line `l` starts a tag the regex matches. */
  predicate HasTag(l: string) {
    exists i :: 0 <= i < |l| && MatchTag(l[i..]).Some?
  }

  /** A line yields at most one match, and one exactly when it holds a tag. */
  lemma {:induction false} AtMostOneCapturePerLine(l: string)
    requires '\n' !in l
    ensures |Captures(l)| <= 1
    ensures |Captures(l)| == 1 <==> HasTag(l)
    decreases |l|
  {
    if |l| > 0 {
      assert l[0..] == l;
      match MatchTag(l)
      case None =>
        AtMostOneCapturePerLine(l[1..]);
        assert forall j :: 0 <= j < |l| - 1 ==> l[1..][j..] == l[j + 1..];
        if HasTag(l) {
          var i :| 0 <= i < |l| && MatchTag(l[i..]).Some?;
          assert l[1..][i - 1..] == l[i..];
        }
      case Some(t) =>
        assert AllBetween(l, t.fEnd + 1, |l|, NotNewline);
        SpanEndIsMaximal(l, t.fEnd + 1, |l|, NotNewline);
        assert l[|l|..] == [];
    }
  }

  /** The match a line yields comes from its leftmost tag, and its text runs
      to the end of the line. */
  lemma {:induction false} LeftmostTagOfLine(l: string, i: nat)
    requires '\n' !in l
    requires i < |l| && MatchTag(l[i..]).Some?
    requires forall j :: 0 <= j < i ==> MatchTag(l[j..]).None?
    ensures MatchEnd(l[i..], MatchTag(l[i..]).value) == |l| - i
    ensures Captures(l) == [CaptureOf(l[i..], MatchTag(l[i..]).value)]
    decreases i
  {
    var t := MatchTag(l[i..]).value;
    var x := l[i..];
    assert forall k :: 0 <= k < |x| ==> x[k] == l[i + k];
    assert AllBetween(x, t.fEnd + 1, |x|, NotNewline);
    SpanEndIsMaximal(x, t.fEnd + 1, |x|, NotNewline);
    if i == 0 {
      assert l[0..] == l;
      assert l[|l|..] == [];
    } else {
      assert l[0..] == l;
      assert l[1..][i - 1..] == l[i..];
      forall j | 0 <= j < i - 1 ensures MatchTag(l[1..][j..]).None? {
        assert l[1..][j..] == l[j + 1..];
      }
      LeftmostTagOfLine(l[1..], i - 1);
    }
  }

  /** How many of `lines` hold a tag. */
  function CountTagged(lines: seq<string>): nat
  {
    if |lines| == 0 then 0 else (if HasTag(lines[0]) then 1 else 0) + CountTagged(lines[1..])
  }

  /** The scan reports exactly one match per line that holds a tag. */
  lemma {:induction false} CaptureCount(s: string)
    ensures |Captures(s)| == CountTagged(SplitLines(s))
  {
    CapturesByLines(s);
    ByLinesCount(SplitLines(s));
  }

  lemma {:induction false} ByLinesCount(lines: seq<string>)
    requires forall i :: 0 <= i < |lines| ==> '\n' !in lines[i]
    ensures |ByLines(lines)| == CountTagged(lines)
  {
    if |lines| > 0 {
      AtMostOneCapturePerLine(lines[0]);
      ByLinesCount(lines[1..]);
    }
  }
}
