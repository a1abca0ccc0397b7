/** Writing pieces back as synced-lyrics text, and the round trip: the scan
    and the parse recover exactly what was written. */
module Rendering {
  import opened Text
  import opened Decimal
  import opened Outcomes
  import opened Timestamps
  import opened Pattern
  import opened Lyrics
  import opened Synced

  /** A line starting with a tag, with its groups spelled `m`, `sec` and `f`,
      separator `sep`, then spaces `pad`, then `text`, yields exactly one
      match whose groups are those strings: the leftmost tag wins, everything
      after the spaces up to the line end is the text (later tags included). */
  lemma TagLineCaptures(m: string, sec: string, sep: char, f: string, pad: string, text: string, s: string)
    requires |m| >= 1 && AllDigits(m) && |sec| >= 1 && AllDigits(sec) && |f| >= 1 && AllDigits(f)
    requires !IsDigit(sep) && sep != '\n'
    requires forall k :: 0 <= k < |pad| ==> pad[k] == ' '
    requires '\n' !in text && (|text| == 0 || text[0] != ' ')
    requires s == "[" + m + ":" + sec + [sep] + f + "]" + pad + text
    ensures Captures(s) == [Capture(m, sec, f, text)]
  {
    var t := Split(1 + |m|, 2 + |m| + |sec|, 3 + |m| + |sec| + |f|);
    TagLineShape(m, sec, sep, f, pad, text, s, t);
    var b := t.fEnd + 1 + |pad|;
    OneLineOneTag(s, t);
    SpanEndIsMaximal(s, t.fEnd + 1, b, IsSpace);
    assert TextStart(s, t) == b;
    CaptureOfGroups(s, t);
    assert MatchEnd(s, t) == |s|;
    assert CaptureOf(s, t) == Capture(m, sec, f, text);
    assert Captures(s) == [Capture(m, sec, f, text)];
  }

  /** `pieces()` of a text that is a single line starting with a tag whose
      separator is not a digit: one piece from that tag's groups, or the
      overflow error. */
  lemma PiecesOfTagLine(m: string, sec: string, sep: char, f: string, pad: string, text: string, s: string)
    requires |m| >= 1 && AllDigits(m) && |sec| >= 1 && AllDigits(sec) && |f| >= 1 && AllDigits(f)
    requires !IsDigit(sep) && sep != '\n'
    requires forall k :: 0 <= k < |pad| ==> pad[k] == ' '
    requires '\n' !in text && (|text| == 0 || text[0] != ' ')
    requires s == "[" + m + ":" + sec + [sep] + f + "]" + pad + text
    ensures Fits(Capture(m, sec, f, text)) ==>
              Pieces(NewLyrics(s)) == Ok([Piece(New(Value(m) as u32, Value(sec) as u8, Value(f) as u32), LyricText(text))])
    ensures !Fits(Capture(m, sec, f, text)) ==> Pieces(NewLyrics(s)) == Err(NumberTooLarge)
  {
    TagLineCaptures(m, sec, sep, f, pad, text, s);
    var r := Pieces(NewLyrics(s));
    if r.Ok? {
      assert r.value == [r.value[0]];
    }
  }

  /** The same, when the groups denote the fields of `stamp`. */
  lemma PieceOfTagLine(m: string, sec: string, sep: char, f: string, pad: string, text: string, s: string,
                       stamp: Timestamp)
    requires |m| >= 1 && AllDigits(m) && |sec| >= 1 && AllDigits(sec) && |f| >= 1 && AllDigits(f)
    requires !IsDigit(sep) && sep != '\n'
    requires forall k :: 0 <= k < |pad| ==> pad[k] == ' '
    requires '\n' !in text && (|text| == 0 || text[0] != ' ')
    requires s == "[" + m + ":" + sec + [sep] + f + "]" + pad + text
    requires Value(m) == stamp.m as int && Value(sec) == stamp.s as int && Value(f) == stamp.ms as int
    ensures Pieces(NewLyrics(s)) == Ok([Piece(stamp, LyricText(text))])
  {
    TagLineCaptures(m, sec, sep, f, pad, text, s);
    PieceOfCapture(s, Capture(m, sec, f, text), stamp);
  }

  /** `pieces()` of a text with a single match whose groups denote the fields
      of `stamp`. */
  lemma PieceOfCapture(s: string, c: Capture, stamp: Timestamp)
    requires Captures(s) == [c] && WellFormed(c)
    requires Value(c.minutes) == stamp.m as int && Value(c.seconds) == stamp.s as int
    requires Value(c.fraction) == stamp.ms as int
    ensures Pieces(NewLyrics(s)) == Ok([Piece(stamp, LyricText(c.text))])
  {
    var r := Pieces(NewLyrics(s));
    assert r.value == [r.value[0]];
  }

  /** The positions of the groups in a line written as above. */
  lemma TagLineShape(m: string, sec: string, sep: char, f: string, pad: string, text: string,
                     s: string, t: Split)
    requires |m| >= 1 && AllDigits(m) && |sec| >= 1 && AllDigits(sec) && |f| >= 1 && AllDigits(f)
    requires !IsDigit(sep) && sep != '\n'
    requires forall k :: 0 <= k < |pad| ==> pad[k] == ' '
    requires '\n' !in text && (|text| == 0 || text[0] != ' ')
    requires s == "[" + m + ":" + sec + [sep] + f + "]" + pad + text
    requires t == Split(1 + |m|, 2 + |m| + |sec|, 3 + |m| + |sec| + |f|)
    ensures IsTag(s, t.mEnd, t.sEnd, t.fEnd) && !IsDigit(s[t.sEnd]) && '\n' !in s
    ensures s[1..t.mEnd] == m && s[t.mEnd + 1..t.sEnd] == sec && s[t.sEnd + 1..t.fEnd] == f
    ensures t.fEnd + 1 + |pad| <= |s|
    ensures AllBetween(s, t.fEnd + 1, t.fEnd + 1 + |pad|, IsSpace)
    ensures s[t.fEnd + 1 + |pad|..|s|] == text
    ensures t.fEnd + 1 + |pad| == |s| || s[t.fEnd + 1 + |pad|] != ' '
  {
    var b := t.fEnd + 1 + |pad|;
    TagLineIndices(m, sec, sep, f, pad, text, s, t);
    assert s[1..t.mEnd] == m;
    assert s[t.mEnd + 1..t.sEnd] == sec;
    assert s[t.sEnd + 1..t.fEnd] == f;
    assert s[b..|s|] == text;
    assert AllBetween(s, 1, t.mEnd, IsDigit);
    assert AllBetween(s, t.mEnd + 1, t.sEnd, IsDigit);
    assert AllBetween(s, t.sEnd + 1, t.fEnd, IsDigit);
    assert AllBetween(s, t.fEnd + 1, b, IsSpace);
  }

  /** Each character of a line written as above, by position. */
  lemma TagLineIndices(m: string, sec: string, sep: char, f: string, pad: string, text: string,
                       s: string, t: Split)
    requires s == "[" + m + ":" + sec + [sep] + f + "]" + pad + text
    requires t == Split(1 + |m|, 2 + |m| + |sec|, 3 + |m| + |sec| + |f|)
    ensures |s| == t.fEnd + 1 + |pad| + |text|
    ensures s[0] == '[' && s[t.mEnd] == ':' && s[t.sEnd] == sep && s[t.fEnd] == ']'
    ensures forall k :: 1 <= k < t.mEnd ==> s[k] == m[k - 1]
    ensures forall k :: t.mEnd + 1 <= k < t.sEnd ==> s[k] == sec[k - t.mEnd - 1]
    ensures forall k :: t.sEnd + 1 <= k < t.fEnd ==> s[k] == f[k - t.sEnd - 1]
    ensures forall k :: t.fEnd + 1 <= k < t.fEnd + 1 + |pad| ==> s[k] == pad[k - t.fEnd - 1]
    ensures forall k :: t.fEnd + 1 + |pad| <= k < |s| ==> s[k] == text[k - t.fEnd - 1 - |pad|]
  {
  }

  /** A line that starts with a tag whose separator is not a digit yields
      exactly that tag's groups. */
  lemma OneLineOneTag(s: string, t: Split)
    requires '\n' !in s
    requires IsTag(s, t.mEnd, t.sEnd, t.fEnd) && !IsDigit(s[t.sEnd])
    ensures MatchEnd(s, t) == |s|
    ensures Captures(s) == [CaptureOf(s, t)]
  {
    MatchTagIsLeftmostFirst(s, t.mEnd, t.sEnd, t.fEnd);
    SpanEndIsMaximal(s, t.mEnd + 1, t.sEnd, IsDigit);
    assert MatchTag(s) == Some(t);
    assert AllBetween(s, t.fEnd + 1, |s|, NotNewline);
    SpanEndIsMaximal(s, t.fEnd + 1, |s|, NotNewline);
    CapturesAtTag(s);
    assert |s[MatchEnd(s, t)..]| == 0;
  }

  // ---------------------------------------------------------------------
  // Writing pieces out and reading them back.

  /** A piece the scan can read back unchanged: its text stays on one line,
      holds something visible, and does not start with a space (the scan
      skips spaces after the tag). */
  predicate Renderable(p: Piece) {
    '\n' !in p.lyric && !AllWhitespace(p.lyric) && p.lyric[0] != ' '
  }

  /** The capture groups a piece is written with: each field in canonical
      decimal, and the lyric as the text. */
  function GroupsOf(p: Piece): (c: Capture)
    ensures WellFormed(c)
  {
    Capture(Spell(p.stamp.m as nat), Spell(p.stamp.s as nat), Spell(p.stamp.ms as nat), p.lyric)
  }

  /** The line for one piece: `[m:s.ms]lyric`. */
  function LineOf(p: Piece): string {
    var c := GroupsOf(p);
    "[" + c.minutes + ":" + c.seconds + "." + c.fraction + "]" + c.text
  }

  /** The lines for the pieces, in order. */
  function RenderLines(ps: seq<Piece>): (lines: seq<string>)
    ensures |lines| == |ps|
    ensures forall k :: 0 <= k < |ps| ==> lines[k] == LineOf(ps[k])
  {
    if |ps| == 0 then [] else [LineOf(ps[0])] + RenderLines(ps[1..])
  }

  /** The text for the pieces: their lines joined with line feeds. */
  function Render(ps: seq<Piece>): string {
    if |ps| == 0 then "" else JoinLines(RenderLines(ps))
  }

  /** The line of a renderable piece yields exactly that piece's groups. */
  lemma CapturesOfLineOf(p: Piece)
    requires Renderable(p)
    ensures '\n' !in LineOf(p)
    ensures Captures(LineOf(p)) == [GroupsOf(p)]
  {
    var c := GroupsOf(p);
    var s := LineOf(p);
    assert s == "[" + c.minutes + ":" + c.seconds + ['.'] + c.fraction + "]" + "" + c.text;
    TagLineCaptures(c.minutes, c.seconds, '.', c.fraction, "", c.text, s);
    TagLineShape(c.minutes, c.seconds, '.', c.fraction, "", c.text, s,
                 Split(1 + |c.minutes|, 2 + |c.minutes| + |c.seconds|, 3 + |c.minutes| + |c.seconds| + |c.fraction|));
  }

  /** The scan of rendered lines reports each piece's groups, in order. */
  lemma {:induction false} ByLinesOfRendered(ps: seq<Piece>)
    requires forall k :: 0 <= k < |ps| ==> Renderable(ps[k])
    ensures var cs := ByLines(RenderLines(ps));
            |cs| == |ps| && forall k :: 0 <= k < |ps| ==> cs[k] == GroupsOf(ps[k])
  {
    if |ps| > 0 {
      var lines := RenderLines(ps);
      assert lines[1..] == RenderLines(ps[1..]);
      CapturesOfLineOf(ps[0]);
      ByLinesOfRendered(ps[1..]);
    }
  }

  /** Parsing the groups of renderable pieces gives the pieces back. */
  lemma {:induction false} ParseGroups(ps: seq<Piece>, cs: seq<Capture>)
    requires forall k :: 0 <= k < |ps| ==> Renderable(ps[k])
    requires |cs| == |ps| && forall k :: 0 <= k < |ps| ==> cs[k] == GroupsOf(ps[k])
    requires forall k :: 0 <= k < |cs| ==> WellFormed(cs[k])
    ensures ParsePieces(cs) == Ok(ps)
    decreases |ps|
  {
    if |ps| > 0 {
      ParseGroup(ps[0]);
      ParseGroups(ps[1..], cs[1..]);
      assert ps == [ps[0]] + ps[1..];
    }
  }

  /** Parsing the groups of one renderable piece gives the piece back. */
  lemma ParseGroup(p: Piece)
    requires Renderable(p)
    ensures Fits(GroupsOf(p)) && ToPiece(GroupsOf(p)) == Ok(p)
  {
    ValueOfSpell(p.stamp.m as nat);
    ValueOfSpell(p.stamp.s as nat);
    ValueOfSpell(p.stamp.ms as nat);
  }

  /** Round trip: the pieces of rendered text are exactly the pieces
      rendered, for any pieces whose lyrics are renderable. */
  lemma PiecesOfRender(ps: seq<Piece>)
    requires forall k :: 0 <= k < |ps| ==> Renderable(ps[k])
    ensures Pieces(NewLyrics(Render(ps))) == Ok(ps)
  {
    var s := Render(ps);
    CapturesByLines(s);
    if |ps| == 0 {
      assert SplitLines(s) == [""];
      assert ByLines([""]) == Captures("") + ByLines([]);
    } else {
      var lines := RenderLines(ps);
      forall i | 0 <= i < |lines| ensures '\n' !in lines[i] {
        CapturesOfLineOf(ps[i]);
      }
      SplitJoinLines(lines);
      ByLinesOfRendered(ps);
    }
    ParseGroups(ps, Captures(s));
  }
}
