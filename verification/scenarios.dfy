/** Concrete lyrics texts and what `pieces`, `at` and `deltas` make of them.
    Each lemma takes its text as a parameter pinned by `requires s == "..."`
    instead of writing the literal in the `ensures`: a literal argument makes
    the verifier unfold the recursive scanning functions on it eagerly. */
module Scenarios {
  import opened Text
  import opened Decimal
  import opened Outcomes
  import opened Timestamps
  import opened Pattern
  import opened Lyrics
  import opened Synced
  import opened Rendering
  import Timing

  /** `[01:02.345]Hello` is one piece at 1 min 2 s with fraction 345, which
      `seconds()` turns into 62. */
  lemma HelloLine(s: string)
    requires s == "[01:02.345]Hello"
    ensures Pieces(NewLyrics(s)) == Ok([Piece(New(1, 2, 345), "Hello")])
    ensures Seconds(New(1, 2, 345)) == 62
  {
    Numeral2('0', '1');
    Numeral2('0', '2');
    Numeral3('3', '4', '5');
    Visible("Hello");
    PieceOfTagLine("01", "02", '.', "345", "", "Hello", s, New(1, 2, 345));
  }

  /** The fraction is stored as the number written, not scaled to
      milliseconds: `.5` gives 5. */
  lemma FractionOneDigit(s: string)
    requires s == "[00:01.5]x"
    ensures Pieces(NewLyrics(s)) == Ok([Piece(New(0, 1, 5), "x")])
  {
    Numeral2('0', '0');
    Numeral2('0', '1');
    Numeral1('5');
    Visible("x");
    PieceOfTagLine("00", "01", '.', "5", "", "x", s, New(0, 1, 5));
  }

  /** `.500` gives 500: a different fraction from `.5`. */
  lemma FractionThreeDigits(s: string)
    requires s == "[00:01.500]x"
    ensures Pieces(NewLyrics(s)) == Ok([Piece(New(0, 1, 500), "x")])
  {
    Numeral2('0', '0');
    Numeral2('0', '1');
    Numeral3('5', '0', '0');
    Visible("x");
    PieceOfTagLine("00", "01", '.', "500", "", "x", s, New(0, 1, 500));
  }

  /** A fraction of 1000 or more carries into the seconds: `[00:01.1500]`
      is at 2 s. */
  lemma FractionCarries(s: string)
    requires s == "[00:01.1500]x"
    ensures Pieces(NewLyrics(s)) == Ok([Piece(New(0, 1, 1500), "x")])
    ensures Seconds(New(0, 1, 1500)) == 2
  {
    Numeral2('0', '0');
    Numeral2('0', '1');
    Numeral4('1', '5', '0', '0');
    Visible("x");
    PieceOfTagLine("00", "01", '.', "1500", "", "x", s, New(0, 1, 1500));
  }

  /** Spaces after the tag are skipped, other whitespace is not, and a text
      that is all whitespace becomes the music indicator. */
  lemma BlankLine(s: string)
    requires s == "[00:05.00]  \t"
    ensures Pieces(NewLyrics(s)) == Ok([Piece(New(0, 5, 0), MUSIC_INDICATOR)])
  {
    Numeral2('0', '0');
    Numeral2('0', '5');
    assert AllWhitespace("\t");
    PieceOfTagLine("00", "05", '.', "00", "  ", "\t", s, New(0, 5, 0));
  }

  /** Leading spaces are skipped but trailing ones are kept: the text is not
      trimmed. */
  lemma TrailingSpacesKept(s: string)
    requires s == "[00:01.00]  hi  "
    ensures Pieces(NewLyrics(s)) == Ok([Piece(New(0, 1, 0), "hi  ")])
  {
    Numeral2('0', '0');
    Numeral2('0', '1');
    Visible("hi  ");
    PieceOfTagLine("00", "01", '.', "00", "  ", "hi  ", s, New(0, 1, 0));
  }

  /** The separator between seconds and fraction is any character but a line
      feed, not only `.`. */
  lemma AnySeparator(s: string)
    requires s == "[00:01x50]a"
    ensures Pieces(NewLyrics(s)) == Ok([Piece(New(0, 1, 50), "a")])
  {
    Numeral2('0', '0');
    Numeral2('0', '1');
    Numeral2('5', '0');
    Visible("a");
    PieceOfTagLine("00", "01", 'x', "50", "", "a", s, New(0, 1, 50));
  }

  /** A second tag on a line is not a second piece: it is part of the text. */
  lemma LaterTagIsText(s: string)
    requires s == "[00:01.00]a[00:02.00]b"
    ensures Pieces(NewLyrics(s)) == Ok([Piece(New(0, 1, 0), "a[00:02.00]b")])
  {
    Numeral2('0', '0');
    Numeral2('0', '1');
    Visible("a[00:02.00]b");
    PieceOfTagLine("00", "01", '.', "00", "", "a[00:02.00]b", s, New(0, 1, 0));
  }

  /** With a digit where `.` would be, the seconds group gives back two
      digits: `[1:234]` is minutes 1, seconds 2, separator 3, fraction 4. */
  lemma AllDigitTag(s: string)
    requires s == "[1:234]x"
    ensures Captures(s) == [Capture("1", "2", "4", "x")]
    ensures Pieces(NewLyrics(s)) == Ok([Piece(New(1, 2, 4), "x")])
  {
    AllDigitTagCaptures(s);
    Numeral1('1');
    Numeral1('2');
    Numeral1('4');
    Visible("x");
    PieceOfCapture(s, Capture("1", "2", "4", "x"), New(1, 2, 4));
  }

  lemma AllDigitTagCaptures(s: string)
    requires s == "[1:234]x"
    ensures Captures(s) == [Capture("1", "2", "4", "x")]
  {
    var t := Split(2, 4, 6);
    SpanEndIsMaximal(s, 1, 2, IsDigit);
    SpanEndIsMaximal(s, 3, 6, IsDigit);
    SpanEndIsMaximal(s, 7, 7, IsDigit);
    assert MatchTag(s) == Some(t);
    SpanEndIsMaximal(s, 7, 8, NotNewline);
    SpanEndIsMaximal(s, 7, 7, IsSpace);
    assert MatchEnd(s, t) == 8 && TextStart(s, t) == 7;
    CapturesAtTag(s);
    CaptureOfGroups(s, t);
    assert s[1..2] == "1" && s[3..4] == "2" && s[5..6] == "4" && s[7..8] == "x" && s[8..] == [];
  }

  /** Lyrics written out from pieces at 1 s ("a") and 3 s ("b") read back
      as those pieces, and `deltas` with the initial element is [1, 2]. */
  lemma TwoLines(ps: seq<Piece>, sl: SyncedLyrics)
    requires ps == [Piece(New(0, 1, 0), "a"), Piece(New(0, 3, 0), "b")]
    requires sl == NewLyrics(Render(ps))
    ensures Pieces(sl) == Ok(ps)
    ensures Synced.Deltas(sl, true) == Ok([1, 2])
  {
    TwoLinesRoundTrip(ps);
    TwoLinesDeltas();
  }

  /** `at` 1 s on the same lyrics is already the second line, because the
      first line's own 1 s reaches it. */
  lemma TwoLinesAt(ps: seq<Piece>, sl: SyncedLyrics)
    requires ps == [Piece(New(0, 1, 0), "a"), Piece(New(0, 3, 0), "b")]
    requires sl == NewLyrics(Render(ps))
    ensures Synced.At(sl, New(0, 1, 0)) == Ok(ps[1])
  {
    TwoLinesRoundTrip(ps);
    TwoLinesAtOneSecond();
  }

  lemma TwoLinesRoundTrip(ps: seq<Piece>)
    requires ps == [Piece(New(0, 1, 0), "a"), Piece(New(0, 3, 0), "b")]
    ensures Pieces(NewLyrics(Render(ps))) == Ok(ps)
  {
    Visible("a");
    Visible("b");
    assert Renderable(ps[0]) && Renderable(ps[1]);
    PiecesOfRender(ps);
  }

  lemma TwoLinesDeltas()
    ensures var ps := [Piece(New(0, 1, 0), "a"), Piece(New(0, 3, 0), "b")];
            Timing.Deltas(ps, true) == Ok([1, 2])
  {
    var ps := [Piece(New(0, 1, 0), "a"), Piece(New(0, 3, 0), "b")];
    assert Seconds(New(0, 1, 0)) == 1;
    assert Seconds(New(0, 3, 0)) == 3;
    assert Timing.Gaps(ps) == [2];
    assert [1] + [2] == [1, 2];
  }

  lemma TwoLinesAtOneSecond()
    ensures var ps := [Piece(New(0, 1, 0), "a"), Piece(New(0, 3, 0), "b")];
            Timing.At(ps, New(0, 1, 0)) == Ok(ps[1])
  {
    var ps := [Piece(New(0, 1, 0), "a"), Piece(New(0, 3, 0), "b")];
    assert Seconds(New(0, 1, 0)) == 1;
    assert Timing.PrefixSum(ps, 1) == 1;
    assert Timing.IsThreshold(ps, 1, 1);
  }

  /** Seconds are parsed as `u8`: 256 overflows, and the whole of `pieces()`
      fails. */
  lemma SecondsOverflow(s: string)
    requires s == "[0:256.0]x"
    ensures Pieces(NewLyrics(s)) == Err(NumberTooLarge)
  {
    Numeral1('0');
    Numeral3('2', '5', '6');
    PiecesOfTagLine("0", "256", '.', "0", "", "x", s);
  }

  /** A text whose first character is visible is stored as is. */
  lemma Visible(text: string)
    requires |text| > 0 && !IsWhitespace(text[0])
    ensures LyricText(text) == text
  {
  }

  lemma Numeral1(a: char)
    requires IsDigit(a)
    ensures AllDigits([a]) && Value([a]) == DigitValue(a)
  {
    assert [a][..0] == [];
  }

  lemma Numeral2(a: char, b: char)
    requires IsDigit(a) && IsDigit(b)
    ensures AllDigits([a, b]) && Value([a, b]) == DigitValue(a) * 10 + DigitValue(b)
  {
    assert [a, b][..1] == [a];
    Numeral1(a);
  }

  lemma Numeral3(a: char, b: char, c: char)
    requires IsDigit(a) && IsDigit(b) && IsDigit(c)
    ensures AllDigits([a, b, c]) && Value([a, b, c]) == (DigitValue(a) * 10 + DigitValue(b)) * 10 + DigitValue(c)
  {
    assert [a, b, c][..2] == [a, b];
    Numeral2(a, b);
  }

  lemma Numeral4(a: char, b: char, c: char, d: char)
    requires IsDigit(a) && IsDigit(b) && IsDigit(c) && IsDigit(d)
    ensures AllDigits([a, b, c, d])
    ensures Value([a, b, c, d]) == ((DigitValue(a) * 10 + DigitValue(b)) * 10 + DigitValue(c)) * 10 + DigitValue(d)
  {
    assert [a, b, c, d][..3] == [a, b, c];
    Numeral3(a, b, c);
  }
}
