/** From the regex's capture groups to `(Timestamp, String)` pieces: the
    numeric groups are parsed as integers and blank texts become the music
    indicator. */
module Lyrics {
  import opened Text
  import opened Decimal
  import opened Outcomes
  import opened Timestamps
  import opened Pattern

  /** `MUSIC_INDICATOR`: the single glyph U+266A EIGHTH NOTE. */
  const MUSIC_INDICATOR: string := "\U{266A}"

  /** One timed lyric line: `(Timestamp, String)`. */
  datatype Piece = Piece(stamp: Timestamp, lyric: string)

  /** The text stored for a captured remainder: the remainder itself, not
      trimmed, unless it is blank, in which case the music indicator. */
  function LyricText(text: string): (r: string)
    // a stored text always holds something visible
    ensures !AllWhitespace(r)
    // and it is either the captured text or, for a blank one, the indicator
    ensures r == text || (AllWhitespace(text) && r == MUSIC_INDICATOR)
  {
    assert IsWhitespace(MUSIC_INDICATOR[0]) == false;
    if AllWhitespace(text) then MUSIC_INDICATOR else text
  }

  /** Every numeric group fits its field: minutes and fraction in `u32`,
      seconds in `u8`. */
  predicate Fits(c: Capture)
    requires WellFormed(c)
  {
    Value(c.minutes) < 0x1_0000_0000 && Value(c.seconds) < 0x100 && Value(c.fraction) < 0x1_0000_0000
  }

  /** One match as a piece. The fraction digits are stored as `ms` exactly as
      written, without scaling to milliseconds. */
  function ToPiece(c: Capture): (r: Result<Piece>)
    requires WellFormed(c)
    ensures r.Ok? <==> Fits(c)
    ensures r.Err? ==> r.error == NumberTooLarge
    ensures r.Ok? ==> && r.value.stamp.m as int == Value(c.minutes)
                      && r.value.stamp.s as int == Value(c.seconds)
                      && r.value.stamp.ms as int == Value(c.fraction)
                      && r.value.lyric == LyricText(c.text)
  {
    var m :- ParseU32(c.minutes);
    var s :- ParseU8(c.seconds);
    var ms :- ParseU32(c.fraction);
    Ok(Piece(New(m, s, ms), LyricText(c.text)))
  }

  /** All matches as pieces, in order; the first field that does not fit
      aborts the whole conversion. */
  function ParsePieces(cs: seq<Capture>): (r: Result<seq<Piece>>)
    requires forall k :: 0 <= k < |cs| ==> WellFormed(cs[k])
    ensures r.Ok? <==> forall k :: 0 <= k < |cs| ==> Fits(cs[k])
    ensures r.Err? ==> r.error == NumberTooLarge
    ensures r.Ok? ==> |r.value| == |cs|
    ensures r.Ok? ==> forall k :: 0 <= k < |cs| ==> ToPiece(cs[k]) == Ok(r.value[k])
    decreases |cs|
  {
    if |cs| == 0 then Ok([])
    else
      match ToPiece(cs[0])
      case Err(e) => Err(e)
      case Ok(p) =>
        match ParsePieces(cs[1..])
        case Err(e) => Err(e)
        case Ok(ps) => Ok([p] + ps)
  }
}
