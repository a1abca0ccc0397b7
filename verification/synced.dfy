/** `SyncedLyrics`: the raw text from the lyrics service and the three
    queries on it. Every query re-parses the raw text; nothing is cached. */
module Synced {
  import opened Text
  import opened Outcomes
  import opened Timestamps
  import opened Pattern
  import opened Lyrics
  import Timing

  datatype SyncedLyrics = SyncedLyrics(raw: string)

  /** `SyncedLyrics::new`: owns the raw text as given. */
  function NewLyrics(raw: string): (sl: SyncedLyrics)
    ensures sl.raw == raw
  {
    SyncedLyrics(raw)
  }

  /** `pieces()`: one piece per line of the raw text that holds a tag, in
      order; fails as a whole when any numeric group overflows its field. */
  function Pieces(sl: SyncedLyrics): (r: Result<seq<Piece>>)
    ensures r.Ok? <==> forall k :: 0 <= k < |Captures(sl.raw)| ==> Fits(Captures(sl.raw)[k])
    ensures r.Err? ==> r.error == NumberTooLarge
    ensures r.Ok? ==> |r.value| == CountTagged(SplitLines(sl.raw))
    ensures r.Ok? ==> forall k :: 0 <= k < |r.value| ==>
                        !AllWhitespace(r.value[k].lyric) && '\n' !in r.value[k].lyric
    ensures '[' !in sl.raw ==> r == Ok([])
  {
    CaptureCount(sl.raw);
    ParsePieces(Captures(sl.raw))
  }

  /** `at(timestamp)`: the threshold search over freshly parsed pieces. */
  function At(sl: SyncedLyrics, t: Timestamp): (r: Result<Piece>)
    ensures Pieces(sl).Err? ==> r == Err(NumberTooLarge)
    ensures Pieces(sl).Ok? ==> r == Timing.At(Pieces(sl).value, t)
    ensures Pieces(sl).Ok? ==>
              var ps := Pieces(sl).value;
              (r.Ok? <==> exists k: nat :: k < |ps| && Timing.IsThreshold(ps, Seconds(t), k))
  {
    var ps :- Pieces(sl);
    Timing.At(ps, t)
  }

  /** `deltas(include_initial)` over freshly parsed pieces. */
  function Deltas(sl: SyncedLyrics, includeInitial: bool): (r: Result<seq<int>>)
    ensures Pieces(sl).Err? ==> r == Err(NumberTooLarge)
    ensures Pieces(sl).Ok? ==> r == Timing.Deltas(Pieces(sl).value, includeInitial)
    ensures r.Err? <==> Pieces(sl).Err? || CountTagged(SplitLines(sl.raw)) == 0
    ensures r.Ok? ==> |r.value| == CountTagged(SplitLines(sl.raw)) - 1 + (if includeInitial then 1 else 0)
  {
    var ps :- Pieces(sl);
    Timing.Deltas(ps, includeInitial)
  }
}
