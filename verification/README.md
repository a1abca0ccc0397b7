# tlyrics synced-lyrics time model in Dafny

tlyrics is a Rust client for a lyrics service. Its one piece of non-I/O logic
is the handling of synced lyrics, which are LRC-style text with lines such as
`[01:02.34] some words`. This project models that logic and proves properties
of it:

- `Timestamp` is a value of minutes, seconds and a "milliseconds" field.
  `Timestamp::new` builds one and `seconds()` converts it to whole seconds.
- `SyncedLyrics` holds the raw text. It answers three queries:
  - `pieces()` scans the text with the regex `\[(\d+):(\d+).(\d+)\][ ]*(.*)`
    and returns one `(Timestamp, String)` per match;
  - `at(timestamp)` is a threshold search over the running sum of the
    pieces' own seconds;
  - `deltas(include_initial)` returns the differences between consecutive
    pieces.
- `MUSIC_INDICATOR` (`♪`) replaces a lyric whose text is blank.

The modules follow that structure:

- `Timestamps` (timestamp.dfy): the `u8`/`u32` field widths, `New` and
  `Seconds`.
- `Text` and `Decimal`: character classes, line splitting, and digit strings
  as `parse::<u8>()` and `parse::<u32>()` read them.
- `Pattern`: the regex. It is modelled over the whole raw text with Rust
  regex semantics:
  - matching is leftmost-first;
  - the seconds group is greedy;
  - `.` matches anything but `\n`;
  - `captures_iter` resumes at the end of each match.

  It is then proved to be the same as scanning each line on its own, with at
  most one match per line.
- `Lyrics`: from capture groups to pieces.
- `Synced`: the `SyncedLyrics` type and its three queries.
- `Timing`: `at` and `deltas` over parsed pieces. Each is given twice: as a
  declarative function, and as the library's loop with a proof that the two
  agree.
- `Rendering`: a writer for pieces and the round trip. Reading the rendered
  text back gives the pieces.
- `Scenarios`: concrete texts and what the queries return on them.

A panic in the library (`unwrap` on a parse error, an index past the end)
becomes `Err` of an `Outcomes.Result`. The error value says which kind of
failure it was.

Three details of the code that the model keeps:

- The separator between seconds and fraction is an unescaped `.`, so any
  character except a line feed is accepted (for example `[00:01x50]`).
- Only ASCII spaces are skipped after the tag (`[ ]*`), not all whitespace.
- `Timestamp::new(1, 2, 345).seconds()` is 62: the fraction is divided by
  1000 in integer arithmetic before it is added.

## Model

| member | source | states |
|---|---|---|
| Timestamps.New | src/lib.rs:55-57 | every `(m, s, ms)` is accepted with no range check and stored unchanged |
| Timestamps.Seconds | src/lib.rs:59-61 | the result is the exact position `(m*60+s)*1000+ms` milliseconds, rounded down to whole seconds; when `ms < 1000` it contributes nothing, so the result is `m*60+s` |
| Timestamps.SecondsOfOneTwoThreeFortyFive | src/lib.rs:59-61 | `(1, 2, 345)` is 62 seconds |
| Lyrics.LyricText | src/lib.rs:89-94 | the stored text always holds a non-whitespace character; it is the captured text untrimmed, or `MUSIC_INDICATOR` exactly when the captured text is all whitespace |
| Decimal.ParseU32 | src/lib.rs:84 | `Ok` exactly when the digit string's value is below 2^32, carrying that value; otherwise `NumberTooLarge` |
| Decimal.ParseU8 | src/lib.rs:85 | `Ok` exactly when the value is below 256, carrying that value; otherwise `NumberTooLarge` |
| Decimal.ValueOfSpell | src/lib.rs:84-86 | reading back the canonical decimal spelling of `n` gives `n` |
| Decimal.ValueIgnoresLeadingZeros | src/lib.rs:84-86 | leading zeros do not change the parsed value |
| Decimal.AllZerosValue | src/lib.rs:84-86 | a string of zeros parses as 0 |
| Pattern.MatchTag | src/lib.rs:78 | a reported tag is a split that `\[(\d+):(\d+).(\d+)\]` admits at the start of the text |
| Pattern.MatchTagIsLeftmostFirst | src/lib.rs:78 | whenever the pattern admits some split, a tag is reported; it has the same minutes group and the longest seconds group admitted, which is leftmost-first greedy choice |
| Pattern.TextStart | src/lib.rs:78 | the text group starts after exactly the run of ASCII spaces `[ ]*` that follows the tag, and not past the line end |
| Pattern.CaptureOf | src/lib.rs:78 | the three numeric groups are non-empty ASCII digit strings; the text group holds no line feed and does not start with a space |
| Pattern.CaptureRespells | src/lib.rs:78 | the groups spell the matched text back: the tag is its groups with `[`, `:`, the separator and `]` between them, and the rest of the match is spaces followed by the text group |
| Pattern.Captures | src/lib.rs:80-98 | every match of `captures_iter` has well-formed groups and a single-line text; a text without `[` has no match |
| Pattern.CaptureOfLine | src/lib.rs:78 | a tag's groups and match end on a line are unchanged by whatever follows the line feed |
| Pattern.MatchTagOfLine | src/lib.rs:78 | whether a tag starts at a position depends only on that line |
| Pattern.CapturesOfLine | src/lib.rs:80 | scanning `line + "\n" + rest` gives the line's matches followed by those of `rest` |
| Pattern.CapturesByLines | src/lib.rs:80-98 | the matches of the whole text are the matches of each `\n`-separated line in turn, in source order |
| Pattern.AtMostOneCapturePerLine | src/lib.rs:78-80 | a line yields at most one match, and exactly one when some position of it starts a tag |
| Pattern.LeftmostTagOfLine | src/lib.rs:78-80 | a line's match comes from its leftmost tag, and its text runs to the end of the line, so later tags belong to the text |
| Pattern.CaptureCount | src/lib.rs:77-98 | the number of matches equals the number of lines that hold a tag |
| Text.SplitLines | src/lib.rs:78 | splitting at line feeds gives at least one line, and no line holds a line feed |
| Text.JoinSplitLines | src/lib.rs:78 | rejoining the lines with line feeds gives the text back |
| Text.SplitJoinLines | src/lib.rs:78 | splitting undoes joining for lines that hold no line feed |
| Lyrics.ToPiece | src/lib.rs:82-96 | a match becomes a piece exactly when minutes and fraction fit `u32` and seconds fits `u8`; the fields are the groups' values (the fraction is not scaled) and the lyric is `LyricText` of the text group; otherwise `NumberTooLarge` |
| Lyrics.ParsePieces | src/lib.rs:80-98 | all matches become pieces, in order and one each, exactly when every match fits; otherwise the whole result is `NumberTooLarge` |
| Synced.NewLyrics | src/lib.rs:72-74 | the raw text is stored as given |
| Synced.Pieces | src/lib.rs:77-99 | `Ok` exactly when every match fits, and then holds one piece per line with a tag, each lyric single-line and not blank; fails only with `NumberTooLarge`; no `[` gives no pieces |
| Synced.At | src/lib.rs:103-116 | fails with `NumberTooLarge` when parsing fails; otherwise is the threshold search over the parsed pieces, and succeeds exactly when some parsed piece is the threshold for the query's seconds |
| Synced.Deltas | src/lib.rs:121-136 | fails with `NumberTooLarge` when parsing fails, otherwise is the differences over the parsed pieces; fails exactly when parsing fails or no line holds a tag; otherwise yields one value per tagged line less one, plus one for the initial offset |
| Timing.Seek | src/lib.rs:105-113 | from iteration `i` of the loop, the result is the piece at the unique threshold count (the first count of pieces whose summed seconds reach the target) if it is below the number of pieces; otherwise `IndexOutOfBounds` |
| Timing.At | src/lib.rs:103-116 | `Ok(ps[k])` for the threshold count `k` when `k` is a valid index; `IndexOutOfBounds` when the threshold is the piece count or no threshold exists |
| Timing.AtLoop | src/lib.rs:104-115 | the library's `while elapsed < seconds` loop, including the index inside the loop, computes `Timing.At` |
| Timing.AtZeroIsFirst | src/lib.rs:108 | a query at 0 seconds returns the first piece |
| Timing.AtFollowsCumulativeSum | src/lib.rs:108-113 | with lines at 2 s and 5 s, a query at 1 s returns the second line (the piece after the summed ones), and 8 s fails |
| Timing.Gaps | src/lib.rs:129-133 | one element per consecutive pair, equal to the later piece's seconds minus the earlier one's |
| Timing.Deltas | src/lib.rs:121-136 | fails exactly on no pieces; otherwise the length is `L-1` plus one with `include_initial`; the first piece's seconds come first when asked for, then each consecutive difference |
| Timing.DeltasLoop | src/lib.rs:122-135 | the library's push loop computes `Timing.Deltas`, and no pieces is the failure |
| Timing.DeltasRebuildTimes | src/lib.rs:125-133 | with the initial element, the first `k+1` deltas add up to piece `k`'s seconds |
| Timing.DeltasTelescope | src/lib.rs:125-133 | with the initial element the deltas sum to the last piece's seconds; without it, to the last minus the first |
| Timing.DeltasOfThreeLines | src/lib.rs:125-133 | lines at 2, 5 and 9 s give `[2, 3, 4]`, or `[3, 4]` without the initial element; a single line without it gives `[]` |
| Rendering.TagLineCaptures | src/lib.rs:78-80 | a line `[m:sec<sep>f]` + spaces + text, with a non-digit separator, yields exactly one match with groups `m`, `sec`, `f` and the text |
| Rendering.PiecesOfTagLine | src/lib.rs:77-99 | `pieces()` of such a single line is one piece when the groups fit, and `NumberTooLarge` otherwise |
| Rendering.PieceOfTagLine | src/lib.rs:77-99 | when the groups denote a timestamp's fields, that line's piece is that timestamp with `LyricText` of the text |
| Rendering.PieceOfCapture | src/lib.rs:80-98 | a text with a single match whose groups denote a timestamp's fields has that one piece |
| Rendering.OneLineOneTag | src/lib.rs:78-80 | a single line that starts with a tag with a non-digit separator yields exactly that tag's groups, and the match runs to the line end |
| Rendering.CapturesOfLineOf | src/lib.rs:78-80 | the written line of a renderable piece yields exactly its groups |
| Rendering.ByLinesOfRendered | src/lib.rs:80-98 | scanning the written lines gives each piece's groups in order |
| Rendering.ParseGroups | src/lib.rs:82-96 | parsing the groups of renderable pieces gives the pieces back |
| Rendering.PiecesOfRender | src/lib.rs:77-99 | round trip: `pieces()` of the rendered text is exactly the rendered pieces, for pieces whose lyric is one line, not blank, and not led by a space |
| Scenarios.HelloLine | src/lib.rs:77-99 | `[01:02.345]Hello` is one piece `(1, 2, 345)` with lyric `Hello`, at 62 s |
| Scenarios.FractionOneDigit | src/lib.rs:86 | `[00:01.5]x` stores `ms = 5` |
| Scenarios.FractionThreeDigits | src/lib.rs:86 | `[00:01.500]x` stores `ms = 500` |
| Scenarios.FractionCarries | src/lib.rs:60 | `[00:01.1500]x` stores `ms = 1500`, which is at 2 s |
| Scenarios.BlankLine | src/lib.rs:89-94 | the spaces after `[00:05.00]` are skipped, a tab remains, and that blank text becomes `MUSIC_INDICATOR` |
| Scenarios.TrailingSpacesKept | src/lib.rs:89-94 | leading spaces are dropped and trailing ones kept: `"hi  "` |
| Scenarios.AnySeparator | src/lib.rs:78 | `[00:01x50]a` is a tag: the separator is any character |
| Scenarios.LaterTagIsText | src/lib.rs:78-80 | a second tag on a line is part of the first one's text |
| Scenarios.AllDigitTag | src/lib.rs:78 | `[1:234]x` matches with seconds `2`, separator `3` and fraction `4` |
| Scenarios.AllDigitTagCaptures | src/lib.rs:78 | the groups of `[1:234]x` are `1`, `2`, `4` and `x` |
| Scenarios.SecondsOverflow | src/lib.rs:85 | `[0:256.0]x` makes the whole of `pieces()` fail with `NumberTooLarge` |
| Scenarios.TwoLines | src/lib.rs:121-136 | lyrics written from pieces at 1 s and 3 s read back as those pieces, with `deltas(true)` = `[1, 2]` |
| Scenarios.TwoLinesAt | src/lib.rs:103-116 | on those lyrics, `at` 1 s is already the second line |
| Scenarios.TwoLinesRoundTrip | src/lib.rs:77-99 | those two pieces survive writing and reading back |
| Scenarios.TwoLinesDeltas | src/lib.rs:125-133 | pieces at 1 s and 3 s have deltas `[1, 2]` with the initial element |
| Scenarios.TwoLinesAtOneSecond | src/lib.rs:108-113 | on those pieces, `at` 1 s is the second piece |

`MUSIC_INDICATOR` (src/lib.rs:5) is `Lyrics.MUSIC_INDICATOR`, the single
character U+266A. A function's result depends only on its arguments, so
repeated calls of `pieces()` on the same lyrics give the same result.

## Left out

- `Track`, the serde field mapping and the `Deserialize` impl for
  `SyncedLyrics`: they are JSON decoding glue, not lyrics logic.
- `search` and `get_by_id`: HTTP requests and async I/O. The binaries under
  `examples/` only call these and print the results.
- Timestamps.Seconds: the result is an unbounded `nat`. The library's `u32`
  expression `m * 60 + ...` overflows for minutes above about 71 million,
  which panics in a debug build and wraps in a release build. That is not
  modelled.
- Timestamps.Seconds, Timing.At, Timing.Deltas: `f32` is modelled as exact
  integers. Every value is a whole number, and whole numbers are exact in
  `f32` below 2^24. Rounding of `at`'s running `f32` sum and of the
  differences above that bound is not modelled.
- Pattern.MatchTag: `\d` matches only ASCII digits here. Rust's `\d` also
  matches other Unicode decimal digits, and then the `parse` panics. In the
  model a non-ASCII digit ends the minutes, seconds or fraction run, or
  becomes the separator, so the model reads a different tag, or none, where
  the library would panic (for example `[1:2\u{663}45]x` is read as
  `(1, 2, 45)`).
- Lyrics.LyricText: whitespace is Rust's `char::is_whitespace` (Unicode
  White_Space), written out as a fixed list of code points.
- Timing.Deltas: on no pieces without `include_initial`, the library
  computes `0 - 1` in `usize`. A debug build panics on the underflow; a
  release build wraps and then panics at `pieces[1]`. Both are modelled as
  the same `IndexOutOfBounds` failure.
- Regex compilation on every call of `pieces()`: a performance matter only.
