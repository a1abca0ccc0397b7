/** The two derived operations over parsed pieces: `at` (a threshold search
    over the running sum of every piece's own `seconds()`) and `deltas`
    (differences between consecutive pieces). Both index without a guard in
    the library; here the out-of-range index is an `Err`. */
module Timing {
  import opened Timestamps
  import opened Outcomes
  import opened Lyrics

  /** Sum of `seconds()` over the first `k` pieces: the `elapsed` counter of
      `at` after `k` iterations. */
  function PrefixSum(ps: seq<Piece>, k: nat): nat
    requires k <= |ps|
  {
    if k == 0 then 0 else PrefixSum(ps, k - 1) + Seconds(ps[k - 1].stamp)
  }

  /** `k` is the first count of pieces whose summed seconds reach `target`. */
  predicate IsThreshold(ps: seq<Piece>, target: nat, k: nat) {
    && k <= |ps|
    && target <= PrefixSum(ps, k)
    && forall j :: 0 <= j < k ==> PrefixSum(ps, j) < target
  }

  /** There is at most one threshold. */
  lemma ThresholdIsUnique(ps: seq<Piece>, target: nat, k: nat, k': nat)
    requires IsThreshold(ps, target, k) && IsThreshold(ps, target, k')
    ensures k == k'
  {
  }

  /** The loop of `at` from iteration `i`, `elapsed` being the sum so far. */
  function Seek(ps: seq<Piece>, target: nat, i: nat, elapsed: nat): (r: Result<Piece>)
    requires i <= |ps| && elapsed == PrefixSum(ps, i)
    requires forall j :: 0 <= j < i ==> PrefixSum(ps, j) < target
    ensures r.Ok? <==> exists k: nat :: k < |ps| && IsThreshold(ps, target, k)
    ensures forall k: nat :: k < |ps| && IsThreshold(ps, target, k) ==> r == Ok(ps[k])
    ensures r.Err? ==> r.error == IndexOutOfBounds
    decreases |ps| - i
  {
    if target <= elapsed then
      assert IsThreshold(ps, target, i);
      assert forall k: nat :: IsThreshold(ps, target, k) ==> k == i by {
        forall k: nat | IsThreshold(ps, target, k) ensures k == i {
          ThresholdIsUnique(ps, target, k, i);
        }
      }
      if i < |ps| then Ok(ps[i]) else Err(IndexOutOfBounds)
    else if i == |ps| then
      Err(IndexOutOfBounds)
    else
      Seek(ps, target, i + 1, elapsed + Seconds(ps[i].stamp))
  }

  /** `at(timestamp)` on the parsed pieces: the piece just after the shortest
      run of leading pieces whose seconds add up to at least
      `timestamp.seconds()`. It fails when that run is all of the pieces or
      when even all of them fall short. */
  function At(ps: seq<Piece>, t: Timestamp): (r: Result<Piece>)
    ensures r.Ok? <==> exists k: nat :: k < |ps| && IsThreshold(ps, Seconds(t), k)
    ensures forall k: nat :: k < |ps| && IsThreshold(ps, Seconds(t), k) ==> r == Ok(ps[k])
    ensures r.Err? ==> r.error == IndexOutOfBounds
  {
    Seek(ps, Seconds(t), 0, 0)
  }

  /** A zero-second query stops before summing anything: the first piece. */
  lemma AtZeroIsFirst(ps: seq<Piece>, t: Timestamp)
    requires |ps| >= 1 && Seconds(t) == 0
    ensures At(ps, t) == Ok(ps[0])
  {
    assert IsThreshold(ps, 0, 0);
  }

  /** With lines at 2 s ("a") and 5 s ("b"), a query at 1 s returns "b":
      the sum of the first line (2) already reaches 1, so the line after it
      is returned, not the line nearest to 1 s. A query at 8 s fails: the
      sum of both lines (7) falls short. */
  lemma AtFollowsCumulativeSum()
    ensures var ps := [Piece(New(0, 2, 0), "a"), Piece(New(0, 5, 0), "b")];
            && At(ps, New(0, 1, 0)) == Ok(ps[1])
            && At(ps, New(0, 8, 0)) == Err(IndexOutOfBounds)
  {
    var ps := [Piece(New(0, 2, 0), "a"), Piece(New(0, 5, 0), "b")];
    assert PrefixSum(ps, 1) == 2;
    assert IsThreshold(ps, 1, 1);
    assert PrefixSum(ps, 2) == 7;
  }

  /** The loop of `at` as written: add each piece's seconds until the sum
      reaches the target, then index. Indexing past the end, inside the
      loop or after it, is the failure. */
  method AtLoop(ps: seq<Piece>, t: Timestamp) returns (r: Result<Piece>)
    ensures r == At(ps, t)
  {
    var target := Seconds(t);
    var elapsed := 0;
    var i := 0;
    while elapsed < target
      invariant i <= |ps| && elapsed == PrefixSum(ps, i)
      invariant forall j :: 0 <= j < i ==> PrefixSum(ps, j) < target
      decreases |ps| - i
    {
      if i == |ps| {
        assert forall k: nat :: k < |ps| ==> !IsThreshold(ps, target, k);
        return Err(IndexOutOfBounds);
      }
      elapsed := elapsed + Seconds(ps[i].stamp);
      i := i + 1;
    }
    assert IsThreshold(ps, target, i);
    if i < |ps| {
      r := Ok(ps[i]);
    } else {
      forall k: nat | k < |ps| ensures !IsThreshold(ps, target, k) {
        if IsThreshold(ps, target, k) {
          ThresholdIsUnique(ps, target, k, i);
        }
      }
      r := Err(IndexOutOfBounds);
    }
  }

  /** Differences between consecutive pieces' seconds (the loop of `deltas`). */
  function Gaps(ps: seq<Piece>): (ds: seq<int>)
    ensures |ds| == if |ps| == 0 then 0 else |ps| - 1
    ensures forall k :: 0 <= k < |ds| ==> ds[k] == Seconds(ps[k + 1].stamp) - Seconds(ps[k].stamp)
    decreases |ps|
  {
    if |ps| < 2 then [] else [Seconds(ps[1].stamp) - Seconds(ps[0].stamp)] + Gaps(ps[1..])
  }

  /** `deltas(include_initial)` on the parsed pieces: the first piece's seconds
      when asked for, then each gap. No pieces is a failure: the library
      indexes `pieces[0]` or computes `len() - 1` on an empty vector. */
  function Deltas(ps: seq<Piece>, includeInitial: bool): (r: Result<seq<int>>)
    ensures r.Err? <==> |ps| == 0
    ensures r.Err? ==> r.error == IndexOutOfBounds
    ensures r.Ok? ==> |r.value| == |ps| - 1 + (if includeInitial then 1 else 0)
    ensures r.Ok? && includeInitial ==> r.value[0] == Seconds(ps[0].stamp)
    ensures r.Ok? ==> var off := if includeInitial then 1 else 0;
                      forall k :: 0 <= k < |ps| - 1 ==>
                        r.value[k + off] == Seconds(ps[k + 1].stamp) - Seconds(ps[k].stamp)
  {
    if |ps| == 0 then Err(IndexOutOfBounds)
    else if includeInitial then Ok([Seconds(ps[0].stamp)] + Gaps(ps))
    else Ok(Gaps(ps))
  }

  /** The loop of `deltas` as written: `pieces[0]` first when asked for,
      then one difference per `i < len() - 1`. On no pieces the first index
      or the `len() - 1` underflow is the failure. */
  method DeltasLoop(ps: seq<Piece>, includeInitial: bool) returns (r: Result<seq<int>>)
    ensures r == Deltas(ps, includeInitial)
  {
    if |ps| == 0 {
      return Err(IndexOutOfBounds);
    }
    var off := if includeInitial then 1 else 0;
    var ds: seq<int> := if includeInitial then [Seconds(ps[0].stamp)] else [];
    var i := 0;
    while i < |ps| - 1
      invariant 0 <= i <= |ps| - 1
      invariant |ds| == off + i
      invariant includeInitial ==> ds[0] == Seconds(ps[0].stamp)
      invariant forall k :: 0 <= k < i ==> ds[off + k] == Seconds(ps[k + 1].stamp) - Seconds(ps[k].stamp)
    {
      ds := ds + [Seconds(ps[i + 1].stamp) - Seconds(ps[i].stamp)];
      i := i + 1;
    }
    ghost var want := Deltas(ps, includeInitial).value;
    forall k | 0 <= k < |ds| ensures ds[k] == want[k] {
      if k >= off {
        var j := k - off;
        assert want[j + off] == Seconds(ps[j + 1].stamp) - Seconds(ps[j].stamp);
        assert ds[off + j] == Seconds(ps[j + 1].stamp) - Seconds(ps[j].stamp);
      }
    }
    assert ds == want;
    r := Ok(ds);
  }

  function Sum(xs: seq<int>): int
    decreases |xs|
  {
    if |xs| == 0 then 0 else Sum(xs[..|xs| - 1]) + xs[|xs| - 1]
  }

  /** Deltas with the initial element are a schedule: waiting each delta in
      turn arrives at each piece's own time. */
  lemma {:induction false} DeltasRebuildTimes(ps: seq<Piece>, k: nat)
    requires k < |ps|
    ensures Deltas(ps, true).Ok?
    ensures Sum(Deltas(ps, true).value[..k + 1]) == Seconds(ps[k].stamp)
  {
    var ds := Deltas(ps, true).value;
    if k > 0 {
      DeltasRebuildTimes(ps, k - 1);
      assert ds[..k + 1][..k] == ds[..k];
      assert ds[k] == Seconds(ps[k].stamp) - Seconds(ps[k - 1].stamp);
    } else {
      assert ds[..1][..0] == [];
    }
  }

  /** Telescoping: with the initial element the deltas add up to the last
      piece's seconds; without it, to the last minus the first. */
  lemma DeltasTelescope(ps: seq<Piece>)
    requires |ps| >= 1
    ensures Sum(Deltas(ps, true).value) == Seconds(ps[|ps| - 1].stamp)
    ensures Sum(Deltas(ps, false).value) == Seconds(ps[|ps| - 1].stamp) - Seconds(ps[0].stamp)
  {
    var ds := Deltas(ps, true).value;
    DeltasRebuildTimes(ps, |ps| - 1);
    assert ds[..|ps|] == ds;
    SumOfTail(ds);
    assert ds[1..] == Deltas(ps, false).value;
  }

  /** Dropping the first element of a sequence takes it off the sum. */
  lemma {:induction false} SumOfTail(xs: seq<int>)
    requires |xs| >= 1
    ensures Sum(xs[1..]) == Sum(xs) - xs[0]
    decreases |xs|
  {
    if |xs| > 1 {
      var ys := xs[..|xs| - 1];
      SumOfTail(ys);
      assert ys[1..] == xs[1..][..|xs| - 2];
    }
  }

  /** With lines at 2, 5 and 9 seconds the deltas are [2, 3, 4], or [3, 4]
      without the initial element; a single line without it gives []. */
  lemma DeltasOfThreeLines()
    ensures var ps := [Piece(New(0, 2, 0), "a"), Piece(New(0, 5, 0), "b"), Piece(New(0, 9, 0), "c")];
            && Deltas(ps, true) == Ok([2, 3, 4])
            && Deltas(ps, false) == Ok([3, 4])
            && Deltas(ps[..1], false) == Ok([])
  {
    var ps := [Piece(New(0, 2, 0), "a"), Piece(New(0, 5, 0), "b"), Piece(New(0, 9, 0), "c")];
    assert Seconds(ps[0].stamp) == 2;
    assert Gaps(ps) == [3, 4];
    assert [2] + [3, 4] == [2, 3, 4];
    assert |ps[..1]| == 1;
  }
}
