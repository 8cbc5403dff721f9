/** `findQualityForKB` in src/components/PhotoEditor.tsx: a bisection over the JPEG quality that
    makes at most five trial encodes, keeps the trial whose size in KB is closest to the target,
    stops on an exact hit, and falls back to one encode at the minimum quality when no trial
    produced a blob. */
module QualitySearch {
  import opened Wrappers

  /** The canvas's JPEG encoder: the byte count of the blob `toBlob` yields at a quality, or
      `None` when it yields `null`. The same canvas encodes the same way every time. */
  type Codec = real -> Option<nat>

  const MIN_QUALITY: real := 0.1
  const MAX_QUALITY: real := 1.0
  const MAX_TRIALS: nat := 5
  /** The interval width below which the search counts as converged. */
  const CONVERGED_WIDTH: real := 0.02

  /** `Math.max(1, Math.round(size / 1024))`: a blob's size in whole KB, never below 1. */
  function SizeKB(bytes: nat): (r: int)
    ensures r >= 1
    ensures bytes >= 512 ==> (r - 1) * 1024 + 512 <= bytes < r * 1024 + 512
    ensures bytes < 512 ==> r == 1
  {
    var rounded := (bytes + 512) / 1024;
    if rounded < 1 then 1 else rounded
  }

  function Abs(x: int): nat { if x < 0 then -x else x }

  /** The measured size at a quality, if the codec produced a blob there. */
  function Measure(encode: Codec, q: real): Option<int>
  {
    match encode(q)
    case None => None
    case Some(bytes) => Some(SizeKB(bytes))
  }

  /** The distance of a successful trial's size from the target. */
  function Diff(encode: Codec, target: int, q: real): nat
    requires encode(q).Some?
  {
    Abs(SizeKB(encode(q).value) - target)
  }

  // ---------------------------------------------------------------------------------------------
  // The trials, as a specification

  /** The quality interval `[low, high]` the search narrows. */
  datatype Interval = Interval(low: real, high: real)

  function Mid(iv: Interval): real { (iv.low + iv.high) / 2.0 }

  /** A trial ends the search when it measured the target exactly or the interval had converged. */
  predicate Stops(iv: Interval, measured: Option<int>, target: int)
  {
    measured.Some? && (measured.value == target || iv.high - iv.low < CONVERGED_WIDTH)
  }

  /** The interval after a trial at its midpoint that did not stop the search: unchanged after a
      null blob, `high` lowered to the midpoint after a size above the target, `low` raised to
      the midpoint after any other size. */
  function Narrow(iv: Interval, measured: Option<int>, target: int): (r: Interval)
    ensures iv.low < iv.high ==> iv.low <= r.low < r.high <= iv.high
    ensures measured.Some? ==> r.high - r.low == (iv.high - iv.low) / 2.0
    ensures measured.None? ==> r == iv
  {
    match measured
    case None => iv
    case Some(size) => if size > target then Interval(iv.low, Mid(iv)) else Interval(Mid(iv), iv.high)
  }

  /** The qualities tried from interval `iv` with `fuel` trials left. */
  function Trials(encode: Codec, target: int, iv: Interval, fuel: nat): seq<real>
    decreases fuel
  {
    if fuel == 0 then []
    else
      var measured := Measure(encode, Mid(iv));
      if Stops(iv, measured, target) then [Mid(iv)]
      else [Mid(iv)] + Trials(encode, target, Narrow(iv, measured, target), fuel - 1)
  }

  const START: Interval := Interval(MIN_QUALITY, MAX_QUALITY)

  /** The trials of one search, from the full quality range. */
  function SearchTrials(encode: Codec, target: int): seq<real>
  {
    Trials(encode, target, START, MAX_TRIALS)
  }

  /** Trial `j` of the list `t` produced a blob. */
  predicate Succeeded(encode: Codec, t: seq<real>, j: int)
  {
    0 <= j < |t| && encode(t[j]).Some?
  }

  /** The distance of trial `j`'s size from the target. */
  function DiffAt(encode: Codec, target: int, t: seq<real>, j: int): nat
    requires Succeeded(encode, t, j)
  {
    Diff(encode, target, t[j])
  }

  predicate AnySucceeded(encode: Codec, t: seq<real>)
  {
    exists j :: 0 <= j < |t| && Succeeded(encode, t, j)
  }

  /** Trial `k` produced a blob, no trial came closer to the target, and every earlier trial
      was strictly farther away: the trial the search keeps. */
  predicate IsEarliestClosest(encode: Codec, target: int, t: seq<real>, k: int)
  {
    && Succeeded(encode, t, k)
    && (forall j :: 0 <= j < |t| && Succeeded(encode, t, j) ==> DiffAt(encode, target, t, k) <= DiffAt(encode, target, t, j))
    && (forall j :: 0 <= j < k && Succeeded(encode, t, j) ==> DiffAt(encode, target, t, k) < DiffAt(encode, target, t, j))
  }

  // ---------------------------------------------------------------------------------------------
  // The loop's state, step by step

  /** The trial kept so far: its distance from the target (`None` standing for +Infinity until a
      trial produces a blob), its quality, its size in KB and its position among the trials. */
  datatype Kept = Kept(diff: Option<nat>, quality: real, size: int, index: nat)

  /** The state of the loop: the interval, the kept trial, the number of trials made, and whether
      a trial has stopped the search. */
  datatype Search = Search(iv: Interval, kept: Kept, count: nat, stopped: bool)

  const NOTHING_KEPT: Kept := Kept(None, MIN_QUALITY, 0, 0)
  const BEGIN: Search := Search(START, NOTHING_KEPT, 0, false)

  /** The kept trial after a trial at quality `q`: replaced only by a blob strictly closer to the
      target, so that ties keep the earlier trial. */
  function Keep(encode: Codec, target: int, kept: Kept, q: real, index: nat): (r: Kept)
    ensures r == kept || (encode(q).Some? && r.index == index && r.quality == q)
    ensures encode(q).None? ==> r == kept
  {
    match encode(q)
    case None => kept
    case Some(bytes) =>
      var diff := Abs(SizeKB(bytes) - target);
      if kept.diff.None? || diff < kept.diff.value then Kept(Some(diff), q, SizeKB(bytes), index) else kept
  }

  /** One pass of the loop: a trial at the midpoint of the interval. */
  function Step(encode: Codec, target: int, s: Search): (r: Search)
    ensures r.count == s.count + 1
    ensures r.stopped ==> r.iv == s.iv
  {
    var measured := Measure(encode, Mid(s.iv));
    var stop := Stops(s.iv, measured, target);
    Search(if stop then s.iv else Narrow(s.iv, measured, target),
           Keep(encode, target, s.kept, Mid(s.iv), s.count), s.count + 1, stop)
  }

  /** `n` passes of the loop, or fewer when a trial stops the search. */
  function Run(encode: Codec, target: int, s: Search, n: nat): (r: Search)
    ensures s.count <= r.count <= s.count + n
    decreases n
  {
    if n == 0 || s.stopped then s else Run(encode, target, Step(encode, target, s), n - 1)
  }

  /** Pass `n + 1` of the loop is one more step after the first `n`, unless they stopped. */
  lemma {:induction false} RunLast(encode: Codec, target: int, s: Search, n: nat)
    requires !Run(encode, target, s, n).stopped
    ensures Run(encode, target, s, n + 1) == Step(encode, target, Run(encode, target, s, n))
    decreases n
  {
    if n > 0 {
      RunLast(encode, target, Step(encode, target, s), n - 1);
    }
  }

  /** Once a trial has stopped the search, further passes change nothing. */
  lemma {:induction false} RunStays(encode: Codec, target: int, s: Search, n: nat, m: nat)
    requires n <= m && Run(encode, target, s, n).stopped
    ensures Run(encode, target, s, m) == Run(encode, target, s, n)
    decreases n
  {
    if n > 0 && !s.stopped {
      RunStays(encode, target, Step(encode, target, s), n - 1, m - 1);
    }
  }

  // ---------------------------------------------------------------------------------------------
  // The kept trial is the earliest closest one

  /** A trial of a longer list that lies in its prefix is the same trial of the prefix. */
  lemma PrefixTrial(encode: Codec, target: int, tried: seq<real>, mid: real, j: int)
    requires 0 <= j < |tried|
    ensures Succeeded(encode, tried + [mid], j) == Succeeded(encode, tried, j)
    ensures Succeeded(encode, tried, j) ==> DiffAt(encode, target, tried + [mid], j) == DiffAt(encode, target, tried, j)
  {
    assert (tried + [mid])[j] == tried[j];
  }

  /** What the kept trial says about the trials made: nothing kept (and the initial quality and
      size) until a trial produces a blob, and afterwards the earliest closest trial. */
  predicate Tracked(encode: Codec, target: int, tried: seq<real>, kept: Kept)
  {
    && (kept.diff.None? <==> !AnySucceeded(encode, tried))
    && (kept.diff.None? ==> kept.quality == MIN_QUALITY && kept.size == 0)
    && (kept.diff.Some? ==>
          && IsEarliestClosest(encode, target, tried, kept.index)
          && kept.quality == tried[kept.index]
          && kept.size == SizeKB(encode(tried[kept.index]).value)
          && kept.diff.value == DiffAt(encode, target, tried, kept.index))
  }

  /** A trial without a blob leaves the kept trial in place. */
  lemma TrackFailedTrial(encode: Codec, target: int, tried: seq<real>, kept: Kept, mid: real)
    requires Tracked(encode, target, tried, kept) && encode(mid).None?
    ensures Tracked(encode, target, tried + [mid], kept)
  {
    var t := tried + [mid];
    forall j | 0 <= j < |t| ensures Succeeded(encode, t, j) == Succeeded(encode, tried, j) {
      if j < |tried| { PrefixTrial(encode, target, tried, mid, j); }
    }
    if kept.diff.Some? {
      PrefixTrial(encode, target, tried, mid, kept.index);
      forall j | 0 <= j < |t| && Succeeded(encode, t, j)
        ensures DiffAt(encode, target, t, kept.index) <= DiffAt(encode, target, t, j)
      {
        PrefixTrial(encode, target, tried, mid, j);
      }
      forall j | 0 <= j < kept.index && Succeeded(encode, t, j)
        ensures DiffAt(encode, target, t, kept.index) < DiffAt(encode, target, t, j)
      {
        PrefixTrial(encode, target, tried, mid, j);
      }
    }
  }

  /** A successful trial no closer than the kept one leaves the kept one in place. */
  lemma TrackNoCloserTrial(encode: Codec, target: int, tried: seq<real>, kept: Kept, mid: real)
    requires Tracked(encode, target, tried, kept)
    requires encode(mid).Some? && kept.diff.Some? && kept.diff.value <= Diff(encode, target, mid)
    ensures Tracked(encode, target, tried + [mid], kept)
  {
    var t := tried + [mid];
    assert Succeeded(encode, t, |tried|);
    PrefixTrial(encode, target, tried, mid, kept.index);
    forall j | 0 <= j < |t| && Succeeded(encode, t, j)
      ensures DiffAt(encode, target, t, kept.index) <= DiffAt(encode, target, t, j)
    {
      if j < |tried| { PrefixTrial(encode, target, tried, mid, j); }
    }
    forall j | 0 <= j < kept.index && Succeeded(encode, t, j)
      ensures DiffAt(encode, target, t, kept.index) < DiffAt(encode, target, t, j)
    {
      PrefixTrial(encode, target, tried, mid, j);
    }
  }

  /** A successful trial strictly closer than every earlier one becomes the kept one. */
  lemma TrackCloserTrial(encode: Codec, target: int, tried: seq<real>, kept: Kept, mid: real)
    requires Tracked(encode, target, tried, kept)
    requires encode(mid).Some? && (kept.diff.None? || Diff(encode, target, mid) < kept.diff.value)
    ensures Tracked(encode, target, tried + [mid],
                    Kept(Some(Diff(encode, target, mid)), mid, SizeKB(encode(mid).value), |tried|))
  {
    var t := tried + [mid];
    assert Succeeded(encode, t, |tried|) && t[|tried|] == mid;
    forall j | 0 <= j < |tried| && Succeeded(encode, t, j)
      ensures DiffAt(encode, target, t, |tried|) < DiffAt(encode, target, t, j)
    {
      PrefixTrial(encode, target, tried, mid, j);
      if kept.diff.Some? {
        assert DiffAt(encode, target, tried, kept.index) <= DiffAt(encode, target, tried, j);
      } else {
        assert false;
      }
    }
  }

  /** Keeping a trial the way the loop does keeps the earliest closest trial. */
  lemma KeepTracks(encode: Codec, target: int, tried: seq<real>, kept: Kept, mid: real)
    requires Tracked(encode, target, tried, kept)
    ensures Tracked(encode, target, tried + [mid], Keep(encode, target, kept, mid, |tried|))
  {
    if encode(mid).None? {
      TrackFailedTrial(encode, target, tried, kept, mid);
    } else if kept.diff.None? || Diff(encode, target, mid) < kept.diff.value {
      TrackCloserTrial(encode, target, tried, kept, mid);
    } else {
      TrackNoCloserTrial(encode, target, tried, kept, mid);
    }
  }

  /** Running the loop from a state that tracks the trials made so far makes the trials
      `Trials` lists and keeps the earliest closest of all of them. */
  lemma {:induction false} RunTracks(encode: Codec, target: int, done: seq<real>, s: Search, n: nat)
    requires !s.stopped && s.count == |done| && Tracked(encode, target, done, s.kept)
    ensures var r := Run(encode, target, s, n);
      var t := done + Trials(encode, target, s.iv, n);
      Tracked(encode, target, t, r.kept) && r.count == |t|
    decreases n
  {
    if n == 0 {
      assert done + [] == done;
    } else {
      var mid := Mid(s.iv);
      var next := Step(encode, target, s);
      KeepTracks(encode, target, done, s.kept, mid);
      if next.stopped {
        assert Run(encode, target, next, n - 1) == next;
        assert Trials(encode, target, s.iv, n) == [mid];
      } else {
        RunTracks(encode, target, done + [mid], next, n - 1);
        var later := Trials(encode, target, next.iv, n - 1);
        assert Trials(encode, target, s.iv, n) == [mid] + later;
        assert (done + [mid]) + later == done + ([mid] + later);
      }
    }
  }

  /** The whole search keeps the earliest closest of its trials, and makes as many passes as
      there are trials. */
  lemma SearchKeepsEarliestClosest(encode: Codec, target: int)
    ensures var r := Run(encode, target, BEGIN, MAX_TRIALS);
      var t := SearchTrials(encode, target);
      Tracked(encode, target, t, r.kept) && r.count == |t|
  {
    RunTracks(encode, target, [], BEGIN, MAX_TRIALS);
    assert [] + SearchTrials(encode, target) == SearchTrials(encode, target);
  }

  // ---------------------------------------------------------------------------------------------
  // Properties of the trials

  /** Each trial after the first is a trial of the interval the first one left. */
  lemma TrialsTail(encode: Codec, target: int, iv: Interval, fuel: nat, k: nat)
    requires 0 < k < |Trials(encode, target, iv, fuel)|
    ensures fuel > 0 && !Stops(iv, Measure(encode, Mid(iv)), target)
    ensures var rest := Trials(encode, target, Narrow(iv, Measure(encode, Mid(iv)), target), fuel - 1);
      k - 1 < |rest| && Trials(encode, target, iv, fuel)[k] == rest[k - 1]
  {
  }

  /** A search makes at least one and at most `fuel` trials. */
  lemma {:induction false} TrialCount(encode: Codec, target: int, iv: Interval, fuel: nat)
    ensures fuel > 0 ==> 1 <= |Trials(encode, target, iv, fuel)|
    ensures |Trials(encode, target, iv, fuel)| <= fuel
    decreases fuel
  {
    if fuel > 0 {
      var measured := Measure(encode, Mid(iv));
      if !Stops(iv, measured, target) {
        TrialCount(encode, target, Narrow(iv, measured, target), fuel - 1);
      }
    }
  }

  /** Every trial lies strictly inside the interval the search starts from. */
  lemma {:induction false} TrialsInside(encode: Codec, target: int, iv: Interval, fuel: nat)
    requires iv.low < iv.high
    ensures forall q :: q in Trials(encode, target, iv, fuel) ==> iv.low < q < iv.high
    decreases fuel
  {
    if fuel > 0 {
      var measured := Measure(encode, Mid(iv));
      if !Stops(iv, measured, target) {
        TrialsInside(encode, target, Narrow(iv, measured, target), fuel - 1);
      }
    }
  }

  /** After a trial without a blob the interval stays as it was, so every remaining trial
      repeats the same quality. */
  lemma {:induction false} FailedTrialRepeats(encode: Codec, target: int, iv: Interval, fuel: nat)
    requires encode(Mid(iv)).None?
    ensures Trials(encode, target, iv, fuel) == seq(fuel, _ => Mid(iv))
    decreases fuel
  {
    if fuel > 0 {
      FailedTrialRepeats(encode, target, iv, fuel - 1);
      assert Trials(encode, target, iv, fuel) == [Mid(iv)] + seq(fuel - 1, _ => Mid(iv));
    }
  }

  /** The bisection: after a trial whose size was above the target every later trial uses a lower
      quality, after one below the target a higher quality, and a trial that hit the target is
      the last. */
  lemma {:induction false} BisectionSides(encode: Codec, target: int, iv: Interval, fuel: nat, j: nat, k: nat)
    requires iv.low < iv.high
    requires j < k < |Trials(encode, target, iv, fuel)|
    requires Measure(encode, Trials(encode, target, iv, fuel)[j]).Some?
    ensures var t := Trials(encode, target, iv, fuel);
      var size := Measure(encode, t[j]).value;
      && size != target
      && (size > target ==> t[k] < t[j])
      && (size < target ==> t[k] > t[j])
    decreases fuel
  {
    var t := Trials(encode, target, iv, fuel);
    var measured := Measure(encode, Mid(iv));
    TrialsTail(encode, target, iv, fuel, k);
    var next := Narrow(iv, measured, target);
    var rest := Trials(encode, target, next, fuel - 1);
    if j == 0 {
      TrialsInside(encode, target, next, fuel - 1);
      assert rest[k - 1] in rest;
    } else {
      TrialsTail(encode, target, iv, fuel, j);
      BisectionSides(encode, target, next, fuel - 1, j - 1, k - 1);
    }
  }

  function Pow2(n: nat): (r: nat)
    ensures r >= 1
  {
    if n == 0 then 1 else 2 * Pow2(n - 1)
  }

  /** While the interval is wide enough for the trials left, it never converges below the
      width threshold, so the search stops early only on a trial that hit the target. */
  lemma {:induction false} EarlyStopOnlyOnExactHit(encode: Codec, target: int, iv: Interval, fuel: nat)
    requires fuel > 0 && iv.high - iv.low >= CONVERGED_WIDTH * Pow2(fuel - 1) as real
    ensures var t := Trials(encode, target, iv, fuel);
      |t| < fuel ==> |t| > 0 && Measure(encode, t[|t| - 1]) == Some(target)
    decreases fuel
  {
    var t := Trials(encode, target, iv, fuel);
    var measured := Measure(encode, Mid(iv));
    if Stops(iv, measured, target) {
      assert iv.high - iv.low >= CONVERGED_WIDTH;
    } else if fuel > 1 {
      var next := Narrow(iv, measured, target);
      var rest := Trials(encode, target, next, fuel - 1);
      assert next.high - next.low >= CONVERGED_WIDTH * Pow2(fuel - 2) as real;
      EarlyStopOnlyOnExactHit(encode, target, next, fuel - 1);
      if |t| < fuel {
        assert t == [Mid(iv)] + rest && t[|t| - 1] == rest[|rest| - 1];
      }
    }
  }

  /** In a search from the full quality range the width test never fires: five trials run
      unless one of them hits the target, and that one is the last. */
  lemma SearchStopsEarlyOnlyOnExactHit(encode: Codec, target: int)
    ensures var t := SearchTrials(encode, target);
      && 1 <= |t| <= MAX_TRIALS
      && (|t| < MAX_TRIALS ==> Measure(encode, t[|t| - 1]) == Some(target))
  {
    TrialCount(encode, target, START, MAX_TRIALS);
    EarlyStopOnlyOnExactHit(encode, target, START, MAX_TRIALS);
  }

  /** A trial that hit the target exactly is the one the search keeps. */
  lemma ExactHitIsKept(encode: Codec, target: int, j: nat)
    requires var t := SearchTrials(encode, target);
      j < |t| && Measure(encode, t[j]) == Some(target)
    ensures IsEarliestClosest(encode, target, SearchTrials(encode, target), j)
  {
    var t := SearchTrials(encode, target);
    assert Succeeded(encode, t, j) && DiffAt(encode, target, t, j) == 0;
    forall i | 0 <= i < j && Succeeded(encode, t, i)
      ensures DiffAt(encode, target, t, j) < DiffAt(encode, target, t, i)
    {
      BisectionSides(encode, target, START, MAX_TRIALS, i, j);
    }
  }

  /** The kept trial is determined by the trials. */
  lemma EarliestClosestUnique(encode: Codec, target: int, t: seq<real>, k1: int, k2: int)
    requires IsEarliestClosest(encode, target, t, k1) && IsEarliestClosest(encode, target, t, k2)
    ensures k1 == k2
  {
    if k1 < k2 {
      CloserThanEarlier(encode, target, t, k2, k1);
    } else if k2 < k1 {
      CloserThanEarlier(encode, target, t, k1, k2);
    }
  }

  /** The kept trial is strictly closer than every earlier trial that produced a blob. */
  lemma CloserThanEarlier(encode: Codec, target: int, t: seq<real>, k: int, j: int)
    requires IsEarliestClosest(encode, target, t, k)
    requires 0 <= j < k && Succeeded(encode, t, j)
    ensures DiffAt(encode, target, t, k) < DiffAt(encode, target, t, j)
  {
  }

  // ---------------------------------------------------------------------------------------------
  // The search

  /** The loop of the search: at most five trial encodes, narrowing the interval around the
      target and keeping the closest trial. It ends in the state `Run` describes. */
  method Bisect(encode: Codec, targetKb: int)
      returns (bestDiff: Option<nat>, bestQuality: real, bestSize: int, ghost bestIndex: nat, ghost encodes: nat)
    ensures var r := Run(encode, targetKb, BEGIN, MAX_TRIALS);
      r.kept == Kept(bestDiff, bestQuality, bestSize, bestIndex) && r.count == encodes
  {
    var low, high := MIN_QUALITY, MAX_QUALITY;
    bestQuality, bestSize := MIN_QUALITY, 0;
    bestDiff := None;  // None stands for +Infinity
    bestIndex, encodes := 0, 0;

    for i := 0 to MAX_TRIALS
      invariant encodes == i
      invariant Run(encode, targetKb, BEGIN, i)
                == Search(Interval(low, high), Kept(bestDiff, bestQuality, bestSize, bestIndex), i, false)
    {
      RunLast(encode, targetKb, BEGIN, i);
      var stop;
      low, high, bestDiff, bestQuality, bestSize, bestIndex, stop :=
        Trial(encode, targetKb, low, high, bestDiff, bestQuality, bestSize, bestIndex, i);
      encodes := encodes + 1;
      if stop {
        RunStays(encode, targetKb, BEGIN, i + 1, MAX_TRIALS);
        return;
      }
    }
  }

  /** One pass of the loop: the trial encode at the midpoint, the kept trial replaced by a
      strictly closer blob, then either the stop or the half of the interval towards the target. */
  method Trial(encode: Codec, targetKb: int, low: real, high: real,
               bestDiff: Option<nat>, bestQuality: real, bestSize: int, ghost bestIndex: nat, ghost i: nat)
      returns (low': real, high': real, bestDiff': Option<nat>, bestQuality': real, bestSize': int,
               ghost bestIndex': nat, stop: bool)
    ensures Step(encode, targetKb, Search(Interval(low, high), Kept(bestDiff, bestQuality, bestSize, bestIndex), i, false))
            == Search(Interval(low', high'), Kept(bestDiff', bestQuality', bestSize', bestIndex'), i + 1, stop)
  {
    low', high' := low, high;
    bestDiff', bestQuality', bestSize', bestIndex' := bestDiff, bestQuality, bestSize, bestIndex;
    var mid := (low + high) / 2.0;
    var blob := encode(mid);
    if blob.None? {
      return low', high', bestDiff', bestQuality', bestSize', bestIndex', false;
    }
    var size := SizeKB(blob.value);
    var diff := Abs(size - targetKb);

    if bestDiff.None? || diff < bestDiff.value {
      bestDiff' := Some(diff);
      bestQuality' := mid;
      bestSize' := size;
      bestIndex' := i;
    }

    if size == targetKb || high - low < CONVERGED_WIDTH {
      return low', high', bestDiff', bestQuality', bestSize', bestIndex', true;
    }

    if size > targetKb {
      high' := mid;
    } else {
      low' := mid;
    }
    stop := false;
  }

  /** What the search returns: the earliest closest trial and its size when some trial produced
      a blob, otherwise the minimum quality and the size of the fallback encode (0 without a blob). */
  ghost predicate SearchOutcome(encode: Codec, target: int, quality: real, sizeKb: int)
  {
    var t := SearchTrials(encode, target);
    && (AnySucceeded(encode, t) ==>
          exists k :: IsEarliestClosest(encode, target, t, k) && quality == t[k]
                      && sizeKb == SizeKB(encode(t[k]).value))
    && (!AnySucceeded(encode, t) ==>
          && quality == MIN_QUALITY
          && sizeKb == (if encode(MIN_QUALITY).Some? then SizeKB(encode(MIN_QUALITY).value) else 0))
  }

  /** The codec and the target determine the outcome. */
  lemma SearchOutcomeUnique(encode: Codec, target: int, q1: real, s1: int, q2: real, s2: int)
    requires SearchOutcome(encode, target, q1, s1) && SearchOutcome(encode, target, q2, s2)
    ensures q1 == q2 && s1 == s2
  {
    var t := SearchTrials(encode, target);
    if AnySucceeded(encode, t) {
      var k1 :| IsEarliestClosest(encode, target, t, k1) && q1 == t[k1] && s1 == SizeKB(encode(t[k1]).value);
      var k2 :| IsEarliestClosest(encode, target, t, k2) && q2 == t[k2] && s2 == SizeKB(encode(t[k2]).value);
      EarliestClosestUnique(encode, target, t, k1, k2);
    }
  }

  /** The size the search reports is the size of a blob encoded at the quality it returns, and 0
      exactly when that encode fails: the caller's second encode at that quality measures the
      same size the range check tests. */
  lemma ReportedSizeIsFinalBlob(encode: Codec, target: int, quality: real, sizeKb: int)
    requires SearchOutcome(encode, target, quality, sizeKb)
    ensures sizeKb == if encode(quality).Some? then SizeKB(encode(quality).value) else 0
  {
    var t := SearchTrials(encode, target);
    if AnySucceeded(encode, t) {
      var k :| IsEarliestClosest(encode, target, t, k) && quality == t[k] && sizeKb == SizeKB(encode(t[k]).value);
    }
  }

  /** The search: the bisection, then the fallback encode at the minimum quality when no trial
      produced a blob. `encodes` counts the calls to the codec. */
  method FindQualityForKB(encode: Codec, targetKb: int) returns (quality: real, sizeKb: int, ghost encodes: nat)
    ensures SearchOutcome(encode, targetKb, quality, sizeKb)
    ensures encodes == |SearchTrials(encode, targetKb)| + (if AnySucceeded(encode, SearchTrials(encode, targetKb)) then 0 else 1)
    ensures 1 <= encodes <= MAX_TRIALS + 1
    ensures MIN_QUALITY <= quality <= MAX_QUALITY
  {
    var bestDiff, bestQuality, bestSize, bestIndex, trials := Bisect(encode, targetKb);
    ghost var t := SearchTrials(encode, targetKb);
    SearchKeepsEarliestClosest(encode, targetKb);
    TrialCount(encode, targetKb, START, MAX_TRIALS);
    encodes := trials;

    if bestDiff.None? {
      var fallbackBlob := encode(MIN_QUALITY);
      encodes := encodes + 1;
      quality := MIN_QUALITY;
      sizeKb := if fallbackBlob.Some? then SizeKB(fallbackBlob.value) else 0;
      return;
    }

    TrialsInside(encode, targetKb, START, MAX_TRIALS);
    assert t[bestIndex] in t;
    var capped := if bestQuality < MAX_QUALITY then bestQuality else MAX_QUALITY;
    quality := if MIN_QUALITY < capped then capped else MIN_QUALITY;
    sizeKb := bestSize;
  }
}
