/** The small mask operations of the flagging engine: clearing flat flags
    near saturation, widening long flagged runs, and comparing the time of
    day of two days' purge times. */
module Masks {
  import opened Wrappers
  import opened Calendar
  import opened Runs
  import Seqs

  /** `exclude_high_rh`: the flags of `mask` that sit where RH is below
      `maxRh`. */
  function ExcludeHighRh(rh: seq<real>, mask: seq<bool>, maxRh: real): (r: seq<bool>)
    requires |rh| == |mask|
    ensures |r| == |mask|
    ensures forall k :: 0 <= k < |r| ==> (r[k] <==> mask[k] && rh[k] < maxRh)
  {
    seq(|mask|, k requires 0 <= k < |mask| => mask[k] && rh[k] < maxRh)
  }

  /** Excluding high RH only ever clears flags, and doing it twice changes
      nothing more. */
  lemma ExcludeHighRhOnlyClears(rh: seq<real>, mask: seq<bool>, maxRh: real)
    requires |rh| == |mask|
    ensures forall k :: 0 <= k < |mask| && ExcludeHighRh(rh, mask, maxRh)[k] ==> mask[k]
    ensures ExcludeHighRh(rh, ExcludeHighRh(rh, mask, maxRh), maxRh) == ExcludeHighRh(rh, mask, maxRh)
  {
  }

  // ---------------------------------------------------------------------
  // filter_short_events

  /** The run `r` grown by `pad` samples on each side, clipped to [0, n). */
  function Expand(r: Span, pad: nat, n: nat): (e: Span)
    requires r.lo < r.hi <= n
    ensures e.lo <= r.lo && r.hi <= e.hi <= n
    ensures e.lo < e.hi
  {
    Span(if r.lo >= pad then r.lo - pad else 0, if r.hi + pad <= n then r.hi + pad else n)
  }

  /** Sample `k` lies in the widened form of some run of `runs` that is at
      least `minSamples` long. */
  ghost predicate WidenedLongRun(runs: seq<Span>, minSamples: nat, n: nat, k: int)
    requires forall t :: 0 <= t < |runs| ==> runs[t].lo < runs[t].hi <= n
  {
    exists t :: 0 <= t < |runs| && runs[t].hi - runs[t].lo >= minSamples
                && Covers(Expand(runs[t], minSamples, n), k)
  }

  lemma WidenedSnoc(runs: seq<Span>, r: Span, minSamples: nat, n: nat, k: int)
    requires forall t :: 0 <= t < |runs| ==> runs[t].lo < runs[t].hi <= n
    requires r.lo < r.hi <= n
    ensures WidenedLongRun(runs + [r], minSamples, n, k) <==>
      WidenedLongRun(runs, minSamples, n, k) || (r.hi - r.lo >= minSamples && Covers(Expand(r, minSamples, n), k))
  {
    var runs' := runs + [r];
    if WidenedLongRun(runs, minSamples, n, k) {
      var t :| 0 <= t < |runs| && runs[t].hi - runs[t].lo >= minSamples
               && Covers(Expand(runs[t], minSamples, n), k);
      assert runs'[t] == runs[t];
    }
    if WidenedLongRun(runs', minSamples, n, k) {
      var t :| 0 <= t < |runs'| && runs'[t].hi - runs'[t].lo >= minSamples
               && Covers(Expand(runs'[t], minSamples, n), k);
      if t < |runs| {
        assert runs'[t] == runs[t];
      }
    }
    if r.hi - r.lo >= minSamples && Covers(Expand(r, minSamples, n), k) {
      assert runs'[|runs|] == r;
    }
  }

  /** Closing run `r`: a long run is widened into the array, which keeps
      the array in step with the list of closed runs. */
  method WidenRun(filtered: array<bool>, r: Span, minSamples: nat, ghost runs: seq<Span>)
    requires forall t :: 0 <= t < |runs| ==> runs[t].lo < runs[t].hi <= filtered.Length
    requires r.lo < r.hi <= filtered.Length
    requires forall k :: 0 <= k < filtered.Length ==>
      (filtered[k] <==> WidenedLongRun(runs, minSamples, filtered.Length, k))
    modifies filtered
    ensures forall k :: 0 <= k < filtered.Length ==>
      (filtered[k] <==> WidenedLongRun(runs + [r], minSamples, filtered.Length, k))
  {
    if r.hi - r.lo >= minSamples {
      var e := Expand(r, minSamples, filtered.Length);
      Seqs.FillSlice(filtered, e.lo, e.hi, true);
    }
    forall k | 0 <= k < filtered.Length {
      WidenedSnoc(runs, r, minSamples, filtered.Length, k);
    }
  }

  /** Over the complete list of maximal runs, "inside a widened long run of
      the list" is "inside a widened long maximal run". */
  lemma WidenedMaximal(mask: seq<bool>, runs: seq<Span>, minSamples: nat, k: int)
    requires MaximalRuns(mask, runs)
    ensures WidenedLongRun(runs, minSamples, |mask|, k) <==>
      exists s: Span :: IsMaximalRun(mask, s) && s.hi - s.lo >= minSamples
                        && Covers(Expand(s, minSamples, |mask|), k)
  {
    var n := |mask|;
    if exists s: Span :: IsMaximalRun(mask, s) && s.hi - s.lo >= minSamples
                         && Covers(Expand(s, minSamples, n), k) {
      var s: Span :| IsMaximalRun(mask, s) && s.hi - s.lo >= minSamples
                     && Covers(Expand(s, minSamples, n), k);
      MaximalRunListed(mask, runs, s);
      var t :| 0 <= t < |runs| && runs[t] == s;
    }
  }

  /** One iteration of the loop of `filter_short_events`: a true sample
      opens a run if none is open; a false sample closes the open run, which
      is widened into the array when it is long enough. */
  method ScanSample(filtered: array<bool>, mask: seq<bool>, minSamples: nat, i: nat,
                    start: Option<nat>, ghost runs: seq<Span>)
    returns (start': Option<nat>, ghost runs': seq<Span>)
    requires filtered.Length == |mask| && i < |mask|
    requires ScanState(mask, i, runs, start)
    requires forall k :: 0 <= k < |mask| ==>
      (filtered[k] <==> WidenedLongRun(runs, minSamples, |mask|, k))
    modifies filtered
    ensures ScanState(mask, i + 1, runs', start')
    ensures forall k :: 0 <= k < |mask| ==>
      (filtered[k] <==> WidenedLongRun(runs', minSamples, |mask|, k))
  {
    ScanStep(mask, i, runs, start);
    start', runs' := start, runs;
    if mask[i] {
      if start.None? {
        start' := Some(i);
      }
    } else if start.Some? {
      WidenRun(filtered, Span(start.value, i), minSamples, runs);
      runs' := runs + [Span(start.value, i)];
      start' := None;
    }
  }

  /** The end of `filter_short_events`: a run still open at the end of the
      mask is widened too (its widened form reaches the end of the series),
      after which the array holds exactly the widened long maximal runs. */
  method CloseLastRun(filtered: array<bool>, mask: seq<bool>, minSamples: nat,
                      ghost runs: seq<Span>, start: Option<nat>)
    requires filtered.Length == |mask|
    requires ScanState(mask, |mask|, runs, start)
    requires forall k :: 0 <= k < |mask| ==>
      (filtered[k] <==> WidenedLongRun(runs, minSamples, |mask|, k))
    modifies filtered
    ensures forall k :: 0 <= k < |mask| ==>
      (filtered[k] <==> exists s: Span :: IsMaximalRun(mask, s) && s.hi - s.lo >= minSamples
                                         && Covers(Expand(s, minSamples, |mask|), k))
  {
    var n := |mask|;
    ScanFinish(mask, runs, start);
    if start.Some? {
      WidenRun(filtered, Span(start.value, n), minSamples, runs);
    }
    ghost var all := FinalRuns(mask, runs, start);
    forall k | 0 <= k < n {
      WidenedMaximal(mask, all, minSamples, k);
    }
  }

  /** `filter_short_events`: every maximal run of at least `minSamples`
      samples is widened by `minSamples` on both sides (clipped to the
      series; a run reaching the end stays at the end); shorter runs leave
      nothing set; nothing else is set. */
  method FilterShortEvents(mask: seq<bool>, minSamples: nat) returns (r: seq<bool>)
    ensures |r| == |mask|
    ensures forall k :: 0 <= k < |mask| ==>
      (r[k] <==> exists s: Span :: IsMaximalRun(mask, s) && s.hi - s.lo >= minSamples
                                  && Covers(Expand(s, minSamples, |mask|), k))
  {
    var n := |mask|;
    var filtered := new bool[n](_ => false);
    var start: Option<nat> := None;
    ghost var runs: seq<Span> := [];
    ScanInit(mask);
    for i := 0 to n
      invariant ScanState(mask, i, runs, start)
      invariant forall k :: 0 <= k < n ==> (filtered[k] <==> WidenedLongRun(runs, minSamples, n, k))
    {
      start, runs := ScanSample(filtered, mask, minSamples, i, start, runs);
    }
    CloseLastRun(filtered, mask, minSamples, runs, start);
    r := filtered[..];
  }

  // ---------------------------------------------------------------------
  // check_purge_consistency

  const ConsistencyThreshold: int := 60 * 60

  function Abs(x: int): int
  {
    if x < 0 then -x else x
  }

  /** `check_purge_consistency`: the two lists of purge times pair up one to
      one and each pair's times of day differ by at most an hour. */
  function PurgeTimesConsistent(previous: seq<int>, current: seq<int>): (ok: bool)
    ensures ok <==> (|previous| == |current| &&
                     forall k :: 0 <= k < |previous| ==>
                       Abs(TimeOfDay(previous[k]) - TimeOfDay(current[k])) <= ConsistencyThreshold)
  {
    if |previous| != |current| then false
    else if previous == [] then true
    else if Abs(TimeOfDay(previous[0]) - TimeOfDay(current[0])) > ConsistencyThreshold then false
    else
      var rest := PurgeTimesConsistent(previous[1..], current[1..]);
      assert forall k :: 1 <= k < |previous| ==> previous[1..][k - 1] == previous[k] && current[1..][k - 1] == current[k];
      rest
  }

  /** Shifting every purge time by whole days does not change the verdict. */
  lemma {:induction false} ConsistencyIgnoresDate(previous: seq<int>, current: seq<int>, days: seq<int>)
    requires |days| == |previous|
    ensures PurgeTimesConsistent(seq(|previous|, k requires 0 <= k < |previous| => previous[k] + days[k] * SecondsPerDay), current)
         == PurgeTimesConsistent(previous, current)
  {
    var shifted := seq(|previous|, k requires 0 <= k < |previous| => previous[k] + days[k] * SecondsPerDay);
    forall k | 0 <= k < |previous| ensures TimeOfDay(shifted[k]) == TimeOfDay(previous[k]) {
      DayOfTimestamp(Day(previous[k]) + days[k], TimeOfDay(previous[k]));
    }
  }
}
