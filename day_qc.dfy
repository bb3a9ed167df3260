/** One run of the purge-flagging tool on a day of HMP155 data: purge
    periods are picked from the flat, unsaturated stretches of RH, both
    variables are flagged 3 over them and RH 4 over their recovery tails,
    RH dips that the previous day's purge windows allow are flagged 4, and
    the intervals of the correction files are flagged 2. */
module DayQc {
  import opened Wrappers
  import opened Calendar
  import opened Runs
  import opened Masks
  import opened Dips
  import opened Periods
  import opened Gating
  import opened Flags
  import opened Corrections

  /** RH at or above this is not taken as a purge plateau. */
  const PurgeMaxRh: real := 99.5
  /** The minimum length of a purge, the RH recovery tail after a purge and
      the distance to the mirrored purge, in seconds. */
  const MinPurgeSeconds: nat := 8 * 60
  const RecoverySeconds: nat := 6 * 60
  const MirrorSeconds: nat := 12 * 60 * 60
  /** The dip detector as the tool calls it. */
  const DefaultDipParams: DipParams := DipParams(3.0, 360, 5)

  /** The day being flagged: sample times in epoch seconds (sorted), RH,
      the RH flatness mask of the rolling window and the flatness mask the
      dip detector uses (window of 5, threshold 0.1). */
  datatype Series = Series(times: seq<int>, rh: seq<real>, rhFlat: seq<bool>, dipFlat: seq<bool>)
  {
    predicate Valid()
    {
      |times| == |rh| == |rhFlat| == |dipFlat|
    }
  }

  /** The previous day: sample times, RH and both flatness masks. */
  datatype PreviousDay = PreviousDay(times: seq<int>, rh: seq<real>, tempFlat: seq<bool>, rhFlat: seq<bool>)
  {
    predicate Valid()
    {
      |times| == |rh| == |tempFlat| == |rhFlat|
    }
  }

  /** What a run produces: the two flag variables, and the purge periods,
      dips, expected windows and bad intervals it used. */
  datatype DayFlags = DayFlags(temp: seq<int>, rh: seq<int>, periods: seq<Span>, dips: seq<Dip>,
                               windows: seq<Window>, tempBad: seq<BadInterval>, rhBad: seq<BadInterval>)

  /** A duration in whole samples, `int(seconds / time_diff)`. */
  function Samples(seconds: nat, timeDiff: int): nat
    requires timeDiff > 0
  {
    seconds / timeDiff
  }

  /** The default length of the rolling window, in minutes. */
  const DefaultWindowMinutes: int := 8

  /** The rolling window in samples, `int(window_minutes * 60 / time_diff)`:
      the quotient truncated toward zero. The rolling standard deviation
      refuses a window that is not positive, so it is positive exactly when
      the window spans at least one sampling interval. */
  function WindowSamples(windowMinutes: int, timeDiff: int): (w: int)
    requires timeDiff > 0
    ensures w > 0 <==> windowMinutes * 60 >= timeDiff
    ensures windowMinutes >= 0 ==> w * timeDiff <= windowMinutes * 60 < (w + 1) * timeDiff
  {
    var x := if windowMinutes >= 0 then windowMinutes * 60 else -windowMinutes * 60;
    QuotientBounds(x, timeDiff);
    if windowMinutes >= 0 then x / timeDiff else -(x / timeDiff)
  }

  /** The quotient of a non-negative number brackets it, and is positive
      exactly when the number reaches the divisor. */
  lemma QuotientBounds(x: int, d: int)
    requires x >= 0 && d > 0
    ensures x / d >= 0
    ensures (x / d) * d <= x < (x / d + 1) * d
    ensures x / d > 0 <==> x >= d
  {
    var q, r := x / d, x % d;
    assert x == q * d + r && 0 <= r < d;
    assert (q + 1) * d == q * d + d;
    if q > 0 {
      assert q * d >= d by { assert (q - 1) * d >= 0; }
    }
  }

  function AllGood(n: nat): (r: seq<int>)
    ensures |r| == n && forall k :: 0 <= k < n ==> r[k] == Good
  {
    seq(n, _ => Good)
  }

  /** The temperature flags the run computes. */
  function TempFlags(times: seq<int>, periods: seq<Span>, bad: seq<BadInterval>): seq<int>
  {
    BadFlags(Paint(AllGood(|times|), TempPurgeStrokes(periods)), times, bad)
  }

  /** The RH flags after the purge loop. */
  function RhPurgeStage(n: nat, periods: seq<Span>, recovery: nat): seq<int>
  {
    Paint(AllGood(n), RhPurgeStrokes(periods, recovery, n))
  }

  /** The RH flags the run computes. */
  function RhFlags(times: seq<int>, periods: seq<Span>, recovery: nat, dips: seq<Dip>,
                   windows: seq<Window>, bad: seq<BadInterval>): seq<int>
    requires forall t :: 0 <= t < |dips| ==> dips[t].drop < |times|
  {
    BadFlags(Paint(RhPurgeStage(|times|, periods, recovery), DipStrokes(dips, windows, times)), times, bad)
  }

  /** The intervals of an optional correction file: none without a file. */
  function CorrectionsOf(lines: Option<seq<string>>): Result<seq<BadInterval>>
  {
    match lines
    case None => Ok([])
    case Some(ls) => BadIntervals(ls)
  }

  method ReadCorrections(lines: Option<seq<string>>) returns (r: Result<seq<BadInterval>>)
    ensures r == CorrectionsOf(lines)
  {
    if lines.None? {
      return Ok([]);
    }
    r := ReadBadIntervals(lines.value);
  }

  /** The expected windows of the previous day, or none without one. */
  method PreviousWindows(previous: Option<PreviousDay>) returns (windows: seq<Window>)
    requires previous.Some? ==> previous.value.Valid()
    ensures WindowsOf(previous, windows)
  {
    windows := [];
    if previous.Some? {
      var p := previous.value;
      ghost var runs;
      windows, runs := ExpectedWindows(p.times, PreviousDayMask(p.rh, p.tempFlat, p.rhFlat));
    }
  }

  /** `periods` is what purge-period selection makes of `mask` and its
      maximal runs `runs`. */
  ghost predicate PeriodsFrom(mask: seq<bool>, times: seq<int>, runs: seq<Span>, rhStd: Span -> real,
                              tempStd: Span -> real, minSamples: nat, offset: nat, periods: seq<Span>)
    requires |mask| == |times| > 0
  {
    && MaximalRuns(mask, runs)
    && (forall t :: 0 <= t < |runs| ==> runs[t].lo < runs[t].hi <= |mask|)
    && var cs := Candidates(AllStats(Widened(runs, minSamples / 2, |mask|), times, rhStd, tempStd));
       && (forall c :: c in cs ==> c.stats.period.lo < c.stats.period.hi <= |mask|)
       && periods == ChoosePeriods(cs, times, offset)
  }

  /** The purge periods picked from the day: the flat RH samples below
      99.5 %, their maximal runs widened by half the minimum purge length,
      scored and chosen, with the mirror offset of 12 hours in samples. */
  ghost predicate PeriodsOf(day: Series, rhStd: Span -> real, tempStd: Span -> real, timeDiff: int, periods: seq<Span>)
    requires day.Valid() && |day.times| > 0 && timeDiff > 0
  {
    exists runs :: PeriodsFrom(ExcludeHighRh(day.rh, day.rhFlat, PurgeMaxRh), day.times, runs, rhStd, tempStd,
                               Samples(MinPurgeSeconds, timeDiff), Samples(MirrorSeconds, timeDiff), periods)
  }

  /** The expected windows: none without a previous day, else one per
      maximal run of the previous day's purge mask. */
  ghost predicate WindowsOf(previous: Option<PreviousDay>, windows: seq<Window>)
    requires previous.Some? ==> previous.value.Valid()
  {
    match previous
    case None => windows == []
    case Some(p) =>
      exists runs :: MaximalRuns(PreviousDayMask(p.rh, p.tempFlat, p.rhFlat), runs) && windows == Windows(p.times, runs)
  }

  /** The purge periods of the day. */
  method DayPurgePeriods(day: Series, rhStd: Span -> real, tempStd: Span -> real, timeDiff: int)
    returns (periods: seq<Span>)
    requires day.Valid() && |day.times| >= 2 && timeDiff > 0
    ensures PeriodsOf(day, rhStd, tempStd, timeDiff, periods)
    ensures InBounds(periods, |day.times|)
    ensures |periods| <= (if SinglePurgeEra(day.times) then 1 else 2)
  {
    var minSamples: nat := Samples(MinPurgeSeconds, timeDiff);
    var mask := ExcludeHighRh(day.rh, day.rhFlat, PurgeMaxRh);
    var cs;
    ghost var runs;
    periods, cs, runs := SelectPurgePeriods(mask, day.times, rhStd, tempStd, minSamples, Samples(MirrorSeconds, timeDiff));
    assert PeriodsFrom(mask, day.times, runs, rhStd, tempStd, minSamples, Samples(MirrorSeconds, timeDiff), periods);
  }

  /** Fresh flag arrays, all 1, with the purge periods and recovery tails
      written. */
  method PurgeFlags(n: nat, periods: seq<Span>, recovery: nat) returns (qcTemp: array<int>, qcRh: array<int>)
    ensures fresh(qcTemp) && fresh(qcRh) && qcTemp != qcRh
    ensures qcTemp[..] == Paint(AllGood(n), TempPurgeStrokes(periods))
    ensures qcRh[..] == RhPurgeStage(n, periods, recovery)
  {
    qcTemp := new int[n](_ => Good);
    qcRh := new int[n](_ => Good);
    assert qcTemp[..] == AllGood(n) && qcRh[..] == AllGood(n);
    ApplyPurgeFlags(qcTemp, qcRh, periods, recovery);
  }

  /** Reads an optional correction file and, when it reads, flags its
      intervals 2. */
  method ApplyCorrections(qc: array<int>, times: seq<int>, lines: Option<seq<string>>)
    returns (r: Result<seq<BadInterval>>)
    requires qc.Length == |times|
    modifies qc
    ensures r == CorrectionsOf(lines)
    ensures r.Ok? ==> qc[..] == BadFlags(old(qc[..]), times, r.value)
  {
    r := ReadCorrections(lines);
    if r.Ok? {
      FlagBadData(qc, times, r.value);
    }
  }

  /** One run of the tool. `timeDiff` is the median sampling interval in
      seconds and `rhStd`, `tempStd` the standard deviations of RH and
      temperature over a span, `windowMinutes` the rolling window of the
      flatness test; the correction files are given by their lines. The run
      fails without a usable sampling interval, when the rolling window is
      shorter than one sampling interval, or when a correction file holds a BADDATA line that does not parse; otherwise
      the flags are those of the purge periods, allowed dips and bad
      intervals the run found. */
  method ProcessDay(day: Series, rhStd: Span -> real, tempStd: Span -> real, timeDiff: int,
                    windowMinutes: int, previous: Option<PreviousDay>,
                    tempCorrections: Option<seq<string>>, rhCorrections: Option<seq<string>>)
    returns (r: Result<DayFlags>)
    requires day.Valid()
    requires previous.Some? ==> previous.value.Valid()
    ensures r.Err? <==> |day.times| < 2 || timeDiff <= 0 || WindowSamples(windowMinutes, timeDiff) <= 0
                        || CorrectionsOf(tempCorrections).Err? || CorrectionsOf(rhCorrections).Err?
    ensures r.Ok? ==>
      var f := r.value;
      && |day.times| >= 2 && timeDiff > 0 && WindowSamples(windowMinutes, timeDiff) > 0
      && Ok(f.tempBad) == CorrectionsOf(tempCorrections)
      && Ok(f.rhBad) == CorrectionsOf(rhCorrections)
      && PeriodsOf(day, rhStd, tempStd, timeDiff, f.periods)
      && InBounds(f.periods, |day.times|)
      && |f.periods| <= (if SinglePurgeEra(day.times) then 1 else 2)
      && IsDipList(day.rh, day.times, day.dipFlat, DefaultDipParams, f.dips)
      && (forall t :: 0 <= t < |f.dips| ==> f.dips[t].drop < |day.times|)
      && WindowsOf(previous, f.windows)
      && f.temp == TempFlags(day.times, f.periods, f.tempBad)
      && f.rh == RhFlags(day.times, f.periods, Samples(RecoverySeconds, timeDiff), f.dips, f.windows, f.rhBad)
  {
    if |day.times| < 2 || timeDiff <= 0 {
      return Err("cannot estimate the sampling interval");
    }
    if WindowSamples(windowMinutes, timeDiff) <= 0 {
      return Err("window must be > 0");
    }
    var periods := DayPurgePeriods(day, rhStd, tempStd, timeDiff);
    var qcTemp, qcRh := PurgeFlags(|day.times|, periods, Samples(RecoverySeconds, timeDiff));
    var dips := DetectRhDips(day.rh, day.times, day.dipFlat, DefaultDipParams);
    var windows := PreviousWindows(previous);
    ApplyDipFlags(qcRh, dips, windows, day.times);
    ghost var tempStage, rhStage := qcTemp[..], qcRh[..];
    var tempBad := ApplyCorrections(qcTemp, day.times, tempCorrections);
    if tempBad.Err? {
      return Err(tempBad.message);
    }
    var rhBad := ApplyCorrections(qcRh, day.times, rhCorrections);
    if rhBad.Err? {
      return Err(rhBad.message);
    }
    assert qcTemp[..] == BadFlags(tempStage, day.times, tempBad.value);
    r := Ok(DayFlags(qcTemp[..], qcRh[..], periods, dips, windows, tempBad.value, rhBad.value));
  }

  // ---------------------------------------------------------------------
  // What the flags mean

  /** A temperature flag is 2 inside a bad interval, otherwise 3 inside a
      purge period, otherwise 1. */
  lemma TempFlagsMeaning(times: seq<int>, periods: seq<Span>, bad: seq<BadInterval>, k: int)
    requires 0 <= k < |times|
    ensures TempFlags(times, periods, bad)[k] ==
      if InSomeInterval(times[k], bad) then Bad
      else if exists t :: 0 <= t < |periods| && Covers(periods[t], k) then Purge
      else Good
  {
    TempPurgeFlagsMeaning(AllGood(|times|), periods, k);
  }

  /** After the purge loop every RH flag is 1, 3 or 4. */
  lemma RhPurgeStageValues(n: nat, periods: seq<Span>, recovery: nat, k: int)
    requires 0 <= k < n
    ensures RhPurgeStage(n, periods, recovery)[k] in {Good, Purge, Recovery}
  {
    var strokes := RhPurgeStrokes(periods, recovery, n);
    PaintValues(AllGood(n), strokes, k);
    if RhPurgeStage(n, periods, recovery)[k] != Good {
      var s :| 0 <= s < |strokes| && RhPurgeStage(n, periods, recovery)[k] == strokes[s].flag;
      RhPurgeStrokeAt(periods, recovery, n, s / 2);
      assert s == 2 * (s / 2) || s == 2 * (s / 2) + 1;
    }
  }

  /** An RH flag is 2 inside a bad interval, otherwise 4 strictly inside an
      allowed dip, otherwise what the purge loop left, which is 1, 3 or 4. */
  lemma RhFlagsMeaning(times: seq<int>, periods: seq<Span>, recovery: nat, dips: seq<Dip>,
                       windows: seq<Window>, bad: seq<BadInterval>, k: int)
    requires forall t :: 0 <= t < |dips| ==> dips[t].drop < |times|
    requires 0 <= k < |times|
    ensures RhFlags(times, periods, recovery, dips, windows, bad)[k] ==
      if InSomeInterval(times[k], bad) then Bad
      else if exists t :: 0 <= t < |dips| && Allowed(windows, TimeOfDay(times[dips[t].drop]))
                          && dips[t].drop < k < dips[t].recovery then Recovery
      else RhPurgeStage(|times|, periods, recovery)[k]
    ensures RhFlags(times, periods, recovery, dips, windows, bad)[k] in {Good, Bad, Purge, Recovery}
  {
    DipFlagsMeaning(RhPurgeStage(|times|, periods, recovery), dips, windows, times, k);
    RhPurgeStageValues(|times|, periods, recovery, k);
  }

  /** A flag is 2 exactly where a correction file marks the sample bad: the
      purge and dip logic never writes 2. */
  lemma BadOnlyFromCorrections(times: seq<int>, periods: seq<Span>, recovery: nat, dips: seq<Dip>,
                               windows: seq<Window>, tempBad: seq<BadInterval>, rhBad: seq<BadInterval>, k: int)
    requires forall t :: 0 <= t < |dips| ==> dips[t].drop < |times|
    requires 0 <= k < |times|
    ensures TempFlags(times, periods, tempBad)[k] == Bad <==> InSomeInterval(times[k], tempBad)
    ensures RhFlags(times, periods, recovery, dips, windows, rhBad)[k] == Bad <==> InSomeInterval(times[k], rhBad)
  {
    TempFlagsMeaning(times, periods, tempBad, k);
    RhFlagsMeaning(times, periods, recovery, dips, windows, rhBad, k);
    RhPurgeStageValues(|times|, periods, recovery, k);
  }
}
