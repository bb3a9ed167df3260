/** Gating of RH dips by the previous day: the runs where both temperature
    and RH were flat (and RH below 99.9 %) give the expected purge windows
    as times of day, and a dip is flagged only when it starts within 15
    minutes of one of them, or when there are no windows at all. */
module Gating {
  import opened Wrappers
  import opened Calendar
  import opened Runs
  import opened Masks

  /** RH at or above this on the previous day is not a purge signature. */
  const PreviousDayMaxRh: real := 99.9

  /** A dip may start this many seconds before or after a window. */
  const WindowMargin: int := 15 * 60

  /** An expected purge window: the run's first sample as seconds after its
      midnight, and the run's last sample as seconds after that same
      midnight (beyond 86400 when the run crosses midnight). */
  datatype Window = Window(startOffset: int, endOffset: int)

  /** The previous day's purge mask: temperature flat, RH flat and RH below
      99.9 %. */
  function PreviousDayMask(rh: seq<real>, tempFlat: seq<bool>, rhFlat: seq<bool>): (m: seq<bool>)
    requires |rh| == |tempFlat| == |rhFlat|
    ensures |m| == |rh|
    ensures forall k :: 0 <= k < |m| ==> (m[k] <==> tempFlat[k] && rhFlat[k] && rh[k] < PreviousDayMaxRh)
  {
    var rhOk := ExcludeHighRh(rh, rhFlat, PreviousDayMaxRh);
    seq(|rh|, k requires 0 <= k < |rh| => tempFlat[k] && rhOk[k])
  }

  /** The window of one run: it opens at the time of day of the run's first
      sample and is as long as the run lasts in time. */
  function WindowOf(times: seq<int>, r: Span): (w: Window)
    requires r.lo < r.hi <= |times|
    ensures w.startOffset == TimeOfDay(times[r.lo])
    ensures 0 <= w.startOffset < SecondsPerDay
    ensures w.endOffset - w.startOffset == times[r.hi - 1] - times[r.lo]
  {
    Window(times[r.lo] - Midnight(times[r.lo]), times[r.hi - 1] - Midnight(times[r.lo]))
  }

  /** The window of each run, in order. */
  function Windows(times: seq<int>, runs: seq<Span>): (w: seq<Window>)
    requires forall t :: 0 <= t < |runs| ==> runs[t].lo < runs[t].hi <= |times|
    ensures |w| == |runs|
    ensures forall t :: 0 <= t < |w| ==> w[t] == WindowOf(times, runs[t])
  {
    seq(|runs|, t requires 0 <= t < |runs| => WindowOf(times, runs[t]))
  }

  lemma WindowsSnoc(times: seq<int>, runs: seq<Span>, r: Span)
    requires forall t :: 0 <= t < |runs| ==> runs[t].lo < runs[t].hi <= |times|
    requires r.lo < r.hi <= |times|
    ensures Windows(times, runs + [r]) == Windows(times, runs) + [WindowOf(times, r)]
  {
  }

  /** One iteration of the window loop: a flagged sample opens a window
      when none is open, an unflagged one closes the open window at the
      previous sample. */
  method WindowStep(times: seq<int>, mask: seq<bool>, i: nat, start: Option<nat>,
                    windows: seq<Window>, ghost runs: seq<Span>)
    returns (start': Option<nat>, windows': seq<Window>, ghost runs': seq<Span>)
    requires |times| == |mask|
    requires ScanState(mask, i, runs, start) && i < |mask|
    requires windows == Windows(times, runs)
    ensures ScanState(mask, i + 1, runs', start')
    ensures windows' == Windows(times, runs')
  {
    ScanStep(mask, i, runs, start);
    start', windows', runs' := start, windows, runs;
    if mask[i] && start.None? {
      start' := Some(i);
    } else if !mask[i] && start.Some? {
      var s := start.value;
      WindowsSnoc(times, runs, Span(s, i));
      windows' := windows + [WindowOf(times, Span(s, i))];
      runs' := runs + [Span(s, i)];
      start' := None;
    }
    assert runs' == NextRuns(mask, i, runs, start) && start' == NextOpen(mask, i, start);
  }

  /** The end of the window loop: a window still open ends at the last
      sample of the previous day. */
  method WindowLast(times: seq<int>, mask: seq<bool>, start: Option<nat>,
                    windows: seq<Window>, ghost runs: seq<Span>)
    returns (windows': seq<Window>, ghost runs': seq<Span>)
    requires |times| == |mask|
    requires ScanState(mask, |mask|, runs, start)
    requires windows == Windows(times, runs)
    ensures MaximalRuns(mask, runs')
    ensures |runs'| == RunStartCount(mask)
    ensures windows' == Windows(times, runs')
  {
    var n := |mask|;
    ScanFinish(mask, runs, start);
    windows', runs' := windows, runs;
    if start.Some? {
      var s := start.value;
      WindowsSnoc(times, runs, Span(s, n));
      windows' := windows + [WindowOf(times, Span(s, n))];
      runs' := runs + [Span(s, n)];
    }
  }

  /** The expected purge windows: one per maximal run of the previous
      day's purge mask, in order. */
  method ExpectedWindows(times: seq<int>, mask: seq<bool>) returns (windows: seq<Window>, ghost runs: seq<Span>)
    requires |times| == |mask|
    ensures MaximalRuns(mask, runs)
    ensures windows == Windows(times, runs)
    ensures |windows| == RunStartCount(mask)
  {
    var start: Option<nat> := None;
    windows, runs := [], [];
    ScanInit(mask);
    for i := 0 to |mask|
      invariant ScanState(mask, i, runs, start)
      invariant windows == Windows(times, runs)
    {
      start, windows, runs := WindowStep(times, mask, i, start, windows, runs);
    }
    windows, runs := WindowLast(times, mask, start, windows, runs);
  }

  /** A previous day without a single flagged sample gives no windows. */
  lemma NoWindowsWithoutFlags(times: seq<int>, mask: seq<bool>, runs: seq<Span>)
    requires |times| == |mask| && MaximalRuns(mask, runs)
    ensures Windows(times, runs) == [] <==> forall k :: 0 <= k < |mask| ==> !mask[k]
  {
    MaximalRunsEmpty(mask, runs);
  }

  predicate NearWindow(w: Window, secondsSinceMidnight: int)
  {
    w.startOffset - WindowMargin <= secondsSinceMidnight <= w.endOffset + WindowMargin
  }

  /** A dip starting `secondsSinceMidnight` after its midnight is flagged. */
  predicate Allowed(windows: seq<Window>, secondsSinceMidnight: int)
  {
    windows == [] || exists t :: 0 <= t < |windows| && NearWindow(windows[t], secondsSinceMidnight)
  }

  /** The gate for one dip: allowed when there are no windows, or when the
      dip's time of day is within the margin of some window. */
  method DipAllowed(windows: seq<Window>, secondsSinceMidnight: int) returns (allow: bool)
    ensures allow <==> windows == [] || exists t :: 0 <= t < |windows| && NearWindow(windows[t], secondsSinceMidnight)
  {
    allow := windows == [];
    var t := 0;
    while t < |windows|
      invariant 0 <= t <= |windows|
      invariant allow <==> windows == []
      invariant forall u :: 0 <= u < t ==> !NearWindow(windows[u], secondsSinceMidnight)
    {
      if NearWindow(windows[t], secondsSinceMidnight) {
        allow := true;
        return;
      }
      t := t + 1;
    }
  }
}
