/** The computations of the quicklook plotter that are not drawing: the
    time intervals over which a QC flag holds a given value, the date label
    taken from a file name, and the name of the PNG written for a NetCDF
    file. */
module Quicklooks {
  import opened Wrappers
  import opened Calendar
  import opened Runs
  import opened Text
  import opened DateText

  // ---------------------------------------------------------------------
  // get_purge_intervals

  /** A closed interval of sample times: the first and the last sample of a
      run. */
  datatype TimeInterval = TimeInterval(start: int, end: int)

  /** `qc_flag == flag_value`, sample by sample. */
  function FlagMask(qc: seq<int>, flagValue: int): (m: seq<bool>)
    ensures |m| == |qc|
    ensures forall k :: 0 <= k < |qc| ==> (m[k] <==> qc[k] == flagValue)
  {
    seq(|qc|, k requires 0 <= k < |qc| => qc[k] == flagValue)
  }

  function IntervalOf(times: seq<int>, r: Span): TimeInterval
    requires r.lo < r.hi <= |times|
  {
    TimeInterval(times[r.lo], times[r.hi - 1])
  }

  /** The interval of each run, in order. */
  function IntervalsOf(times: seq<int>, runs: seq<Span>): (ivs: seq<TimeInterval>)
    requires forall t :: 0 <= t < |runs| ==> runs[t].lo < runs[t].hi <= |times|
    ensures |ivs| == |runs|
    ensures forall t :: 0 <= t < |ivs| ==> ivs[t] == TimeInterval(times[runs[t].lo], times[runs[t].hi - 1])
  {
    seq(|runs|, t requires 0 <= t < |runs| => IntervalOf(times, runs[t]))
  }

  lemma IntervalsOfSnoc(times: seq<int>, runs: seq<Span>, r: Span)
    requires forall t :: 0 <= t < |runs| ==> runs[t].lo < runs[t].hi <= |times|
    requires r.lo < r.hi <= |times|
    ensures IntervalsOf(times, runs + [r]) == IntervalsOf(times, runs) + [IntervalOf(times, r)]
  {
  }

  /** One iteration of the interval loop: a matching sample opens an
      interval when none is open, a non-matching one closes the open
      interval at the previous sample. */
  method IntervalStep(times: seq<int>, mask: seq<bool>, i: nat, start: Option<nat>,
                      intervals: seq<TimeInterval>, ghost runs: seq<Span>)
    returns (start': Option<nat>, intervals': seq<TimeInterval>, ghost runs': seq<Span>)
    requires |times| == |mask|
    requires ScanState(mask, i, runs, start) && i < |mask|
    requires intervals == IntervalsOf(times, runs)
    ensures ScanState(mask, i + 1, runs', start')
    ensures intervals' == IntervalsOf(times, runs')
  {
    ScanStep(mask, i, runs, start);
    start', intervals', runs' := start, intervals, runs;
    if mask[i] && start.None? {
      start' := Some(i);
    } else if !mask[i] && start.Some? {
      var s := start.value;
      IntervalsOfSnoc(times, runs, Span(s, i));
      intervals' := intervals + [IntervalOf(times, Span(s, i))];
      runs' := runs + [Span(s, i)];
      start' := None;
    }
    assert runs' == NextRuns(mask, i, runs, start) && start' == NextOpen(mask, i, start);
  }

  /** The end of the interval loop: an interval still open ends at the last
      sample. */
  method IntervalLast(times: seq<int>, mask: seq<bool>, start: Option<nat>,
                      intervals: seq<TimeInterval>, ghost runs: seq<Span>)
    returns (intervals': seq<TimeInterval>, ghost runs': seq<Span>)
    requires |times| == |mask|
    requires ScanState(mask, |mask|, runs, start)
    requires intervals == IntervalsOf(times, runs)
    ensures MaximalRuns(mask, runs')
    ensures |runs'| == RunStartCount(mask)
    ensures intervals' == IntervalsOf(times, runs')
  {
    var n := |mask|;
    ScanFinish(mask, runs, start);
    intervals', runs' := intervals, runs;
    if start.Some? {
      var s := start.value;
      IntervalsOfSnoc(times, runs, Span(s, n));
      intervals' := intervals + [IntervalOf(times, Span(s, n))];
      runs' := runs + [Span(s, n)];
    }
  }

  /** `get_purge_intervals`: one interval per maximal run of samples whose
      flag equals `flagValue`, from the time of its first sample to the time
      of its last, in order. */
  method GetPurgeIntervals(qc: seq<int>, times: seq<int>, flagValue: int)
    returns (intervals: seq<TimeInterval>, ghost runs: seq<Span>)
    requires |qc| == |times|
    ensures MaximalRuns(FlagMask(qc, flagValue), runs)
    ensures intervals == IntervalsOf(times, runs)
    ensures |intervals| == RunStartCount(FlagMask(qc, flagValue))
  {
    var mask := FlagMask(qc, flagValue);
    var start: Option<nat> := None;
    intervals, runs := [], [];
    ScanInit(mask);
    for i := 0 to |mask|
      invariant ScanState(mask, i, runs, start)
      invariant intervals == IntervalsOf(times, runs)
    {
      start, intervals, runs := IntervalStep(times, mask, i, start, intervals, runs);
    }
    intervals, runs := IntervalLast(times, mask, start, intervals, runs);
  }

  /** No interval exactly when no sample carries the flag value. */
  lemma NoIntervalsIffAbsent(qc: seq<int>, times: seq<int>, flagValue: int, runs: seq<Span>)
    requires |qc| == |times| && MaximalRuns(FlagMask(qc, flagValue), runs)
    ensures IntervalsOf(times, runs) == [] <==> forall k :: 0 <= k < |qc| ==> qc[k] != flagValue
  {
    MaximalRunsEmpty(FlagMask(qc, flagValue), runs);
  }

  /** Sample times strictly increase. */
  predicate Increasing(times: seq<int>)
  {
    forall a, b :: 0 <= a < b < |times| ==> times[a] < times[b]
  }

  /** With increasing times, a time no later than another belongs to a
      sample no later. */
  lemma IncreasingOrder(times: seq<int>, a: int, b: int)
    requires Increasing(times) && 0 <= a < |times| && 0 <= b < |times| && times[a] <= times[b]
    ensures a <= b
  {
  }

  /** With increasing times the intervals are non-empty, in order and
      disjoint. */
  lemma IntervalsOrdered(qc: seq<int>, times: seq<int>, flagValue: int, runs: seq<Span>)
    requires |qc| == |times| && MaximalRuns(FlagMask(qc, flagValue), runs) && Increasing(times)
    ensures forall t :: 0 <= t < |runs| ==> IntervalsOf(times, runs)[t].start <= IntervalsOf(times, runs)[t].end
    ensures forall t, u :: 0 <= t < u < |runs| ==> IntervalsOf(times, runs)[t].end < IntervalsOf(times, runs)[u].start
  {
    var mask := FlagMask(qc, flagValue);
    assert forall t :: 0 <= t < |runs| ==> IsMaximalRun(mask, runs[t]);
  }

  /** With increasing times a sample carries the flag value exactly when
      its time lies in one of the intervals. */
  lemma IntervalsCoverFlags(qc: seq<int>, times: seq<int>, flagValue: int, runs: seq<Span>, k: int)
    requires |qc| == |times| && MaximalRuns(FlagMask(qc, flagValue), runs) && Increasing(times)
    requires 0 <= k < |qc|
    ensures qc[k] == flagValue <==>
      exists t :: 0 <= t < |runs| && IntervalsOf(times, runs)[t].start <= times[k] <= IntervalsOf(times, runs)[t].end
  {
    var ivs := IntervalsOf(times, runs);
    if qc[k] == flagValue {
      FlaggedSampleInInterval(qc, times, flagValue, runs, k);
    }
    if exists t :: 0 <= t < |runs| && ivs[t].start <= times[k] <= ivs[t].end {
      var t :| 0 <= t < |runs| && ivs[t].start <= times[k] <= ivs[t].end;
      SampleInIntervalFlagged(qc, times, flagValue, runs, t, k);
    }
  }

  lemma FlaggedSampleInInterval(qc: seq<int>, times: seq<int>, flagValue: int, runs: seq<Span>, k: int)
    requires |qc| == |times| && MaximalRuns(FlagMask(qc, flagValue), runs) && Increasing(times)
    requires 0 <= k < |qc| && qc[k] == flagValue
    ensures exists t :: 0 <= t < |runs| && IntervalsOf(times, runs)[t].start <= times[k] <= IntervalsOf(times, runs)[t].end
  {
    var mask := FlagMask(qc, flagValue);
    assert mask[k];
    var t :| 0 <= t < |runs| && Covers(runs[t], k);
    assert IsMaximalRun(mask, runs[t]);
    var r := runs[t];
    assert times[r.lo] <= times[k] by {
      if r.lo < k { assert times[r.lo] < times[k]; }
    }
    assert times[k] <= times[r.hi - 1] by {
      if k < r.hi - 1 { assert times[k] < times[r.hi - 1]; }
    }
    var ivs := IntervalsOf(times, runs);
    assert ivs[t].start <= times[k] <= ivs[t].end;
  }

  lemma SampleInIntervalFlagged(qc: seq<int>, times: seq<int>, flagValue: int, runs: seq<Span>, t: int, k: int)
    requires |qc| == |times| && MaximalRuns(FlagMask(qc, flagValue), runs) && Increasing(times)
    requires 0 <= k < |qc| && 0 <= t < |runs|
    requires IntervalsOf(times, runs)[t].start <= times[k] <= IntervalsOf(times, runs)[t].end
    ensures qc[k] == flagValue
  {
    var mask := FlagMask(qc, flagValue);
    assert IsMaximalRun(mask, runs[t]);
    var r := runs[t];
    IncreasingOrder(times, r.lo, k);
    IncreasingOrder(times, k, r.hi - 1);
    assert mask[k];
  }

  // ---------------------------------------------------------------------
  // The date label

  const UnknownDate: string := "unknown_date"

  /** The first date token among `parts`, if any. */
  function FirstDateToken(parts: seq<string>): (r: Option<string>)
    ensures r.None? <==> forall t :: 0 <= t < |parts| ==> !IsDateToken(parts[t])
    ensures r.Some? ==> IsDateToken(r.value)
  {
    if parts == [] then None
    else if IsDateToken(parts[0]) then Some(parts[0])
    else
      var r := FirstDateToken(parts[1..]);
      assert forall t :: 1 <= t < |parts| ==> parts[t] == parts[1..][t - 1];
      r
  }

  /** The token found is the piece at the first position holding one. */
  lemma {:induction false} FirstDateTokenAt(parts: seq<string>, i: nat)
    requires i < |parts| && IsDateToken(parts[i])
    requires forall t :: 0 <= t < i ==> !IsDateToken(parts[t])
    ensures FirstDateToken(parts) == Some(parts[i])
  {
    if i > 0 {
      FirstDateTokenAt(parts[1..], i - 1);
    }
  }

  /** The label of the plot: the first eight-digit piece of the file name
      between underscores, read as `%Y%m%d` and written `%Y-%m-%d`;
      `unknown_date` when there is no such piece; an error when the piece
      is not a date or lies outside the pandas timestamp range. */
  function DateLabel(name: string): (r: Result<string>)
    ensures r.Ok? ==> r.value == UnknownDate || (|r.value| == 10 && r.value[4] == '-' && r.value[7] == '-')
  {
    match FirstDateToken(SplitOn(name, '_'))
    case None => Ok(UnknownDate)
    case Some(tok) =>
      var d := TokenDate(tok);
      if ValidDate(d) && InTimestampRange(DayNumber(d) * SecondsPerDay) then Ok(IsoDate(d))
      else Err("time data does not match format '%Y%m%d'")
  }

  /** A file name whose first eight-digit piece spells a date in range is
      labelled with that date. */
  lemma DateLabelOfName(parts: seq<string>, i: nat, d: Date)
    requires i < |parts| && forall t :: 0 <= t < |parts| ==> '_' !in parts[t]
    requires ValidDate(d) && InTimestampRange(DayNumber(d) * SecondsPerDay)
    requires parts[i] == CompactDate(d)
    requires forall t :: 0 <= t < i ==> !IsDateToken(parts[t])
    ensures DateLabel(Join(parts, '_')) == Ok(IsoDate(d))
  {
    SplitOnJoin(parts, '_');
    FirstDateTokenAt(parts, i);
    TokenDateOfCompact(d);
  }

  // ---------------------------------------------------------------------
  // The output name

  /** `os.path.join(dir, name)` on POSIX: an absolute `name` replaces
      `dir`; otherwise a `/` is put between them unless `dir` is empty or
      already ends with one. */
  function PathJoin(dir: string, name: string): (p: string)
    ensures |p| >= |name| && p[|p| - |name|..] == name
    ensures |name| > 0 && name[0] == '/' ==> p == name
    ensures (|name| == 0 || name[0] != '/') ==> |p| >= |dir| + |name| && p[..|dir|] == dir
    ensures (|name| == 0 || name[0] != '/') && dir != "" ==> p[|p| - |name| - 1] == '/' 
  {
    if |name| > 0 && name[0] == '/' then name
    else if dir == "" || dir[|dir| - 1] == '/' then dir + name
    else dir + "/" + name
  }

  /** The PNG written for a NetCDF file: every `.nc` of the name replaced
      by `.png`, inside the output directory. */
  function OutputName(outDir: string, ncName: string): string
  {
    PathJoin(outDir, ReplaceAll(ncName, ".nc", ".png"))
  }

  /** A name `base.nc` whose base holds no `.nc` becomes `base.png`. */
  lemma {:induction false} PngOfNc(base: string)
    requires !Contains(base, ".nc")
    ensures ReplaceAll(base + ".nc", ".nc", ".png") == base + ".png"
    decreases |base|
  {
    var s := base + ".nc";
    if base != [] {
      if |base| >= 3 {
        assert !OccursAt(base, ".nc", 0);
        assert s[..3] == base[0..3];
      } else {
        assert s[|base|] == '.';
        assert s[..3] != ".nc";
      }
      forall i | OccursAt(base[1..], ".nc", i) ensures OccursAt(base, ".nc", i + 1) {
        assert base[1..][i..i + 3] == base[i + 1..i + 4];
      }
      PngOfNc(base[1..]);
      assert s[1..] == base[1..] + ".nc";
      assert base + ".png" == [base[0]] + (base[1..] + ".png");
    }
  }

  /** For a relative file name `base.nc` and an output directory not ending
      in `/`, the plot goes to `outDir/base.png`. */
  lemma OutputNameOf(outDir: string, base: string)
    requires !Contains(base, ".nc") && (base == "" || base[0] != '/')
    requires outDir != "" && outDir[|outDir| - 1] != '/'
    ensures OutputName(outDir, base + ".nc") == outDir + "/" + base + ".png"
  {
    PngOfNc(base);
  }
}
