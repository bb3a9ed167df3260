/** Correction files: lines `YYYYMMDD HHMMSS HHMMSS BADDATA` name intervals
    of bad data, and every sample whose time falls in one of them (ends
    included) is flagged 2. */
module Corrections {
  import opened Wrappers
  import opened Calendar
  import opened Text
  import opened Flags
  import Seqs

  /** A bad-data interval, both ends included, in epoch seconds. */
  datatype BadInterval = BadInterval(start: int, end: int)

  const BadDataLabel: string := "BADDATA"

  /** The whitespace-separated fields of a line (`line.strip().split()`). */
  function Fields(line: string): seq<string>
  {
    Words(Strip(line))
  }

  /** A line that names a bad interval: four fields, the last `BADDATA`. */
  predicate IsBadDataLine(line: string)
  {
    |Fields(line)| == 4 && Fields(line)[3] == BadDataLabel
  }

  function Field(s: string, lo: nat, hi: nat): nat
    requires lo <= hi <= |s| && AllDigits(s)
  {
    DigitsValue(s[lo..hi])
  }

  /** `datetime.strptime(s, "%Y%m%d%H%M%S")` on fourteen ASCII digits,
      as epoch seconds: the fields must form a valid date (years 1 to 9999)
      and a time of day with hours up to 23 and minutes and seconds up to
      59. Anything else is an error. */
  function ParseStamp(s: string): (r: Result<int>)
    ensures r.Ok? ==> |s| == 14 && AllDigits(s)
    ensures r.Ok? ==>
      var d := Date(Field(s, 0, 4), Field(s, 4, 6), Field(s, 6, 8));
      && ValidDate(d)
      && Day(r.value) == DayNumber(d)
      && TimeOfDay(r.value) == Field(s, 8, 10) * SecondsPerHour + Field(s, 10, 12) * 60 + Field(s, 12, 14)
  {
    if |s| != 14 || !AllDigits(s) then Err("time data does not match format '%Y%m%d%H%M%S'")
    else
      var d := Date(Field(s, 0, 4), Field(s, 4, 6), Field(s, 6, 8));
      var hour, minute, second := Field(s, 8, 10), Field(s, 10, 12), Field(s, 12, 14);
      if !ValidDate(d) || hour > 23 || minute > 59 || second > 59 then Err("date or time out of range")
      else
        var secs := hour * SecondsPerHour + minute * 60 + second;
        DayOfTimestamp(DayNumber(d), secs);
        Ok(DayNumber(d) * SecondsPerDay + secs)
  }

  /** The interval of a BADDATA line: the date followed by the start time,
      and the date followed by the end time. */
  function ParseRecord(line: string): Result<BadInterval>
    requires IsBadDataLine(line)
  {
    var f := Fields(line);
    match ParseStamp(f[0] + f[1])
    case Err(e) => Err(e)
    case Ok(start) =>
      match ParseStamp(f[0] + f[2])
      case Err(e) => Err(e)
      case Ok(end) => Ok(BadInterval(start, end))
  }

  /** With an eight-digit date field both ends of an interval fall on that
      date. */
  lemma RecordOnOneDay(line: string)
    requires IsBadDataLine(line) && |Fields(line)[0]| == 8 && ParseRecord(line).Ok?
    ensures Day(ParseRecord(line).value.start) == Day(ParseRecord(line).value.end)
    ensures 0 <= ParseRecord(line).value.start - Midnight(ParseRecord(line).value.start) < SecondsPerDay
  {
    var f := Fields(line);
    var a, b := f[0] + f[1], f[0] + f[2];
    assert a[0..4] == b[0..4] && a[4..6] == b[4..6] && a[6..8] == b[6..8];
  }

  /** Reading one more line: an earlier error stands; a BADDATA line adds
      its interval or, when it does not parse, becomes the error; any other
      line is skipped. */
  function ReadLine(acc: Result<seq<BadInterval>>, line: string): Result<seq<BadInterval>>
  {
    match acc
    case Err(e) => Err(e)
    case Ok(ivs) =>
      if !IsBadDataLine(line) then Ok(ivs)
      else match ParseRecord(line)
        case Err(e) => Err(e)
        case Ok(iv) => Ok(ivs + [iv])
  }

  /** The result of reading all lines: the intervals of the BADDATA lines in
      file order, or the error of the first BADDATA line that does not
      parse. */
  function BadIntervals(lines: seq<string>): Result<seq<BadInterval>>
  {
    if lines == [] then Ok([])
    else ReadLine(BadIntervals(lines[..|lines| - 1]), lines[|lines| - 1])
  }

  lemma BadIntervalsSnoc(lines: seq<string>, line: string)
    ensures BadIntervals(lines + [line]) == ReadLine(BadIntervals(lines), line)
  {
    assert (lines + [line])[..|lines|] == lines;
  }

  /** `read_bad_intervals` on the lines of a correction file. */
  method ReadBadIntervals(lines: seq<string>) returns (r: Result<seq<BadInterval>>)
    ensures r == BadIntervals(lines)
  {
    var intervals: seq<BadInterval> := [];
    for i := 0 to |lines|
      invariant BadIntervals(lines[..i]) == Ok(intervals)
    {
      ReadStep(lines, i);
      if IsBadDataLine(lines[i]) {
        var rec := ParseRecord(lines[i]);
        if rec.Err? {
          BadIntervalsErr(lines, i + 1);
          return Err(rec.message);
        }
        intervals := intervals + [rec.value];
      }
    }
    assert lines[..|lines|] == lines;
    r := Ok(intervals);
  }

  /** Reading the lines up to `i + 1` is reading line `i` after the lines
      before it. */
  lemma ReadStep(lines: seq<string>, i: nat)
    requires i < |lines|
    ensures BadIntervals(lines[..i + 1]) == ReadLine(BadIntervals(lines[..i]), lines[i])
  {
    BadIntervalsSnoc(lines[..i], lines[i]);
    assert lines[..i + 1] == lines[..i] + [lines[i]];
  }

  /** Once reading fails, the rest of the file does not change the error. */
  lemma {:induction false} BadIntervalsErr(lines: seq<string>, i: nat)
    requires i <= |lines| && BadIntervals(lines[..i]).Err?
    ensures BadIntervals(lines) == BadIntervals(lines[..i])
    decreases |lines| - i
  {
    if i < |lines| {
      BadIntervalsSnoc(lines[..i], lines[i]);
      assert lines[..i + 1] == lines[..i] + [lines[i]];
      BadIntervalsErr(lines, i + 1);
    } else {
      assert lines[..i] == lines;
    }
  }

  /** The BADDATA lines, in file order. */
  function Records(lines: seq<string>): (r: seq<string>)
    ensures forall t :: 0 <= t < |r| ==> IsBadDataLine(r[t])
  {
    var r := Seqs.Filter(lines, IsBadDataLine);
    assert forall t :: 0 <= t < |r| ==> r[t] in r;
    r
  }

  /** Every BADDATA line among `records` parses. */
  predicate AllParse(records: seq<string>)
    requires forall t :: 0 <= t < |records| ==> IsBadDataLine(records[t])
  {
    forall t :: 0 <= t < |records| ==> ParseRecord(records[t]).Ok?
  }

  /** `ivs` are the intervals of `records`, one each, in order. */
  predicate IntervalsOf(ivs: seq<BadInterval>, records: seq<string>)
    requires forall t :: 0 <= t < |records| ==> IsBadDataLine(records[t])
  {
    && |ivs| == |records|
    && forall t :: 0 <= t < |records| ==> ParseRecord(records[t]) == Ok(ivs[t])
  }

  /** Reading succeeds exactly when every BADDATA line parses, and then
      yields one interval per BADDATA line, in order; other lines are
      ignored. */
  lemma {:induction false} BadIntervalsMeaning(lines: seq<string>)
    ensures BadIntervals(lines).Ok? <==> AllParse(Records(lines))
    ensures BadIntervals(lines).Ok? ==> IntervalsOf(BadIntervals(lines).value, Records(lines))
  {
    if lines != [] {
      var init, last := lines[..|lines| - 1], lines[|lines| - 1];
      BadIntervalsMeaning(init);
      assert lines == init + [last];
      BadIntervalsSnoc(init, last);
      Seqs.FilterSnoc(init, last, IsBadDataLine);
      MeaningStep(BadIntervals(init), Records(init), last);
    }
  }

  /** The step of `BadIntervalsMeaning`: reading one more line keeps the
      correspondence between the result and the BADDATA lines. */
  lemma MeaningStep(acc: Result<seq<BadInterval>>, records: seq<string>, line: string)
    requires forall t :: 0 <= t < |records| ==> IsBadDataLine(records[t])
    requires acc.Ok? <==> AllParse(records)
    requires acc.Ok? ==> IntervalsOf(acc.value, records)
    ensures var records' := records + (if IsBadDataLine(line) then [line] else []);
      && (ReadLine(acc, line).Ok? <==> AllParse(records'))
      && (ReadLine(acc, line).Ok? ==> IntervalsOf(ReadLine(acc, line).value, records'))
  {
    if IsBadDataLine(line) {
      RecordStep(acc, records, line);
    } else {
      assert records + [] == records;
    }
  }

  /** `MeaningStep` for a BADDATA line. */
  lemma RecordStep(acc: Result<seq<BadInterval>>, records: seq<string>, line: string)
    requires forall t :: 0 <= t < |records| ==> IsBadDataLine(records[t])
    requires IsBadDataLine(line)
    requires acc.Ok? <==> AllParse(records)
    requires acc.Ok? ==> IntervalsOf(acc.value, records)
    ensures var records' := records + [line];
      && (ReadLine(acc, line).Ok? <==> AllParse(records'))
      && (ReadLine(acc, line).Ok? ==> IntervalsOf(ReadLine(acc, line).value, records'))
  {
    var records' := records + [line];
    assert forall t :: 0 <= t < |records| ==> records'[t] == records[t];
    assert records'[|records|] == line;
    if acc.Err? {
      var t :| 0 <= t < |records| && !ParseRecord(records[t]).Ok?;
      assert !ParseRecord(records'[t]).Ok?;
    } else {
      var rec := ParseRecord(line);
      assert ReadLine(acc, line) == if rec.Ok? then Ok(acc.value + [rec.value]) else Err(rec.message);
    }
  }

  // ---------------------------------------------------------------------
  // flag_bad_data_xr

  predicate InInterval(t: int, iv: BadInterval)
  {
    iv.start <= t <= iv.end
  }

  predicate InSomeInterval(t: int, intervals: seq<BadInterval>)
  {
    exists u :: 0 <= u < |intervals| && InInterval(t, intervals[u])
  }

  /** The flags after marking bad data: 2 wherever the sample time lies in
      an interval, the old flag elsewhere. */
  function BadFlags(flags: seq<int>, times: seq<int>, intervals: seq<BadInterval>): (r: seq<int>)
    requires |flags| == |times|
    ensures |r| == |flags|
    ensures forall k :: 0 <= k < |r| ==> (r[k] == Bad <==> InSomeInterval(times[k], intervals) || flags[k] == Bad)
    ensures forall k :: 0 <= k < |r| && !InSomeInterval(times[k], intervals) ==> r[k] == flags[k]
  {
    seq(|flags|, k requires 0 <= k < |flags| => if InSomeInterval(times[k], intervals) then Bad else flags[k])
  }

  /** Marking the same intervals twice changes nothing more. */
  lemma BadFlagsIdempotent(flags: seq<int>, times: seq<int>, intervals: seq<BadInterval>)
    requires |flags| == |times|
    ensures BadFlags(BadFlags(flags, times, intervals), times, intervals) == BadFlags(flags, times, intervals)
  {
  }

  /** Marking the intervals one at a time is marking them all at once. */
  lemma BadFlagsSnoc(flags: seq<int>, times: seq<int>, intervals: seq<BadInterval>, iv: BadInterval)
    requires |flags| == |times|
    ensures BadFlags(flags, times, intervals + [iv])
         == seq(|flags|, k requires 0 <= k < |flags| => if InInterval(times[k], iv) then Bad else BadFlags(flags, times, intervals)[k])
  {
    forall k | 0 <= k < |flags|
      ensures InSomeInterval(times[k], intervals + [iv]) <==> InSomeInterval(times[k], intervals) || InInterval(times[k], iv)
    {
      if InSomeInterval(times[k], intervals) {
        var u :| 0 <= u < |intervals| && InInterval(times[k], intervals[u]);
        assert (intervals + [iv])[u] == intervals[u];
      }
      assert (intervals + [iv])[|intervals|] == iv;
    }
  }

  /** `flag_bad_data_xr`: for each interval in turn, every sample whose time
      lies in it is set to 2. */
  method FlagBadData(qc: array<int>, times: seq<int>, intervals: seq<BadInterval>)
    requires qc.Length == |times|
    modifies qc
    ensures qc[..] == BadFlags(old(qc[..]), times, intervals)
  {
    ghost var flags0 := qc[..];
    for u := 0 to |intervals|
      invariant qc[..] == BadFlags(flags0, times, intervals[..u])
    {
      var iv := intervals[u];
      BadFlagsSnoc(flags0, times, intervals[..u], iv);
      assert intervals[..u + 1] == intervals[..u] + [iv];
      forall k | 0 <= k < qc.Length && iv.start <= times[k] <= iv.end {
        qc[k] := Bad;
      }
    }
    assert intervals[..|intervals|] == intervals;
  }
}
