# Chilbolton temperature and RH utilities: a Dafny model

The utilities process data from the HMP155 air temperature and relative
humidity (RH) probe at Chilbolton. They have three parts.

**Purge flagging** (`flag_purge_times.py`). The probe's RH sensor is purged
about once a day. While a purge runs, RH sits flat. Once it ends, RH drops
sharply and then recovers. For each day the tool:
- finds the flat, unsaturated RH stretches (below 99.5 %);
- widens each stretch by half of an 8-minute minimum;
- scores the stretches by their flatness, preferring those that start in
  plausible purge hours;
- keeps the flattest one, or the two flattest before 13 March 2018, when
  the probe purged twice a day. If only one was found before that date, it
  adds its mirror image 12 hours away when that copy fits within the day's
  samples.

It then writes two flag variables, where 1 is good, 2 is bad, 3 is purge
and 4 is RH recovery:
- both variables get 3 over the purges;
- RH gets 4 over the 6 minutes after each purge;
- RH gets 4 over every sharp dip that falls within 15 minutes of a purge
  window seen on the previous day;
- both variables get 2 over the intervals listed as `BADDATA` in the
  correction files.

**Quicklooks** (`make_quicklooks.py`). These plot each daily file. The
modelled parts are:
- the time intervals over which a flag holds a value;
- the date label read from the file name;
- the name of the PNG.

**Daily split** (`split_cr1000x_data_daily.py`). This splits CR1000X logger
files into one file per day under `YYYY/YYYYMM` directories:
- each daily file starts with the logger's four-line TOA5 header;
- a sample stamped exactly at midnight counts as the end of the previous
  day;
- identical copies of a daily file made from overlapping logger files are
  then deleted.

## How the model is organised

Times are whole seconds since 1970-01-01 (UTC). Dates are proleptic
Gregorian (`Calendar`).

The four loops that walk a boolean mask and collect its runs all share one
scan invariant, `Runs.ScanState`. Each loop is proved to yield exactly the
maximal runs of its mask:
- the purge periods;
- the expected windows from the previous day;
- the intervals in `get_purge_intervals`;
- `filter_short_events`.

The maximal runs of a mask are unique (`Runs.MaximalRunsUnique`), so each
loop's result is determined by the mask alone.

Flag arrays are `array<int>` filled in place. Each filling method is proved
equal to `Flags.Paint`, which applies a sequence of slice assignments
("strokes") in order. Lemmas then say what value each sample ends up with.

The main routine is `DayQc.ProcessDay`. The following are inputs to it
rather than computed by it:
- the rolling-window flatness masks;
- the per-period standard deviations;
- the median sampling interval;
- the length of the rolling window in minutes (`--window-minutes`).

For the daily split, the parsed CSV table is an input (`DailySplit.Table`).
`DailySplit.SplitFile` returns one file per group date. Each file holds:
- its path;
- the four header lines;
- the cleaned column names;
- the rows of that date, in input order.

The split writes each timestamp back with `strftime`.
`DailySplit.ParseFormat` shows that this gives back the text that was read
for the zero-padded `YYYY-MM-DD HH:MM:SS` form the model parses, so such
rows are kept as read.

Deduplication (`Dedup`) works on one month directory. The listing of
`.dat` files is an input, in the order the directory walk yields it.

## Model

| member | source | states |
|---|---|---|
| Calendar.TimeOfDay | chilbolton_temperature_rh_utils/flag_purge_times.py:74-75 | the time of day is in [0, 86400) and the instant is its day times 86400 plus it (datetime64[s] minus datetime64[D]) |
| Calendar.Midnight | chilbolton_temperature_rh_utils/flag_purge_times.py:335 | `replace(hour=0, minute=0, second=0)`: at most the instant, less than a day before it, on the same day, at time of day 0 |
| Calendar.Hour | chilbolton_temperature_rh_utils/flag_purge_times.py:245 | the hour of a timestamp is in 0..23 |
| Calendar.PrevDayNumber | chilbolton_temperature_rh_utils/split_cr1000x_data_daily.py:43 | the date one day back is valid and its day number is one less |
| Text.Words | chilbolton_temperature_rh_utils/flag_purge_times.py:133 | `str.split()` gives non-empty words that contain no whitespace |
| Text.WordsOfJoin | chilbolton_temperature_rh_utils/flag_purge_times.py:133 | joining non-empty, whitespace-free words with spaces and splitting on whitespace gives the words back |
| Text.WordsCoverLine | chilbolton_temperature_rh_utils/flag_purge_times.py:133 | the words, concatenated, are the line with all whitespace removed, so no character is lost or reordered |
| Text.Strip | chilbolton_temperature_rh_utils/split_cr1000x_data_daily.py:29 | `str.strip()` gives a slice of the input with no whitespace at either end |
| Text.StripUnique | chilbolton_temperature_rh_utils/split_cr1000x_data_daily.py:29 | a text with no whitespace at either end, surrounded by any whitespace, strips back to itself; since every string has this form, this fixes `strip` on every input |
| Text.RemoveChar | chilbolton_temperature_rh_utils/split_cr1000x_data_daily.py:29 | `str.replace('"', '')` leaves no quote and never lengthens the text; a single character is dropped iff it is the quote |
| Text.RemoveCharAppend | chilbolton_temperature_rh_utils/split_cr1000x_data_daily.py:29 | removal works piece by piece, so every character other than the quote is kept, in order |
| Text.RemoveCharAbsent | chilbolton_temperature_rh_utils/split_cr1000x_data_daily.py:29 | a text without the quote is unchanged |
| Text.SplitOn | chilbolton_temperature_rh_utils/split_cr1000x_data_daily.py:86 | `str.split(sep)` gives at least one piece and no piece contains the separator |
| Text.SplitOnJoin | chilbolton_temperature_rh_utils/make_quicklooks.py:43 | splitting the join of separator-free pieces gives the pieces back |
| Text.SplitOnSnoc | chilbolton_temperature_rh_utils/split_cr1000x_data_daily.py:86-89 | text after the last separator is the last piece of the split |
| Text.LastIndexOf | chilbolton_temperature_rh_utils/split_cr1000x_data_daily.py:48 | no index iff the character is absent; otherwise the index holds it and no later position does |
| Text.ReplaceAbsent | chilbolton_temperature_rh_utils/make_quicklooks.py:185 | `str.replace` leaves text without the pattern unchanged |
| Text.PadDigitsValue | chilbolton_temperature_rh_utils/split_cr1000x_data_daily.py:50-53 | a zero-padded number of the given width reads back as the number |
| Text.ValuePadDigits | chilbolton_temperature_rh_utils/split_cr1000x_data_daily.py:36 | a digit field read as a number and padded back to its width is the field itself |
| DateText.CompactDate | chilbolton_temperature_rh_utils/split_cr1000x_data_daily.py:53 | `strftime('%Y%m%d')` gives an eight-digit token |
| DateText.TokenDateOfCompact | chilbolton_temperature_rh_utils/make_quicklooks.py:43-44 | reading an eight-digit token as `%Y%m%d` gives back the date it was written from |
| DateText.IsoDate | chilbolton_temperature_rh_utils/make_quicklooks.py:44 | `strftime('%Y-%m-%d')` gives ten characters with dashes at positions 4 and 7 |
| Seqs.FillSlice | chilbolton_temperature_rh_utils/flag_purge_times.py:297-303 | assigning a value to a slice of a flag array changes exactly the clipped slice |
| Runs.ScanStep | chilbolton_temperature_rh_utils/flag_purge_times.py:219-227 | one step of the run scan keeps the invariant: the closed runs are the maximal runs ending before the scan position, and the open run starts at the current run |
| Runs.ScanFinish | chilbolton_temperature_rh_utils/flag_purge_times.py:228-231 | closing an open last run at the end of the mask gives exactly the maximal runs in order, one per run start |
| Runs.MaximalRunsUnique | chilbolton_temperature_rh_utils/flag_purge_times.py:216-231 | the ordered list of maximal runs of a mask is unique |
| Runs.MaximalRunsEmpty | chilbolton_temperature_rh_utils/flag_purge_times.py:216-231 | there are no runs iff no sample of the mask is set |
| Runs.MaximalRunListed | chilbolton_temperature_rh_utils/flag_purge_times.py:216-231 | every maximal run of the mask is in the list |
| Masks.ExcludeHighRh | chilbolton_temperature_rh_utils/flag_purge_times.py:86-88 | a sample stays flagged iff it was flagged and its RH is below the limit |
| Masks.ExcludeHighRhOnlyClears | chilbolton_temperature_rh_utils/flag_purge_times.py:86-88 | the exclusion only clears flags, and applying it twice is the same as once |
| Masks.Expand | chilbolton_temperature_rh_utils/flag_purge_times.py:112 | the widened run contains the run, stays inside the series and is not empty |
| Masks.FilterShortEvents | chilbolton_temperature_rh_utils/flag_purge_times.py:90-117 | a sample is set iff it lies in the widening of a maximal run at least `min_samples` long; the last run ends at the end of the mask |
| Masks.WidenedMaximal | chilbolton_temperature_rh_utils/flag_purge_times.py:104-115 | widening the long runs found by the scan is the same as widening all long maximal runs |
| Masks.PurgeTimesConsistent | chilbolton_temperature_rh_utils/flag_purge_times.py:71-84 | true iff both lists have the same length and times of day at the same position differ by at most one hour |
| Masks.ConsistencyIgnoresDate | chilbolton_temperature_rh_utils/flag_purge_times.py:74-75 | moving any of the previous times by whole days does not change the verdict |
| Dips.Max3 | chilbolton_temperature_rh_utils/flag_purge_times.py:58 | the maximum of the three samples before the dip is one of them and at least each |
| Dips.DetectRhDips | chilbolton_temperature_rh_utils/flag_purge_times.py:30-68 | the result lists exactly the dips (flat sample within the window before `i`, drop at least the threshold, `j` the first recovery within 20 samples and 360 s), in increasing order of `i` |
| Dips.DipListUnique | chilbolton_temperature_rh_utils/flag_purge_times.py:52-66 | two lists that both satisfy the dip specification are equal |
| Periods.Widened | chilbolton_temperature_rh_utils/flag_purge_times.py:224-230 | each purge period is its run widened by `min_duration_samples // 2` on both sides and clipped to the series |
| Periods.ExtractPeriods | chilbolton_temperature_rh_utils/flag_purge_times.py:216-231 | the periods are the widened maximal runs of the purge mask, one per run start, in order |
| Periods.AllStats | chilbolton_temperature_rh_utils/flag_purge_times.py:234-240 | one record per period, holding the period and the time of its first sample |
| Periods.CollectStats | chilbolton_temperature_rh_utils/flag_purge_times.py:234-240 | the loop builds exactly the per-period records |
| Periods.InPurgeHours | chilbolton_temperature_rh_utils/flag_purge_times.py:248 | an hour passes the filter iff it is in 6..16 or 20..22 |
| Periods.CandidatesMeaning | chilbolton_temperature_rh_utils/flag_purge_times.py:243-256 | if some period starts in purge hours, the candidates are exactly those periods, scored `rh_std*100 + temp_std`; otherwise all periods, scored `rh_std + temp_std*10`; none iff no periods |
| Periods.ScoreInPurgeHours | chilbolton_temperature_rh_utils/flag_purge_times.py:243-251 | the loop keeps the periods that start in purge hours, in order, with the primary score |
| Periods.ScoreCandidates | chilbolton_temperature_rh_utils/flag_purge_times.py:243-256 | the method computes the candidate list of the specification, including the fallback |
| Periods.SortByScore | chilbolton_temperature_rh_utils/flag_purge_times.py:259 | sorting is a permutation of the candidates |
| Periods.SortByScoreSorted | chilbolton_temperature_rh_utils/flag_purge_times.py:259 | the result is in non-decreasing order of score |
| Periods.SortByScoreStable | chilbolton_temperature_rh_utils/flag_purge_times.py:259 | the sort is stable: candidates with equal score keep their relative order |
| Periods.FlattestFirst | chilbolton_temperature_rh_utils/flag_purge_times.py:258-264 | the first candidate after sorting has the lowest score of all |
| Periods.KeepCount | chilbolton_temperature_rh_utils/flag_purge_times.py:261-267 | one period is kept from 2018-03-13 on, two before |
| Periods.Retain | chilbolton_temperature_rh_utils/flag_purge_times.py:264-267 | the kept periods are the first `keep` sorted candidates, or all of them if fewer |
| Periods.Mirror | chilbolton_temperature_rh_utils/flag_purge_times.py:269-289 | before the cutover, a single period gains a copy of the same length, 12 hours later if it starts before noon and 12 hours earlier otherwise, and it gains it exactly when the copy is inside the series |
| Periods.ChoosePeriods | chilbolton_temperature_rh_utils/flag_purge_times.py:261-289 | the chosen periods are inside the series: at most one from the cutover on, at most two before |
| Periods.ChosenAreFlattest | chilbolton_temperature_rh_utils/flag_purge_times.py:258-267 | each kept period belongs to some candidate, and the first kept period has the lowest score of all candidates |
| Periods.SelectPurgePeriods | chilbolton_temperature_rh_utils/flag_purge_times.py:216-289 | the periods are the ones chosen from the candidates built from the widened maximal runs of the mask |
| Gating.PreviousDayMask | chilbolton_temperature_rh_utils/flag_purge_times.py:323-326 | a previous-day sample is in a window iff temperature and RH are both flat and RH is below 99.9 % |
| Gating.WindowOf | chilbolton_temperature_rh_utils/flag_purge_times.py:332-341 | a window starts at the run's first time of day; its end is the last sample's offset from the same midnight |
| Gating.ExpectedWindows | chilbolton_temperature_rh_utils/flag_purge_times.py:327-341 | the loop yields one window per maximal run of the previous-day mask, in order, as many as the mask has run starts |
| Gating.NoWindowsWithoutFlags | chilbolton_temperature_rh_utils/flag_purge_times.py:319-341 | there are no windows iff no previous-day sample is in the mask |
| Gating.DipAllowed | chilbolton_temperature_rh_utils/flag_purge_times.py:351-355 | a dip is allowed iff there are no windows, or its time of day is within 900 s of some window |
| Flags.PaintLastWins | chilbolton_temperature_rh_utils/flag_purge_times.py:296-303 | a sample no slice assignment covers keeps its value; otherwise it holds the value of the last assignment covering it |
| Flags.PaintUniform | chilbolton_temperature_rh_utils/flag_purge_times.py:297 | when all assignments write the same value, a sample holds it iff some assignment covers it |
| Flags.RecoverySpan | chilbolton_temperature_rh_utils/flag_purge_times.py:301-302 | the recovery tail starts where the purge ends, is at most `recovery` samples long and stays inside the series |
| Flags.ApplyPurgeFlags | chilbolton_temperature_rh_utils/flag_purge_times.py:296-303 | the temperature flags become the purge slices applied in order; the RH flags become each purge followed by its recovery tail, in order |
| Flags.TempPurgeFlagsMeaning | chilbolton_temperature_rh_utils/flag_purge_times.py:296-297 | a temperature flag is 3 iff some purge period covers the sample, and is unchanged otherwise |
| Flags.RhPurgeFlagsLastPeriod | chilbolton_temperature_rh_utils/flag_purge_times.py:296-303 | when no later period or tail covers a sample, it is 3 if the period covers it and 4 if that period's tail does |
| Flags.RhPurgeFlagsUntouched | chilbolton_temperature_rh_utils/flag_purge_times.py:296-303 | a sample covered by no period and no tail keeps its RH flag |
| Flags.ApplyDipFlags | chilbolton_temperature_rh_utils/flag_purge_times.py:347-366 | the RH flags become the dip slices `[i+1, j)` of the allowed dips applied in order |
| Flags.AllowedDipsPainted | chilbolton_temperature_rh_utils/flag_purge_times.py:357-366 | every allowed dip contributes its slice |
| Flags.DipStrokeFromAllowed | chilbolton_temperature_rh_utils/flag_purge_times.py:357-366 | every dip slice comes from an allowed dip |
| Flags.DipFlagsMeaning | chilbolton_temperature_rh_utils/flag_purge_times.py:347-366 | an RH flag becomes 4 iff some allowed dip has `i < k < j`, and is unchanged otherwise |
| Corrections.ParseStamp | chilbolton_temperature_rh_utils/flag_purge_times.py:138-139 | a parsed `%Y%m%d%H%M%S` stamp is 14 digits of a valid date, and the instant has that day number and time of day |
| Corrections.RecordOnOneDay | chilbolton_temperature_rh_utils/flag_purge_times.py:135-139 | the start and end of a correction line fall on the same day |
| Corrections.ReadBadIntervals | chilbolton_temperature_rh_utils/flag_purge_times.py:129-141 | the loop over the lines computes the specified result |
| Corrections.BadIntervalsMeaning | chilbolton_temperature_rh_utils/flag_purge_times.py:132-141 | reading succeeds iff every four-word `BADDATA` line parses; the intervals are then those lines' intervals, in order |
| Corrections.BadIntervalsErr | chilbolton_temperature_rh_utils/flag_purge_times.py:138-139 | once a line fails to parse, later lines do not change the outcome |
| Corrections.BadFlags | chilbolton_temperature_rh_utils/flag_purge_times.py:143-150 | a flag is 2 iff its time is within some closed interval or it was already 2; times outside every interval keep their flag |
| Corrections.BadFlagsIdempotent | chilbolton_temperature_rh_utils/flag_purge_times.py:143-150 | applying the same intervals twice is the same as once |
| Corrections.BadFlagsSnoc | chilbolton_temperature_rh_utils/flag_purge_times.py:147-149 | each further interval overwrites with 2 exactly the samples it contains |
| Corrections.FlagBadData | chilbolton_temperature_rh_utils/flag_purge_times.py:143-150 | the in-place loop leaves exactly the specified flags |
| DayQc.WindowSamples | chilbolton_temperature_rh_utils/flag_purge_times.py:203 | `int(window_minutes * 60 / time_diff)` truncated toward zero; positive exactly when the window spans at least one sampling interval |
| DayQc.AllGood | chilbolton_temperature_rh_utils/flag_purge_times.py:292-293 | the flags start as 1 everywhere |
| DayQc.ReadCorrections | chilbolton_temperature_rh_utils/flag_purge_times.py:388-396 | with no correction file, no intervals; with a file, the parsed intervals or the parse error |
| DayQc.PreviousWindows | chilbolton_temperature_rh_utils/flag_purge_times.py:319-341 | no windows without a previous day; otherwise one per maximal run of its purge mask |
| DayQc.DayPurgePeriods | chilbolton_temperature_rh_utils/flag_purge_times.py:202-289 | the periods come from the flat RH below 99.5 %, widened by half of 8 minutes in samples and mirrored at 12 hours in samples; they are inside the series and limited to one or two by date |
| DayQc.PurgeFlags | chilbolton_temperature_rh_utils/flag_purge_times.py:291-303 | fresh flag arrays holding the purge stage of both variables |
| DayQc.ApplyCorrections | chilbolton_temperature_rh_utils/flag_purge_times.py:387-396 | on success, the flags are the correction intervals applied to the earlier flags |
| DayQc.ProcessDay | chilbolton_temperature_rh_utils/flag_purge_times.py:198-396 | it fails iff there are fewer than two samples, the median interval is not positive, the rolling window is not positive (`window_minutes * 60` shorter than the interval), or a correction file does not parse; otherwise the flags are the purge, dip and correction stages applied in the source's order |
| DayQc.TempFlagsMeaning | chilbolton_temperature_rh_utils/flag_purge_times.py:291-297 | a final temperature flag is 2 inside a correction interval, else 3 inside a purge, else 1 |
| DayQc.RhPurgeStageValues | chilbolton_temperature_rh_utils/flag_purge_times.py:293-303 | after the purge stage every RH flag is 1, 3 or 4 |
| DayQc.RhFlagsMeaning | chilbolton_temperature_rh_utils/flag_purge_times.py:293-396 | a final RH flag is 2 inside a correction interval, else 4 inside an allowed dip, else its purge-stage value; always 1 to 4 |
| DayQc.BadOnlyFromCorrections | chilbolton_temperature_rh_utils/flag_purge_times.py:387-396 | a final flag is 2 iff its time is in a correction interval of that variable |
| Quicklooks.FlagMask | chilbolton_temperature_rh_utils/make_quicklooks.py:20 | a sample is set iff its flag equals the value |
| Quicklooks.IntervalsOf | chilbolton_temperature_rh_utils/make_quicklooks.py:27-33 | one interval per run, from the run's first sample time to its last |
| Quicklooks.GetPurgeIntervals | chilbolton_temperature_rh_utils/make_quicklooks.py:18-34 | the intervals are those of the maximal runs of the flag mask, one per run start, in order |
| Quicklooks.NoIntervalsIffAbsent | chilbolton_temperature_rh_utils/make_quicklooks.py:18-34 | there are no intervals iff no sample carries the flag value |
| Quicklooks.IntervalsOrdered | chilbolton_temperature_rh_utils/make_quicklooks.py:18-34 | for increasing times, each interval starts no later than it ends, and each ends before the next starts |
| Quicklooks.IntervalsCoverFlags | chilbolton_temperature_rh_utils/make_quicklooks.py:18-34 | for increasing times, a sample carries the flag value iff its time lies in some interval |
| Quicklooks.FirstDateToken | chilbolton_temperature_rh_utils/make_quicklooks.py:43 | no token iff no piece is eight digits; a token found is eight digits |
| Quicklooks.FirstDateTokenAt | chilbolton_temperature_rh_utils/make_quicklooks.py:43 | the token is the piece at the first position holding one |
| Quicklooks.DateLabel | chilbolton_temperature_rh_utils/make_quicklooks.py:42-46 | the label is `unknown_date` or a `YYYY-MM-DD` text |
| Quicklooks.DateLabelOfName | chilbolton_temperature_rh_utils/make_quicklooks.py:42-46 | a name whose first eight-digit piece spells an in-range date is labelled with that date |
| Quicklooks.PathJoin | chilbolton_temperature_rh_utils/make_quicklooks.py:185 | `os.path.join`: the name ends the path; an absolute name replaces the directory; otherwise the directory comes first with one `/` between |
| Quicklooks.PngOfNc | chilbolton_temperature_rh_utils/make_quicklooks.py:185 | `base.nc` becomes `base.png` when the base holds no `.nc` |
| Quicklooks.OutputNameOf | chilbolton_temperature_rh_utils/make_quicklooks.py:185 | the plot of `base.nc` goes to `outdir/base.png` |
| DailySplit.ParseTimestamp | chilbolton_temperature_rh_utils/split_cr1000x_data_daily.py:36 | a parsed timestamp has the `YYYY-MM-DD HH:MM:SS` shape and is a valid date and clock time in the pandas range |
| DailySplit.ParseFormat | chilbolton_temperature_rh_utils/split_cr1000x_data_daily.py:36-60 | writing a parsed timestamp back with `strftime` gives the text that was read |
| DailySplit.FormatParse | chilbolton_temperature_rh_utils/split_cr1000x_data_daily.py:36-60 | parsing a written timestamp gives the timestamp back |
| DailySplit.GroupDate | chilbolton_temperature_rh_utils/split_cr1000x_data_daily.py:39-45 | the group date is valid, and the instant lies after its midnight and no later than the next midnight |
| DailySplit.GroupDay | chilbolton_temperature_rh_utils/split_cr1000x_data_daily.py:39-45 | the group date is the date of the instant one second earlier |
| DailySplit.CleanColumns | chilbolton_temperature_rh_utils/split_cr1000x_data_daily.py:29 | each column name is stripped and has its quotes removed |
| DailySplit.ColumnIndex | chilbolton_temperature_rh_utils/split_cr1000x_data_daily.py:31 | no index iff the column is missing; otherwise the index of its first occurrence |
| DailySplit.GroupDates | chilbolton_temperature_rh_utils/split_cr1000x_data_daily.py:49 | the groups are exactly the group dates of the retained rows |
| DailySplit.DirJoin | chilbolton_temperature_rh_utils/split_cr1000x_data_daily.py:54-56 | `Path(dir) / name` is the name alone, or the directory followed by the name, with `/` between them unless the directory already ends in one |
| DailySplit.Stem | chilbolton_temperature_rh_utils/split_cr1000x_data_daily.py:48 | `Path.stem` contains no `/` |
| DailySplit.StemOfOutput | chilbolton_temperature_rh_utils/split_cr1000x_data_daily.py:48-56 | the stem of a daily file is the input stem, `_` and the compact date |
| DailySplit.OutputPathEnds | chilbolton_temperature_rh_utils/split_cr1000x_data_daily.py:50-56 | a daily path ends with the eight-digit date and `.dat` |
| DailySplit.OutputPathsDistinct | chilbolton_temperature_rh_utils/split_cr1000x_data_daily.py:49-56 | different dates of one input file go to different paths |
| DailySplit.SplitFile | chilbolton_temperature_rh_utils/split_cr1000x_data_daily.py:16-70 | it fails iff the file has fewer than four lines; a missing timestamp column writes nothing |
| DailySplit.DailyFileShape | chilbolton_temperature_rh_utils/split_cr1000x_data_daily.py:49-70 | each daily file has its dated path, the four header lines, the cleaned columns and at least one row |
| DailySplit.RetainedRowLandsOnce | chilbolton_temperature_rh_utils/split_cr1000x_data_daily.py:36-49 | a row with a parseable timestamp is in the file of its group date and in no other |
| DailySplit.DroppedRowNowhere | chilbolton_temperature_rh_utils/split_cr1000x_data_daily.py:36-37 | a row whose timestamp does not parse is in no daily file |
| DailySplit.RowsInsideTheirDay | chilbolton_temperature_rh_utils/split_cr1000x_data_daily.py:39-49 | every row of the file for day `d` has an instant after `d`'s midnight and no later than the next midnight |
| Dedup.DedupKey | chilbolton_temperature_rh_utils/split_cr1000x_data_daily.py:86-89 | there is no key iff the stem has no `_` |
| Dedup.DedupKeyOfSuffix | chilbolton_temperature_rh_utils/split_cr1000x_data_daily.py:86-89 | the key is the text after the last `_` |
| Dedup.DailyFileKey | chilbolton_temperature_rh_utils/split_cr1000x_data_daily.py:56-89 | the key of a file written by the split is its compact date |
| Dedup.FirstOfGroup | chilbolton_temperature_rh_utils/split_cr1000x_data_daily.py:96 | the kept file is the first listed file with the key |
| Dedup.Members | chilbolton_temperature_rh_utils/split_cr1000x_data_daily.py:83-90 | a group lists exactly the files with its key, in listing order |
| Dedup.MembersStartWithFirst | chilbolton_temperature_rh_utils/split_cr1000x_data_daily.py:90-96 | a group's first member is its first file |
| Dedup.GroupByKey | chilbolton_temperature_rh_utils/split_cr1000x_data_daily.py:83-90 | the dictionary maps each key present to its non-empty group; absent keys have no files |
| Dedup.DeleteCopies | chilbolton_temperature_rh_utils/split_cr1000x_data_daily.py:92-103 | the files deleted from a group are exactly the later members identical to its first |
| Dedup.DeduplicateMonth | chilbolton_temperature_rh_utils/split_cr1000x_data_daily.py:83-103 | a file is deleted iff it has a key, is not the first file with that key, and has the same content as that first file; this holds in whatever order the groups are taken |
| Dedup.FirstOfGroupUnique | chilbolton_temperature_rh_utils/split_cr1000x_data_daily.py:96 | the first file with a key is determined by the listing |
| Dedup.DedupLosesNothing | chilbolton_temperature_rh_utils/split_cr1000x_data_daily.py:96-101 | every deleted file has an earlier, kept file with the same key and the same content |
| Dedup.Survivors | chilbolton_temperature_rh_utils/split_cr1000x_data_daily.py:92-103 | the kept files, in listing order, are exactly those not deleted |
| Dedup.DedupIdempotent | chilbolton_temperature_rh_utils/split_cr1000x_data_daily.py:74-103 | running the deduplication on the kept files deletes nothing more |

## Left out

- `detect_flat` (flag_purge_times.py:11-27) and the rolling standard deviation are not modelled. The flatness masks are inputs (`DayQc.Series`, `DayQc.PreviousDay`).
- The per-period standard deviations of lines 236-237 are inputs, as functions of the period. NaN results of empty slices are not modelled.
- The median sampling interval (line 202) and `window_minutes` (line 166) are parameters. `window_size` (line 203) only feeds `detect_flat`, whose result is an input. `DayQc.WindowSamples` computes it, and `DayQc.ProcessDay` fails when it is not positive, because the rolling window of line 24 is then refused.
- The sort by time at lines 199 and 322 is not modelled. The series are taken as already sorted.
- RH and temperature are exact reals: floating-point rounding and NaN comparisons are not modelled.
- NetCDF reading and writing, the flag attributes (lines 369-385), `set_time_units_to_seconds_since_epoch` (lines 119-127), argparse, and the printed messages are left out. They are I/O.
- The early return when the dataset has no `time` variable (lines 191-196) is left out: the model always receives a time axis.
- Lines 343-363 flag the 8 minutes before a dip as purge only when `enable_purge_flagging_before_rh_dip` is set. The source fixes it to `False`, so that branch and `buffer_samples` are not modelled.
- DayQc.ProcessDay: where the source raises, the model returns an error instead of an exception. This covers three cases: fewer than two samples, so no median interval; a zero interval, so a division by zero; and a rolling window of no samples.
- Corrections.ParseStamp: accepts only the 14-digit zero-padded form. Python's `strptime` also accepts shorter concatenations with unpadded fields, which the model reports as errors.
- Digits are ASCII only. `DateText.IsDateToken` and `Corrections.ParseStamp` do not accept the other Unicode digits that `str.isdigit` (make_quicklooks.py:43) and `strptime` (flag_purge_times.py:138-139) accept.
- Corrections.RecordOnOneDay: is stated only for lines whose date field has eight digits.
- The error messages are not modelled, only whether an error occurs.
- In the quicklook plotter, drawing, the figure layout, the directory walk and `main` are left out.
- make_quicklooks.py:48 passes the label to `pd.to_datetime`. With the `unknown_date` fallback this raises, so a file without a date token is not plotted. Only the label itself (`Quicklooks.DateLabel`) is modelled.
- Quicklooks.DateLabel: when the token is not a valid date, the model returns an error where pandas raises.
- DailySplit.ParseTimestamp: accepts only the canonical 19-character `YYYY-MM-DD HH:MM:SS` form within the pandas nanosecond range. Unpadded fields that pandas may also accept are treated as unparseable.
- CSV parsing and writing are left out: `read_csv` and `to_csv` quoting are not modelled. The parsed table is an input, and two columns that are equal after cleaning resolve to the first, where the source raises because the timestamp selection is then a table rather than a column.
- DailySplit.DirJoin: does not normalise `.` components or repeated slashes the way `pathlib` does.
- The directory creation and the order in which daily files are written are not modelled. The result is a map from dates to files.
- The `glob` order of the month directory is an input. The walk over year and month directories and the order of deletions are not modelled.
- `filecmp.cmp` is modelled as byte equality of the contents, its behaviour with `shallow=False` on regular files.
- `main` of the splitter (file discovery and calling the two steps) is left out.
- The year drivers (`proc_year*.py`) are not part of this model.
