/** `split_file`: a CR1000X data file (four TOA5 header lines, then a CSV
    table) is cut into one file per day. A sample stamped exactly at
    midnight closes the day before, so day `d` holds the samples in
    `(d 00:00:00, d+1 00:00:00]`. */
module DailySplit {
  import opened Wrappers
  import opened Calendar
  import opened Text
  import opened DateText
  import Seqs

  // ---------------------------------------------------------------------
  // Timestamps: `pd.to_datetime(..., format='%Y-%m-%d %H:%M:%S',
  // errors='coerce')` and `strftime` with the same format

  /** A timestamp from the data: its calendar date and the seconds since
      midnight of that date. */
  datatype Stamp = Stamp(date: Date, secs: int)

  /** Epoch seconds of a timestamp. */
  function Epoch(st: Stamp): int
    requires 1 <= st.date.month <= 12
  {
    DayNumber(st.date) * SecondsPerDay + st.secs
  }

  /** A timestamp pandas can hold: a valid date, a time of day, and an
      instant inside the range of `pandas.Timestamp`. */
  predicate ValidStamp(st: Stamp)
  {
    ValidDate(st.date) && 0 <= st.secs < SecondsPerDay && InTimestampRange(Epoch(st))
  }

  /** Text laid out as `YYYY-MM-DD HH:MM:SS`: ASCII digits with the
      separators in place. */
  predicate Shaped(s: string)
  {
    && |s| == 19
    && s[4] == '-' && s[7] == '-' && s[10] == ' ' && s[13] == ':' && s[16] == ':'
    && AllDigits(s[0..4]) && AllDigits(s[5..7]) && AllDigits(s[8..10])
    && AllDigits(s[11..13]) && AllDigits(s[14..16]) && AllDigits(s[17..19])
  }

  /** The timestamp a cell spells, or `None` (NaT) when it is not a valid
      date and time in `%Y-%m-%d %H:%M:%S` or lies outside the range of
      `pandas.Timestamp`. */
  function ParseTimestamp(s: string): (r: Option<Stamp>)
    ensures r.Some? ==> Shaped(s) && ValidStamp(r.value)
  {
    if !Shaped(s) then None
    else
      var d := Date(DigitsValue(s[0..4]), DigitsValue(s[5..7]), DigitsValue(s[8..10]));
      var hour, minute, second := DigitsValue(s[11..13]), DigitsValue(s[14..16]), DigitsValue(s[17..19]);
      if !ValidDate(d) || hour > 23 || minute > 59 || second > 59 then None
      else
        var st := Stamp(d, hour * SecondsPerHour + minute * 60 + second);
        if InTimestampRange(Epoch(st)) then Some(st) else None
  }

  /** The six fields put together with the separators of
      `%Y-%m-%d %H:%M:%S`. */
  function Layout(year: string, month: string, day: string, hour: string, minute: string, second: string): string
  {
    year + "-" + month + "-" + day + " " + hour + ":" + minute + ":" + second
  }

  /** A laid-out string is the layout of its own fields. */
  lemma LayoutFields(s: string)
    requires |s| == 19 && s[4] == '-' && s[7] == '-' && s[10] == ' ' && s[13] == ':' && s[16] == ':'
    ensures s == Layout(s[0..4], s[5..7], s[8..10], s[11..13], s[14..16], s[17..19])
  {
    assert s[..4] + "-" == s[..5];
    assert s[..5] + s[5..7] == s[..7];
    assert s[..7] + "-" == s[..8];
    assert s[..8] + s[8..10] == s[..10];
    assert s[..10] + " " == s[..11];
    assert s[..11] + s[11..13] == s[..13];
    assert s[..13] + ":" == s[..14];
    assert s[..14] + s[14..16] == s[..16];
    assert s[..16] + ":" == s[..17];
    assert s[..17] + s[17..19] == s;
  }

  /** The fields of a layout of fields of the right widths. */
  lemma FieldsOfLayout(year: string, month: string, day: string, hour: string, minute: string, second: string)
    requires |year| == 4 && |month| == 2 && |day| == 2 && |hour| == 2 && |minute| == 2 && |second| == 2
    ensures var s := Layout(year, month, day, hour, minute, second);
      && |s| == 19 && s[4] == '-' && s[7] == '-' && s[10] == ' ' && s[13] == ':' && s[16] == ':'
      && s[0..4] == year && s[5..7] == month && s[8..10] == day
      && s[11..13] == hour && s[14..16] == minute && s[17..19] == second
  {
    var date := year + "-" + month + "-" + day;
    var clock := hour + ":" + minute + ":" + second;
    var s := Layout(year, month, day, hour, minute, second);
    assert s == date + " " + clock;
    assert s[..10] == date && s[11..] == clock;
    assert date[0..4] == year && date[5..7] == month && date[8..10] == day;
    assert clock[0..2] == hour && clock[3..5] == minute && clock[6..8] == second;
    assert s[0..4] == date[0..4] && s[5..7] == date[5..7] && s[8..10] == date[8..10];
    assert s[11..13] == clock[0..2] && s[14..16] == clock[3..5] && s[17..19] == clock[6..8];
  }

  /** `strftime('%Y-%m-%d %H:%M:%S')`. */
  function FormatTimestamp(st: Stamp): (s: string)
    requires ValidDate(st.date) && 0 <= st.secs < SecondsPerDay
  {
    Layout(PadDigits(st.date.year, 4), PadDigits(st.date.month, 2), PadDigits(st.date.day, 2),
           PadDigits(st.secs / SecondsPerHour, 2), PadDigits(st.secs % SecondsPerHour / 60, 2), PadDigits(st.secs % 60, 2))
  }

  /** Hours, minutes and seconds are recovered from the seconds since
      midnight. */
  lemma ClockFields(hour: int, minute: int, second: int)
    requires 0 <= hour <= 23 && 0 <= minute <= 59 && 0 <= second <= 59
    ensures var secs := hour * SecondsPerHour + minute * 60 + second;
      && secs / SecondsPerHour == hour
      && secs % SecondsPerHour / 60 == minute
      && secs % 60 == second
  {
    var secs := hour * SecondsPerHour + minute * 60 + second;
    assert 0 <= minute * 60 + second < SecondsPerHour;
    assert secs % SecondsPerHour == minute * 60 + second;
    assert secs == (hour * 60 + minute) * 60 + second;
  }

  /** The seconds since midnight are put back together from their hours,
      minutes and seconds. */
  lemma ClockSplit(secs: int)
    requires 0 <= secs < SecondsPerDay
    ensures var hour, minute, second := secs / SecondsPerHour, secs % SecondsPerHour / 60, secs % 60;
      && 0 <= hour <= 23 && 0 <= minute <= 59 && 0 <= second <= 59
      && secs == hour * SecondsPerHour + minute * 60 + second
  {
    var r := secs % SecondsPerHour;
    assert secs == secs / SecondsPerHour * SecondsPerHour + r;
    assert r == r / 60 * 60 + r % 60;
    assert secs % 60 == r % 60 by {
      assert secs == (secs / SecondsPerHour * 60 + r / 60) * 60 + r % 60;
    }
  }

  /** The timestamp spelled by the fields of a shaped string, before the
      range checks. */
  function Fields(s: string): Stamp
    requires Shaped(s)
  {
    Stamp(Date(DigitsValue(s[0..4]), DigitsValue(s[5..7]), DigitsValue(s[8..10])),
          DigitsValue(s[11..13]) * SecondsPerHour + DigitsValue(s[14..16]) * 60 + DigitsValue(s[17..19]))
  }

  /** Writing the fields of a shaped string whose date and clock are valid
      gives the string. */
  lemma FormatFields(s: string)
    requires Shaped(s) && ValidDate(Fields(s).date)
    requires DigitsValue(s[11..13]) <= 23 && DigitsValue(s[14..16]) <= 59 && DigitsValue(s[17..19]) <= 59
    ensures 0 <= Fields(s).secs < SecondsPerDay
    ensures FormatTimestamp(Fields(s)) == s
  {
    var st := Fields(s);
    var hour, minute, second := DigitsValue(s[11..13]), DigitsValue(s[14..16]), DigitsValue(s[17..19]);
    ClockFields(hour, minute, second);
    assert st.secs / SecondsPerHour == hour && st.secs % SecondsPerHour / 60 == minute && st.secs % 60 == second;
    ValuePadDigits(s[0..4]);
    ValuePadDigits(s[5..7]);
    ValuePadDigits(s[8..10]);
    ValuePadDigits(s[11..13]);
    ValuePadDigits(s[14..16]);
    ValuePadDigits(s[17..19]);
    assert PadDigits(st.date.year, 4) == s[0..4];
    assert PadDigits(st.date.month, 2) == s[5..7];
    assert PadDigits(st.date.day, 2) == s[8..10];
    assert PadDigits(hour, 2) == s[11..13];
    assert PadDigits(minute, 2) == s[14..16];
    assert PadDigits(second, 2) == s[17..19];
    LayoutFields(s);
  }

  /** The digit fields of a written timestamp read back as the year,
      month, day, hours, minutes and seconds. */
  lemma FormatDigits(st: Stamp)
    requires ValidDate(st.date) && 0 <= st.secs < SecondsPerDay
    ensures var s := FormatTimestamp(st);
      && Shaped(s)
      && DigitsValue(s[0..4]) == st.date.year && DigitsValue(s[5..7]) == st.date.month
      && DigitsValue(s[8..10]) == st.date.day
      && DigitsValue(s[11..13]) == st.secs / SecondsPerHour
      && DigitsValue(s[14..16]) == st.secs % SecondsPerHour / 60
      && DigitsValue(s[17..19]) == st.secs % 60
  {
    var hour, minute, second := st.secs / SecondsPerHour, st.secs % SecondsPerHour / 60, st.secs % 60;
    var y, mo, d := PadDigits(st.date.year, 4), PadDigits(st.date.month, 2), PadDigits(st.date.day, 2);
    var h, mi, se := PadDigits(hour, 2), PadDigits(minute, 2), PadDigits(second, 2);
    FieldsOfLayout(y, mo, d, h, mi, se);
    assert Pow10(2) == 100 && Pow10(4) == 10000;
    PadDigitsValue(st.date.year, 4);
    PadDigitsValue(st.date.month, 2);
    PadDigitsValue(st.date.day, 2);
    PadDigitsValue(hour, 2);
    PadDigitsValue(minute, 2);
    PadDigitsValue(second, 2);
  }

  /** The fields of a written timestamp spell the timestamp. */
  lemma FieldsOfFormat(st: Stamp)
    requires ValidDate(st.date) && 0 <= st.secs < SecondsPerDay
    ensures var s := FormatTimestamp(st);
      && Shaped(s) && Fields(s) == st
      && DigitsValue(s[11..13]) <= 23 && DigitsValue(s[14..16]) <= 59 && DigitsValue(s[17..19]) <= 59
  {
    FormatDigits(st);
    ClockSplit(st.secs);
  }

  /** The text written for a timestamp that was read from the data is the
      text that was read: rewriting the column leaves it unchanged. */
  lemma ParseFormat(s: string)
    requires ParseTimestamp(s).Some?
    ensures FormatTimestamp(ParseTimestamp(s).value) == s
  {
    assert ParseTimestamp(s).value == Fields(s);
    FormatFields(s);
  }

  /** Reading back a written timestamp gives the timestamp. */
  lemma FormatParse(st: Stamp)
    requires ValidStamp(st)
    ensures ParseTimestamp(FormatTimestamp(st)) == Some(st)
  {
    FieldsOfFormat(st);
  }

  // ---------------------------------------------------------------------
  // The midnight shift

  /** No timestamp pandas can hold falls on 0001-01-01. */
  lemma NotFirstDay(st: Stamp)
    requires ValidStamp(st)
    ensures st.date != Date(1, 1, 1)
  {
    DaysBeforeYearBelow(1);
    assert DayNumber(Date(1, 1, 1)) == DaysBeforeYear(1);
  }

  /** The day a sample belongs to: its calendar date, or the day before
      when it is stamped exactly 00:00:00. The day's span, opened just
      after its midnight and closed at the next one, holds the sample. */
  function GroupDate(st: Stamp): (d: Date)
    requires ValidStamp(st)
    ensures ValidDate(d)
    ensures DayNumber(d) * SecondsPerDay < Epoch(st) <= DayNumber(d) * SecondsPerDay + SecondsPerDay
  {
    if st.secs == 0 then
      NotFirstDay(st);
      PrevDayNumber(st.date);
      PrevDay(st.date)
    else st.date
  }

  /** The day of a sample is the calendar day of the instant one second
      earlier. */
  lemma GroupDay(st: Stamp)
    requires ValidStamp(st)
    ensures DayNumber(GroupDate(st)) == Day(Epoch(st) - 1)
  {
    var n := DayNumber(GroupDate(st));
    DayOfTimestamp(n, Epoch(st) - 1 - n * SecondsPerDay);
  }

  // ---------------------------------------------------------------------
  // Columns and rows

  /** A column name as cleaned after reading: surrounding whitespace
      stripped, then every `"` removed. */
  function CleanColumn(c: string): (r: string)
    ensures '"' !in r
  {
    RemoveChar(Strip(c), '"')
  }

  function CleanColumns(columns: seq<string>): (r: seq<string>)
    ensures |r| == |columns|
    ensures forall k :: 0 <= k < |r| ==> r[k] == CleanColumn(columns[k])
  {
    seq(|columns|, k requires 0 <= k < |columns| => CleanColumn(columns[k]))
  }

  /** The position of the first column called `name`, if any. */
  function ColumnIndex(columns: seq<string>, name: string): (r: Option<nat>)
    ensures r.None? <==> name !in columns
    ensures r.Some? ==> r.value < |columns| && columns[r.value] == name && name !in columns[..r.value]
  {
    if columns == [] then None
    else if columns[0] == name then Some(0)
    else match ColumnIndex(columns[1..], name)
      case None => None
      case Some(i) =>
        assert columns[..i + 1] == [columns[0]] + columns[1..][..i];
        Some(i + 1)
  }

  /** The table pandas reads after skipping the first line: the second
      line's column names and one row of cells per later line. */
  datatype Table = Table(columns: seq<string>, rows: seq<seq<string>>)

  /** A row whose timestamp cell parses (the others are dropped). */
  predicate Retained(col: nat, row: seq<string>)
  {
    col < |row| && ParseTimestamp(row[col]).Some?
  }

  /** The day a retained row is filed under. */
  function RowDate(col: nat, row: seq<string>): (d: Date)
    requires Retained(col, row)
    ensures ValidDate(d)
  {
    GroupDate(ParseTimestamp(row[col]).value)
  }

  predicate InGroup(col: nat, d: Date, row: seq<string>)
  {
    Retained(col, row) && RowDate(col, row) == d
  }

  /** The days that receive at least one row. */
  function GroupDates(col: nat, rows: seq<seq<string>>): (ds: set<Date>)
    ensures forall d :: d in ds ==> ValidDate(d)
    ensures forall d :: d in ds <==> exists row :: row in rows && InGroup(col, d, row)
  {
    set row | row in rows && Retained(col, row) :: RowDate(col, row)
  }

  // ---------------------------------------------------------------------
  // Output files

  /** `Path(dir) / name` for a directory written without `.` or repeated
      separators inside it. */
  function DirJoin(dir: string, name: string): (p: string)
    ensures p == name || p == dir + name || p == dir + "/" + name
  {
    if dir == "" || dir == "." then name
    else if dir[|dir| - 1] == '/' then dir + name
    else dir + "/" + name
  }

  /** `Path(path).name`: what follows the last `/`. */
  function BaseName(path: string): (n: string)
    ensures '/' !in n
  {
    match LastIndexOf(path, '/')
    case None => path
    case Some(i) => path[i + 1..]
  }

  /** `Path(path).stem`: the name without its last suffix; a dot that
      starts or ends the name does not start a suffix. */
  function Stem(path: string): (s: string)
    ensures '/' !in s
  {
    var name := BaseName(path);
    match LastIndexOf(name, '.')
    case None => name
    case Some(i) =>
      if 0 < i < |name| - 1 then
        assert forall k :: 0 <= k < i ==> name[..i][k] == name[k];
        name[..i]
      else name
  }

  /** The daily file of day `d`: `<dir>/YYYY/YYYYMM/<stem>_YYYYMMDD.dat`. */
  function OutputName(stem: string, d: Date): string
    requires ValidDate(d)
  {
    stem + "_" + CompactDate(d) + ".dat"
  }

  function OutputPath(outputDir: string, stem: string, d: Date): (p: string)
    requires ValidDate(d)
  {
    var year := PadDigits(d.year, 4);
    DirJoin(DirJoin(outputDir, year) + "/" + year + PadDigits(d.month, 2), OutputName(stem, d))
  }

  /** The name of a daily file names its day. */
  lemma OutputPathEnds(outputDir: string, stem: string, d: Date)
    requires ValidDate(d)
    ensures var p := OutputPath(outputDir, stem, d);
      && |p| >= 12
      && p[|p| - 12..|p| - 4] == CompactDate(d)
      && p[|p| - 4..] == ".dat"
  {
    var p := OutputPath(outputDir, stem, d);
    var y := PadDigits(d.year, 4);
    var sub := DirJoin(outputDir, y) + "/" + y + PadDigits(d.month, 2);
    var tail := CompactDate(d) + ".dat";
    assert OutputName(stem, d) == stem + "_" + tail;
    assert p == sub + "/" + stem + "_" + tail;
    assert p[|p| - 12..] == tail;
  }

  /** Different days are written to different files. */
  lemma OutputPathsDistinct(outputDir: string, stem: string, d1: Date, d2: Date)
    requires ValidDate(d1) && ValidDate(d2) && d1 != d2
    ensures OutputPath(outputDir, stem, d1) != OutputPath(outputDir, stem, d2)
  {
    OutputPathEnds(outputDir, stem, d1);
    OutputPathEnds(outputDir, stem, d2);
    TokenDateOfCompact(d1);
    TokenDateOfCompact(d2);
  }

  /** The stem of a daily file is the input's stem and the day's
      `YYYYMMDD`, joined by `_`. */
  lemma StemOfOutput(outputDir: string, stem: string, d: Date)
    requires ValidDate(d) && '/' !in stem
    ensures Stem(OutputPath(outputDir, stem, d)) == stem + "_" + CompactDate(d)
  {
    var p := OutputPath(outputDir, stem, d);
    var name := OutputName(stem, d);
    var base := stem + "_" + CompactDate(d);
    assert name == base + ".dat";
    assert '/' !in CompactDate(d) by {
      forall k | 0 <= k < 8 ensures CompactDate(d)[k] != '/' {
        assert IsDigit(CompactDate(d)[k]);
      }
    }
    assert '/' !in name by {
      forall k | 0 <= k < |name| ensures name[k] != '/' {
        if k < |stem| { assert name[k] == stem[k]; }
        else if k == |stem| { }
        else if k < |base| { assert name[k] == CompactDate(d)[k - |stem| - 1]; }
      }
    }
    var y := PadDigits(d.year, 4);
    var sub := DirJoin(outputDir, y) + "/" + y + PadDigits(d.month, 2);
    assert p == sub + "/" + name;
    LastIndexOfAppend(sub, '/', name);
    assert BaseName(p) == name;
    assert name == base + "." + "dat";
    LastIndexOfAppend(base, '.', "dat");
  }

  // ---------------------------------------------------------------------
  // split_file

  /** One daily file: its path, the four header lines copied verbatim, the
      cleaned column names and the rows of that day, in input order. */
  datatype DailyFile = DailyFile(path: string, header: seq<string>, columns: seq<string>, rows: seq<seq<string>>)

  /** The daily files of a table whose timestamps are in column `col`, by
      day. */
  function DailyFiles(stem: string, outputDir: string, header: seq<string>, columns: seq<string>,
                      rows: seq<seq<string>>, col: nat): map<Date, DailyFile>
  {
    var days := GroupDates(col, rows);
    map d | d in days :: DailyFile(OutputPath(outputDir, stem, d), header, columns,
                                   Seqs.Filter(rows, row => InGroup(col, d, row)))
  }

  /** `split_file` on the lines of the input and the table read from it:
      an error when the file has fewer than four lines; no files when the
      timestamp column is missing after cleaning the names; otherwise one
      file per day that has a retained row. */
  function SplitFile(inputPath: string, outputDir: string, lines: seq<string>, table: Table,
                     timestampColumn: string): (r: Result<map<Date, DailyFile>>)
    ensures r.Err? <==> |lines| < 4
    ensures r.Ok? && timestampColumn !in CleanColumns(table.columns) ==> r.value == map[]
  {
    if |lines| < 4 then Err("StopIteration: fewer than four header lines")
    else
      var columns := CleanColumns(table.columns);
      match ColumnIndex(columns, timestampColumn)
      case None => Ok(map[])
      case Some(col) => Ok(DailyFiles(Stem(inputPath), outputDir, lines[..4], columns, table.rows, col))
  }

  /** Every daily file has the day's path, the input's first four lines as
      header, the cleaned column names, and at least one row. */
  lemma DailyFileShape(inputPath: string, outputDir: string, lines: seq<string>, table: Table,
                       timestampColumn: string, d: Date)
    requires SplitFile(inputPath, outputDir, lines, table, timestampColumn).Ok?
    requires d in SplitFile(inputPath, outputDir, lines, table, timestampColumn).value
    ensures ValidDate(d)
    ensures var f := SplitFile(inputPath, outputDir, lines, table, timestampColumn).value[d];
      && f.path == OutputPath(outputDir, Stem(inputPath), d)
      && f.header == lines[..4]
      && f.columns == CleanColumns(table.columns)
      && f.rows != []
  {
    var col := ColumnIndex(CleanColumns(table.columns), timestampColumn).value;
    var row :| row in table.rows && InGroup(col, d, row);
    Seqs.FilterComplete(table.rows, row => InGroup(col, d, row), row);
  }

  /** A row whose timestamp parses lands in exactly one daily file: the
      file of its day. */
  lemma RetainedRowLandsOnce(inputPath: string, outputDir: string, lines: seq<string>, table: Table,
                             timestampColumn: string, col: nat, row: seq<string>)
    requires |lines| >= 4
    requires ColumnIndex(CleanColumns(table.columns), timestampColumn) == Some(col)
    requires row in table.rows && Retained(col, row)
    ensures var files := SplitFile(inputPath, outputDir, lines, table, timestampColumn).value;
      && RowDate(col, row) in files
      && forall d :: d in files ==> (row in files[d].rows <==> d == RowDate(col, row))
  {
    var columns := CleanColumns(table.columns);
    var files := DailyFiles(Stem(inputPath), outputDir, lines[..4], columns, table.rows, col);
    assert SplitFile(inputPath, outputDir, lines, table, timestampColumn) == Ok(files);
    var d0 := RowDate(col, row);
    assert InGroup(col, d0, row);
    assert d0 in GroupDates(col, table.rows);
    forall d | d in files ensures row in files[d].rows <==> d == d0 {
      var inDay := r => InGroup(col, d, r);
      assert files[d].rows == Seqs.Filter(table.rows, inDay);
      if d == d0 {
        Seqs.FilterComplete(table.rows, inDay, row);
      }
    }
  }

  /** A row whose timestamp does not parse is in no daily file. */
  lemma DroppedRowNowhere(inputPath: string, outputDir: string, lines: seq<string>, table: Table,
                          timestampColumn: string, col: nat, row: seq<string>)
    requires |lines| >= 4
    requires ColumnIndex(CleanColumns(table.columns), timestampColumn) == Some(col)
    requires !Retained(col, row)
    ensures var files := SplitFile(inputPath, outputDir, lines, table, timestampColumn).value;
      forall d :: d in files ==> row !in files[d].rows
  {
  }

  /** Every row of a day's file is stamped after that day's midnight and
      no later than the next one. */
  lemma RowsInsideTheirDay(inputPath: string, outputDir: string, lines: seq<string>, table: Table,
                           timestampColumn: string, col: nat, d: Date, row: seq<string>)
    requires |lines| >= 4
    requires ColumnIndex(CleanColumns(table.columns), timestampColumn) == Some(col)
    requires var files := SplitFile(inputPath, outputDir, lines, table, timestampColumn).value;
      d in files && row in files[d].rows
    ensures ValidDate(d) && Retained(col, row)
    ensures var t := Epoch(ParseTimestamp(row[col]).value);
      DayNumber(d) * SecondsPerDay < t <= DayNumber(d) * SecondsPerDay + SecondsPerDay
  {
  }
}
