/** Dates written as digits: `%Y%m%d` and `%Y-%m-%d`, and reading them
    back. */
module DateText {
  import opened Calendar
  import opened Text

  /** A piece of the file name that is taken as its date: eight digits. */
  predicate IsDateToken(s: string)
  {
    |s| == 8 && AllDigits(s)
  }

  /** The date spelled by a token, `%Y%m%d`. */
  function TokenDate(tok: string): Date
    requires IsDateToken(tok)
  {
    Date(DigitsValue(tok[..4]), DigitsValue(tok[4..6]), DigitsValue(tok[6..]))
  }

  /** `%Y%m%d` of a date. */
  function CompactDate(d: Date): (s: string)
    requires d.year >= 0 && d.month >= 0 && d.day >= 0
    ensures IsDateToken(s)
  {
    PadDigits(d.year, 4) + PadDigits(d.month, 2) + PadDigits(d.day, 2)
  }

  /** `%Y-%m-%d` of a date. */
  function IsoDate(d: Date): (s: string)
    requires d.year >= 0 && d.month >= 0 && d.day >= 0
    ensures |s| == 10 && s[4] == '-' && s[7] == '-'
  {
    PadDigits(d.year, 4) + "-" + PadDigits(d.month, 2) + "-" + PadDigits(d.day, 2)
  }

  /** Reading back a written date gives the date. */
  lemma TokenDateOfCompact(d: Date)
    requires ValidDate(d)
    ensures TokenDate(CompactDate(d)) == d
  {
    var s := CompactDate(d);
    assert s[..4] == PadDigits(d.year, 4);
    assert s[4..6] == PadDigits(d.month, 2);
    assert s[6..] == PadDigits(d.day, 2);
    PadDigitsValue(d.year, 4);
    PadDigitsValue(d.month, 2);
    PadDigitsValue(d.day, 2);
  }

}
