/** Choosing the purge periods of one day: flat RH runs are widened into
    candidate periods, scored by how flat RH and temperature are inside
    them, filtered to the hours at which purges happen, sorted flattest
    first, cut to one period (from 2018-03-13) or two (before), and, before
    2018-03-13, completed by a mirrored period twelve hours away. */
module Periods {
  import opened Wrappers
  import opened Calendar
  import opened Runs
  import opened Masks
  import Seqs

  // ---------------------------------------------------------------------
  // Extraction

  /** The maximal runs widened by `half` samples on both sides, clipped to
      the series. */
  function Widened(runs: seq<Span>, half: nat, n: nat): (r: seq<Span>)
    requires forall t :: 0 <= t < |runs| ==> runs[t].lo < runs[t].hi <= n
    ensures |r| == |runs|
    ensures forall t :: 0 <= t < |r| ==> r[t] == Expand(runs[t], half, n)
  {
    seq(|runs|, t requires 0 <= t < |runs| => Expand(runs[t], half, n))
  }

  lemma WidenedSnoc(runs: seq<Span>, r: Span, half: nat, n: nat)
    requires forall t :: 0 <= t < |runs| ==> runs[t].lo < runs[t].hi <= n
    requires r.lo < r.hi <= n
    ensures Widened(runs + [r], half, n) == Widened(runs, half, n) + [Expand(r, half, n)]
  {
  }

  /** One iteration of the extraction loop: a flagged sample opens a period
      when none is open; an unflagged one closes the open period, widened by
      `half` on both sides. */
  method ExtractStep(mask: seq<bool>, half: nat, i: nat, start: Option<nat>,
                     periods: seq<Span>, ghost runs: seq<Span>)
    returns (start': Option<nat>, periods': seq<Span>, ghost runs': seq<Span>)
    requires ScanState(mask, i, runs, start) && i < |mask|
    requires periods == Widened(runs, half, |mask|)
    ensures ScanState(mask, i + 1, runs', start')
    ensures periods' == Widened(runs', half, |mask|)
  {
    var n := |mask|;
    ScanStep(mask, i, runs, start);
    runs' := NextRuns(mask, i, runs, start);
    start', periods' := start, periods;
    if mask[i] && start.None? {
      start' := Some(i);
    } else if !mask[i] && start.Some? {
      var s := start.value;
      periods' := periods + [Span(if s >= half then s - half else 0, if i + half <= n then i + half else n)];
      WidenedSnoc(runs, Span(s, i), half, n);
      start' := None;
    }
    assert start' == NextOpen(mask, i, start);
  }

  /** The end of the extraction walk: a period still open at the end of the
      day is widened at its start only, and ends at the end of the day. */
  method ExtractLast(mask: seq<bool>, half: nat, start: Option<nat>,
                     periods: seq<Span>, ghost runs: seq<Span>)
    returns (periods': seq<Span>, ghost runs': seq<Span>)
    requires ScanState(mask, |mask|, runs, start)
    requires periods == Widened(runs, half, |mask|)
    ensures MaximalRuns(mask, runs')
    ensures periods' == Widened(runs', half, |mask|)
    ensures |periods'| == RunStartCount(mask)
  {
    var n := |mask|;
    ScanFinish(mask, runs, start);
    periods', runs' := periods, runs;
    if start.Some? {
      var s := start.value;
      WidenedSnoc(runs, Span(s, n), half, n);
      assert Expand(Span(s, n), half, n) == Span(if s >= half then s - half else 0, n);
      periods' := periods + [Span(if s >= half then s - half else 0, n)];
      runs' := runs + [Span(s, n)];
    }
  }

  /** The walk over the purge mask: every maximal run of flat RH becomes a
      period widened by `half` samples on both sides, clipped to the series;
      a run still open at the end of the day ends at the end of the day. */
  method ExtractPeriods(mask: seq<bool>, half: nat) returns (periods: seq<Span>, ghost runs: seq<Span>)
    ensures MaximalRuns(mask, runs)
    ensures periods == Widened(runs, half, |mask|)
    ensures |periods| == RunStartCount(mask)
  {
    var n := |mask|;
    var start: Option<nat> := None;
    periods, runs := [], [];
    ScanInit(mask);
    for i := 0 to n
      invariant ScanState(mask, i, runs, start)
      invariant periods == Widened(runs, half, n)
    {
      start, periods, runs := ExtractStep(mask, half, i, start, periods, runs);
    }
    periods, runs := ExtractLast(mask, half, start, periods, runs);
  }

  // ---------------------------------------------------------------------
  // Scoring

  /** A candidate period with the spread of RH and temperature inside it
      and the time of its first sample. */
  datatype PeriodStats = PeriodStats(period: Span, rhStd: real, tempStd: real, startTime: int)

  /** A scored candidate; lower scores are flatter. */
  datatype Candidate = Candidate(stats: PeriodStats, score: real)

  /** The hours at which a purge may start: not around midnight (23:00 to
      02:59), not in the evening (17:00 to 19:59) and not before 06:00. */
  predicate InPurgeHours(hour: int): (ok: bool)
    ensures 0 <= hour < 24 ==> (ok <==> 6 <= hour <= 16 || 20 <= hour <= 22)
  {
    !((hour >= 23 || hour <= 2) || (17 <= hour < 20) || hour < 6)
  }

  predicate StartsInPurgeHours(s: PeriodStats)
  {
    InPurgeHours(Hour(s.startTime))
  }

  /** The score of a period that starts in purge hours: RH weighs a hundred
      times more than temperature. */
  function PrimaryScore(s: PeriodStats): real
  {
    s.rhStd * 100.0 + s.tempStd
  }

  /** The score used when no period starts in purge hours: temperature
      weighs ten times more than RH. */
  function FallbackScore(s: PeriodStats): real
  {
    s.rhStd + s.tempStd * 10.0
  }

  function Scored(stats: seq<PeriodStats>, score: PeriodStats -> real): (cs: seq<Candidate>)
    ensures |cs| == |stats|
    ensures forall t :: 0 <= t < |cs| ==> cs[t] == Candidate(stats[t], score(stats[t]))
  {
    seq(|stats|, t requires 0 <= t < |stats| => Candidate(stats[t], score(stats[t])))
  }

  /** The statistics of every period, in period order. */
  function AllStats(periods: seq<Span>, times: seq<int>, rhStd: Span -> real, tempStd: Span -> real): (r: seq<PeriodStats>)
    requires forall t :: 0 <= t < |periods| ==> periods[t].lo < |times|
    ensures |r| == |periods|
    ensures forall t :: 0 <= t < |r| ==> r[t].period == periods[t] && r[t].startTime == times[periods[t].lo]
  {
    seq(|periods|, t requires 0 <= t < |periods| =>
      PeriodStats(periods[t], rhStd(periods[t]), tempStd(periods[t]), times[periods[t].lo]))
  }

  /** The candidates: the periods starting in purge hours with their
      primary score, or, when there are none, all periods with the fallback
      score. */
  function Candidates(stats: seq<PeriodStats>): (cs: seq<Candidate>)
    ensures |cs| <= |stats|
    ensures forall c :: c in cs ==> c.stats in stats
  {
    var inHours := Seqs.Filter(stats, StartsInPurgeHours);
    if inHours != [] then Scored(inHours, PrimaryScore) else Scored(stats, FallbackScore)
  }

  /** What the candidate list is: when some period starts in purge hours,
      exactly those periods (in order, none missing) with the primary
      score; otherwise every period with the fallback score. There are
      candidates exactly when there are periods. */
  lemma CandidatesMeaning(stats: seq<PeriodStats>)
    ensures Candidates(stats) == [] <==> stats == []
    ensures (exists s :: s in stats && StartsInPurgeHours(s)) ==>
      && (forall c :: c in Candidates(stats) ==>
            c.stats in stats && StartsInPurgeHours(c.stats) && c.score == PrimaryScore(c.stats))
      && (forall s :: s in stats && StartsInPurgeHours(s) ==> Candidate(s, PrimaryScore(s)) in Candidates(stats))
    ensures (forall s :: s in stats ==> !StartsInPurgeHours(s)) ==>
      Candidates(stats) == Scored(stats, FallbackScore)
  {
    var inHours := Seqs.Filter(stats, StartsInPurgeHours);
    Seqs.FilterEmpty(stats, StartsInPurgeHours);
    if exists s :: s in stats && StartsInPurgeHours(s) {
      forall s | s in stats && StartsInPurgeHours(s)
        ensures Candidate(s, PrimaryScore(s)) in Candidates(stats)
      {
        Seqs.FilterComplete(stats, StartsInPurgeHours, s);
        var t :| 0 <= t < |inHours| && inHours[t] == s;
        assert Candidates(stats)[t] == Candidate(s, PrimaryScore(s));
      }
    }
    if stats != [] && inHours == [] {
      assert Candidates(stats)[0] == Candidate(stats[0], FallbackScore(stats[0]));
    }
  }

  /** Every candidate's period is one of the periods scored. */
  lemma CandidatePeriodsScored(periods: seq<Span>, times: seq<int>, rhStd: Span -> real, tempStd: Span -> real)
    requires forall t :: 0 <= t < |periods| ==> periods[t].lo < |times|
    ensures forall c :: c in Candidates(AllStats(periods, times, rhStd, tempStd)) ==> c.stats.period in periods
  {
    var stats := AllStats(periods, times, rhStd, tempStd);
    forall c | c in Candidates(stats) ensures c.stats.period in periods {
      var t :| 0 <= t < |stats| && stats[t] == c.stats;
      assert c.stats.period == periods[t];
    }
  }

  /** The first scoring loop: the statistics of every period. */
  method CollectStats(periods: seq<Span>, times: seq<int>, rhStd: Span -> real, tempStd: Span -> real)
    returns (stats: seq<PeriodStats>)
    requires forall t :: 0 <= t < |periods| ==> periods[t].lo < |times|
    ensures stats == AllStats(periods, times, rhStd, tempStd)
  {
    stats := [];
    for i := 0 to |periods|
      invariant stats == AllStats(periods[..i], times, rhStd, tempStd)
    {
      var p := periods[i];
      stats := stats + [PeriodStats(p, rhStd(p), tempStd(p), times[p.lo])];
    }
    assert periods[..|periods|] == periods;
  }

  lemma ScoredSnoc(stats: seq<PeriodStats>, s: PeriodStats, score: PeriodStats -> real)
    ensures Scored(stats + [s], score) == Scored(stats, score) + [Candidate(s, score(s))]
  {
  }

  /** The second scoring loop: the periods that start in purge hours, with
      their primary score. */
  method ScoreInPurgeHours(stats: seq<PeriodStats>) returns (cs: seq<Candidate>)
    ensures cs == Scored(Seqs.Filter(stats, StartsInPurgeHours), PrimaryScore)
  {
    cs := [];
    for i := 0 to |stats|
      invariant cs == Scored(Seqs.Filter(stats[..i], StartsInPurgeHours), PrimaryScore)
    {
      Seqs.FilterSnoc(stats[..i], stats[i], StartsInPurgeHours);
      assert stats[..i + 1] == stats[..i] + [stats[i]];
      ScoredSnoc(Seqs.Filter(stats[..i], StartsInPurgeHours), stats[i], PrimaryScore);
      if StartsInPurgeHours(stats[i]) {
        cs := cs + [Candidate(stats[i], PrimaryScore(stats[i]))];
      }
    }
    assert stats[..|stats|] == stats;
  }

  /** Scoring: the statistics of every period, then the periods that start
      in purge hours with their primary score, or the fallback when that
      list is empty. */
  method ScoreCandidates(periods: seq<Span>, times: seq<int>, rhStd: Span -> real, tempStd: Span -> real)
    returns (cs: seq<Candidate>)
    requires forall t :: 0 <= t < |periods| ==> periods[t].lo < |times|
    ensures cs == Candidates(AllStats(periods, times, rhStd, tempStd))
  {
    var stats := CollectStats(periods, times, rhStd, tempStd);
    cs := ScoreInPurgeHours(stats);
    if cs == [] {
      cs := Scored(stats, FallbackScore);
    }
  }

  // ---------------------------------------------------------------------
  // Stable sort by score

  predicate SortedByScore(cs: seq<Candidate>)
  {
    forall i, j :: 0 <= i < j < |cs| ==> cs[i].score <= cs[j].score
  }

  /** Puts `c` in front of the first element that scores at least as much. */
  function Insert(c: Candidate, sorted: seq<Candidate>): (r: seq<Candidate>)
    ensures |r| == |sorted| + 1
    ensures multiset(r) == multiset(sorted) + multiset{c}
    ensures r[0] == c || (sorted != [] && r[0] == sorted[0])
  {
    if sorted == [] || c.score <= sorted[0].score then [c] + sorted
    else
      assert sorted == [sorted[0]] + sorted[1..];
      [sorted[0]] + Insert(c, sorted[1..])
  }

  /** The list sorted by score, flattest first, candidates with equal
      scores keeping their order. */
  function SortByScore(cs: seq<Candidate>): (r: seq<Candidate>)
    ensures |r| == |cs|
    ensures multiset(r) == multiset(cs)
  {
    if cs == [] then []
    else
      assert cs == [cs[0]] + cs[1..];
      Insert(cs[0], SortByScore(cs[1..]))
  }

  lemma {:induction false} InsertSorted(c: Candidate, sorted: seq<Candidate>)
    requires SortedByScore(sorted)
    ensures SortedByScore(Insert(c, sorted))
  {
    if sorted != [] && c.score > sorted[0].score {
      InsertSorted(c, sorted[1..]);
      var r := Insert(c, sorted[1..]);
      assert forall j :: 0 <= j < |r| ==> r[j] in multiset(sorted[1..]) + multiset{c};
      assert forall x :: x in sorted[1..] ==> sorted[0].score <= x.score;
    }
  }

  lemma {:induction false} SortByScoreSorted(cs: seq<Candidate>)
    ensures SortedByScore(SortByScore(cs))
  {
    if cs != [] {
      SortByScoreSorted(cs[1..]);
      InsertSorted(cs[0], SortByScore(cs[1..]));
    }
  }

  function ScoreIs(x: real): Candidate -> bool
  {
    (c: Candidate) => c.score == x
  }

  lemma {:induction false} InsertKeepsTies(c: Candidate, l: seq<Candidate>, x: real)
    ensures Seqs.Filter(Insert(c, l), ScoreIs(x))
         == (if c.score == x then [c] else []) + Seqs.Filter(l, ScoreIs(x))
  {
    if l == [] || c.score <= l[0].score {
      Seqs.FilterCons(c, l, ScoreIs(x));
    } else {
      var p := ScoreIs(x);
      var head, rest := l[0], l[1..];
      assert l == [head] + rest;
      assert Insert(c, l) == [head] + Insert(c, rest);
      var hc := if c.score == x then [c] else [];
      var hh := if head.score == x then [head] else [];
      assert hc == [] || hh == [];
      InsertKeepsTies(c, rest, x);
      Seqs.FilterCons(head, Insert(c, rest), p);
      Seqs.FilterCons(head, rest, p);
      calc {
        Seqs.Filter(Insert(c, l), p);
        hh + Seqs.Filter(Insert(c, rest), p);
        hh + (hc + Seqs.Filter(rest, p));
        { SwapPrefixes(hh, hc, Seqs.Filter(rest, p)); }
        hc + (hh + Seqs.Filter(rest, p));
        hc + Seqs.Filter(l, p);
      }
    }
  }

  /** Two prefixes of which one is empty can be put in either order. */
  lemma SwapPrefixes<T>(a: seq<T>, b: seq<T>, rest: seq<T>)
    requires a == [] || b == []
    ensures a + (b + rest) == b + (a + rest)
  {
    if a == [] {
      assert a + (b + rest) == b + rest;
    } else {
      assert b + (a + rest) == a + rest;
    }
  }

  /** The sort is stable: the candidates of any one score appear in the
      sorted list in the order they had before. */
  lemma {:induction false} SortByScoreStable(cs: seq<Candidate>, x: real)
    ensures Seqs.Filter(SortByScore(cs), ScoreIs(x)) == Seqs.Filter(cs, ScoreIs(x))
  {
    if cs != [] {
      var c, rest := cs[0], cs[1..];
      assert cs == [c] + rest;
      var sorted := SortByScore(rest);
      assert SortByScore(cs) == Insert(c, sorted);
      SortByScoreStable(rest, x);
      InsertKeepsTies(c, sorted, x);
      Seqs.FilterCons(c, rest, ScoreIs(x));
    }
  }

  /** The first candidate after sorting is one of the flattest. */
  lemma FlattestFirst(cs: seq<Candidate>)
    requires cs != []
    ensures SortByScore(cs)[0] in cs
    ensures forall c :: c in cs ==> SortByScore(cs)[0].score <= c.score
  {
    var r := SortByScore(cs);
    SortByScoreSorted(cs);
    assert r[0] in multiset(cs);
    forall c | c in cs ensures r[0].score <= c.score {
      assert c in multiset(r);
      var j :| 0 <= j < |r| && r[j] == c;
    }
  }

  // ---------------------------------------------------------------------
  // Retention and the mirrored period

  /** From this date on the station purges once a day, before it twice. */
  const SinglePurgeDate := Date(2018, 3, 13)

  predicate SinglePurgeEra(times: seq<int>)
    requires |times| > 0
  {
    Day(times[0]) >= DayNumber(SinglePurgeDate)
  }

  /** How many periods are kept: one on or after 2018-03-13, two before. */
  function KeepCount(singleEra: bool): (k: nat)
    ensures 1 <= k <= 2
  {
    if singleEra then 1 else 2
  }

  /** The periods of the first `keep` sorted candidates. */
  function Retain(sorted: seq<Candidate>, keep: nat): (r: seq<Span>)
    ensures |r| <= keep && |r| <= |sorted|
    ensures |r| == (if keep <= |sorted| then keep else |sorted|)
    ensures forall t :: 0 <= t < |r| ==> r[t] == sorted[t].stats.period
  {
    var k := if keep <= |sorted| then keep else |sorted|;
    seq(k, t requires 0 <= t < k => sorted[t].stats.period)
  }

  predicate InBounds(periods: seq<Span>, n: nat)
  {
    forall t :: 0 <= t < |periods| ==> periods[t].lo < periods[t].hi <= n
  }

  /** Before 2018-03-13 a lone period is completed by a copy twelve hours
      (`offset` samples) later when it starts before noon, or twelve hours
      earlier when it starts at noon or after, provided the copy lies
      within the day; otherwise the list is unchanged. The copy is added
      exactly in that case. */
  function Mirror(kept: seq<Span>, times: seq<int>, offset: nat, singleEra: bool): (r: seq<Span>)
    requires InBounds(kept, |times|)
    ensures InBounds(r, |times|)
    ensures |r| == |kept| || (|r| == |kept| + 1 == 2 && !singleEra)
    ensures r[..|kept|] == kept
    ensures |r| == |kept| + 1 ==> r[1].hi - r[1].lo == r[0].hi - r[0].lo
    ensures |r| == |kept| + 1 ==>
      if TimeOfDay(times[kept[0].lo]) < 12 * SecondsPerHour then r[1].lo == r[0].lo + offset
      else r[1].lo + offset == r[0].lo
    ensures |r| == |kept| + 1 <==>
      && |kept| == 1 && !singleEra
      && if TimeOfDay(times[kept[0].lo]) < 12 * SecondsPerHour then kept[0].hi + offset <= |times|
         else kept[0].lo >= offset
  {
    if |kept| == 1 && !singleEra then
      var p := kept[0];
      var duration := p.hi - p.lo;
      if TimeOfDay(times[p.lo]) < 12 * SecondsPerHour then
        if p.lo + offset + duration <= |times| then kept + [Span(p.lo + offset, p.lo + offset + duration)]
        else kept
      else if p.lo >= offset then kept + [Span(p.lo - offset, p.lo - offset + duration)]
      else kept
    else kept
  }

  /** The choice made from the scored candidates. */
  function ChoosePeriods(cs: seq<Candidate>, times: seq<int>, offset: nat): (r: seq<Span>)
    requires |times| > 0
    requires forall c :: c in cs ==> c.stats.period.lo < c.stats.period.hi <= |times|
    ensures InBounds(r, |times|)
    ensures SinglePurgeEra(times) ==> |r| <= 1
    ensures |r| <= 2
  {
    var sorted := SortByScore(cs);
    var kept := Retain(sorted, KeepCount(SinglePurgeEra(times)));
    assert forall t :: 0 <= t < |kept| ==> sorted[t] in multiset(cs);
    Mirror(kept, times, offset, SinglePurgeEra(times))
  }

  /** The kept periods are those of the flattest candidates: the first is a
      candidate no other candidate beats, and every candidate left out
      scores at least as much as every one kept. */
  lemma ChosenAreFlattest(cs: seq<Candidate>, keep: nat)
    ensures forall t :: 0 <= t < |Retain(SortByScore(cs), keep)| ==>
      exists c :: c in cs && c.stats.period == Retain(SortByScore(cs), keep)[t]
    ensures cs != [] && keep >= 1 ==>
      exists c :: c in cs && c.stats.period == Retain(SortByScore(cs), keep)[0]
                 && forall d :: d in cs ==> c.score <= d.score
    ensures forall t, u :: 0 <= t < keep && t < u < |cs| ==> SortByScore(cs)[t].score <= SortByScore(cs)[u].score
  {
    var sorted := SortByScore(cs);
    SortByScoreSorted(cs);
    forall t | 0 <= t < |Retain(sorted, keep)|
      ensures exists c :: c in cs && c.stats.period == Retain(sorted, keep)[t]
    {
      assert sorted[t] in multiset(cs);
    }
    if cs != [] && keep >= 1 {
      FlattestFirst(cs);
      assert sorted[0].stats.period == Retain(sorted, keep)[0];
    }
  }

  /** Purge-period selection for one day: widen the runs of `mask` by half
      the minimum purge length, score them, keep the flattest one (from
      2018-03-13) or two (before), and mirror a lone period before
      2018-03-13. */
  method SelectPurgePeriods(mask: seq<bool>, times: seq<int>, rhStd: Span -> real, tempStd: Span -> real,
                            minSamples: nat, offset: nat)
    returns (periods: seq<Span>, cs: seq<Candidate>, ghost runs: seq<Span>)
    requires |mask| == |times| > 0
    ensures MaximalRuns(mask, runs)
    ensures cs == Candidates(AllStats(Widened(runs, minSamples / 2, |mask|), times, rhStd, tempStd))
    ensures forall c :: c in cs ==> c.stats.period.lo < c.stats.period.hi <= |mask|
    ensures periods == ChoosePeriods(cs, times, offset)
    ensures InBounds(periods, |mask|)
    ensures SinglePurgeEra(times) ==> |periods| <= 1
    ensures |periods| <= 2
  {
    var extracted;
    extracted, runs := ExtractPeriods(mask, minSamples / 2);
    cs := ScoreCandidates(extracted, times, rhStd, tempStd);
    CandidatePeriodsScored(extracted, times, rhStd, tempStd);
    periods := ChoosePeriods(cs, times, offset);
  }
}
