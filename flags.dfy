/** The flag overlay. Every flag starts at 1 (good); then purge periods,
    their recovery tails and the allowed dips are written in order, each
    write a slice assignment that overwrites what was there. A list of
    such writes ("strokes") is applied left to right, so the flag of a
    sample is the value of the last stroke that covers it. */
module Flags {
  import opened Runs
  import opened Calendar
  import opened Dips
  import opened Gating
  import Seqs

  const Good: int := 1
  const Bad: int := 2
  const Purge: int := 3
  const Recovery: int := 4

  /** The slice assignment `flags[span.lo:span.hi] = flag`. */
  datatype Stroke = Stroke(span: Span, flag: int)

  /** The flags after applying `strokes` in order. */
  function Paint(flags: seq<int>, strokes: seq<Stroke>): (r: seq<int>)
    ensures |r| == |flags|
  {
    if strokes == [] then flags
    else
      var last := strokes[|strokes| - 1];
      Seqs.Assigned(Paint(flags, strokes[..|strokes| - 1]), last.span.lo, last.span.hi, last.flag)
  }

  lemma PaintSnoc(flags: seq<int>, strokes: seq<Stroke>, s: Stroke)
    ensures Paint(flags, strokes + [s]) == Seqs.Assigned(Paint(flags, strokes), s.span.lo, s.span.hi, s.flag)
  {
    assert (strokes + [s])[..|strokes|] == strokes;
  }

  /** Stroke `t` is the last one that covers sample `k`. */
  predicate LastCover(strokes: seq<Stroke>, k: int, t: int)
  {
    && 0 <= t < |strokes|
    && Covers(strokes[t].span, k)
    && forall u :: t < u < |strokes| ==> !Covers(strokes[u].span, k)
  }

  /** Last write wins: a sample no stroke covers keeps its flag, and a
      covered sample holds the flag of the last stroke covering it. */
  lemma {:induction false} PaintLastWins(flags: seq<int>, strokes: seq<Stroke>, k: int)
    requires 0 <= k < |flags|
    ensures (forall t :: 0 <= t < |strokes| ==> !Covers(strokes[t].span, k)) ==> Paint(flags, strokes)[k] == flags[k]
    ensures forall t :: LastCover(strokes, k, t) ==> Paint(flags, strokes)[k] == strokes[t].flag
  {
    if strokes != [] {
      var init := strokes[..|strokes| - 1];
      var last := strokes[|strokes| - 1];
      PaintLastWins(flags, init, k);
      forall t | LastCover(strokes, k, t) ensures Paint(flags, strokes)[k] == strokes[t].flag {
        if t < |init| {
          assert LastCover(init, k, t);
        }
      }
      if forall t :: 0 <= t < |strokes| ==> !Covers(strokes[t].span, k) {
        assert forall t :: 0 <= t < |init| ==> init[t] == strokes[t];
      }
    }
  }

  /** When every stroke writes the same value `v`, a sample holds `v`
      exactly when some stroke covers it, and keeps its flag otherwise. */
  lemma {:induction false} PaintUniform(flags: seq<int>, strokes: seq<Stroke>, v: int, k: int)
    requires 0 <= k < |flags|
    requires forall t :: 0 <= t < |strokes| ==> strokes[t].flag == v
    ensures Paint(flags, strokes)[k] ==
      if exists t :: 0 <= t < |strokes| && Covers(strokes[t].span, k) then v else flags[k]
  {
    if strokes != [] {
      var init := strokes[..|strokes| - 1];
      PaintUniform(flags, init, v, k);
      if exists t :: 0 <= t < |init| && Covers(init[t].span, k) {
        var t :| 0 <= t < |init| && Covers(init[t].span, k);
        assert strokes[t] == init[t];
      }
      if exists t :: 0 <= t < |strokes| && Covers(strokes[t].span, k) {
        var t :| 0 <= t < |strokes| && Covers(strokes[t].span, k);
        if t < |init| {
          assert init[t] == strokes[t];
        }
      }
    }
  }

  /** Every flag after painting is either the one before or the value of a
      stroke. */
  lemma {:induction false} PaintValues(flags: seq<int>, strokes: seq<Stroke>, k: int)
    requires 0 <= k < |flags|
    ensures Paint(flags, strokes)[k] == flags[k]
         || exists t :: 0 <= t < |strokes| && Paint(flags, strokes)[k] == strokes[t].flag
  {
    if strokes != [] {
      var init := strokes[..|strokes| - 1];
      PaintValues(flags, init, k);
      if Paint(flags, strokes)[k] != flags[k] && Paint(flags, strokes)[k] == Paint(flags, init)[k] {
        var t :| 0 <= t < |init| && Paint(flags, init)[k] == init[t].flag;
        assert strokes[t] == init[t];
      }
    }
  }

  // ---------------------------------------------------------------------
  // Purge periods and their recovery tails

  /** The temperature strokes: each period set to 3. */
  function TempPurgeStrokes(periods: seq<Span>): (r: seq<Stroke>)
    ensures |r| == |periods|
    ensures forall t :: 0 <= t < |r| ==> r[t] == Stroke(periods[t], Purge)
  {
    seq(|periods|, t requires 0 <= t < |periods| => Stroke(periods[t], Purge))
  }

  /** The recovery tail of a period: `recovery` samples from its end,
      clipped to the series. */
  function RecoverySpan(p: Span, recovery: nat, n: nat): (r: Span)
    ensures r.lo == p.hi
    ensures p.hi <= n ==> p.hi <= r.hi <= n && r.hi - r.lo <= recovery
  {
    Span(p.hi, if p.hi + recovery <= n then p.hi + recovery else n)
  }

  /** The RH strokes: for each period in order, the period set to 3 and then
      its recovery tail set to 4. */
  function RhPurgeStrokes(periods: seq<Span>, recovery: nat, n: nat): (r: seq<Stroke>)
    ensures |r| == 2 * |periods|
  {
    if periods == [] then []
    else
      var last := periods[|periods| - 1];
      RhPurgeStrokes(periods[..|periods| - 1], recovery, n)
        + [Stroke(last, Purge), Stroke(RecoverySpan(last, recovery, n), Recovery)]
  }

  /** The strokes of period `t` are at positions 2t and 2t+1. */
  lemma {:induction false} RhPurgeStrokeAt(periods: seq<Span>, recovery: nat, n: nat, t: nat)
    requires t < |periods|
    ensures RhPurgeStrokes(periods, recovery, n)[2 * t] == Stroke(periods[t], Purge)
    ensures RhPurgeStrokes(periods, recovery, n)[2 * t + 1] == Stroke(RecoverySpan(periods[t], recovery, n), Recovery)
  {
    var init := periods[..|periods| - 1];
    if t < |init| {
      RhPurgeStrokeAt(init, recovery, n, t);
      assert init[t] == periods[t];
    }
  }

  lemma TempPurgeStrokesSnoc(periods: seq<Span>, p: Span)
    ensures TempPurgeStrokes(periods + [p]) == TempPurgeStrokes(periods) + [Stroke(p, Purge)]
  {
  }

  lemma RhPurgeStrokesSnoc(periods: seq<Span>, p: Span, recovery: nat, n: nat)
    ensures RhPurgeStrokes(periods + [p], recovery, n)
         == RhPurgeStrokes(periods, recovery, n) + [Stroke(p, Purge), Stroke(RecoverySpan(p, recovery, n), Recovery)]
  {
    assert (periods + [p])[..|periods|] == periods;
  }

  /** One iteration of the purge loop: the period set to 3 on both
      variables, then its RH recovery tail set to 4. */
  method PaintPeriod(qcTemp: array<int>, qcRh: array<int>, p: Span, recovery: nat,
                     ghost temp0: seq<int>, ghost tempStrokes: seq<Stroke>,
                     ghost rh0: seq<int>, ghost rhStrokes: seq<Stroke>)
    requires qcTemp != qcRh
    requires qcTemp[..] == Paint(temp0, tempStrokes) && qcRh[..] == Paint(rh0, rhStrokes)
    modifies qcTemp, qcRh
    ensures qcTemp[..] == Paint(temp0, tempStrokes + [Stroke(p, Purge)])
    ensures qcRh[..] == Paint(rh0, rhStrokes + [Stroke(p, Purge), Stroke(RecoverySpan(p, recovery, qcRh.Length), Recovery)])
  {
    var n := qcRh.Length;
    PaintSnoc(temp0, tempStrokes, Stroke(p, Purge));
    Seqs.FillSlice(qcTemp, p.lo, p.hi, Purge);
    PaintSnoc(rh0, rhStrokes, Stroke(p, Purge));
    Seqs.FillSlice(qcRh, p.lo, p.hi, Purge);
    var recoveryEnd := if p.hi + recovery <= n then p.hi + recovery else n;
    PaintSnoc(rh0, rhStrokes + [Stroke(p, Purge)], Stroke(RecoverySpan(p, recovery, n), Recovery));
    Seqs.FillSlice(qcRh, p.hi, recoveryEnd, Recovery);
    assert rhStrokes + [Stroke(p, Purge)] + [Stroke(RecoverySpan(p, recovery, n), Recovery)]
        == rhStrokes + [Stroke(p, Purge), Stroke(RecoverySpan(p, recovery, n), Recovery)];
  }

  /** The purge loop: each period, in order, is set to 3 on both variables,
      and the RH samples of its recovery tail to 4. */
  method ApplyPurgeFlags(qcTemp: array<int>, qcRh: array<int>, periods: seq<Span>, recovery: nat)
    requires qcTemp != qcRh
    modifies qcTemp, qcRh
    ensures qcTemp[..] == Paint(old(qcTemp[..]), TempPurgeStrokes(periods))
    ensures qcRh[..] == Paint(old(qcRh[..]), RhPurgeStrokes(periods, recovery, qcRh.Length))
  {
    var n := qcRh.Length;
    ghost var temp0, rh0 := qcTemp[..], qcRh[..];
    for t := 0 to |periods|
      invariant qcTemp[..] == Paint(temp0, TempPurgeStrokes(periods[..t]))
      invariant qcRh[..] == Paint(rh0, RhPurgeStrokes(periods[..t], recovery, n))
    {
      assert periods[..t + 1] == periods[..t] + [periods[t]];
      TempPurgeStrokesSnoc(periods[..t], periods[t]);
      RhPurgeStrokesSnoc(periods[..t], periods[t], recovery, n);
      PaintPeriod(qcTemp, qcRh, periods[t], recovery,
                  temp0, TempPurgeStrokes(periods[..t]), rh0, RhPurgeStrokes(periods[..t], recovery, n));
    }
    assert periods[..|periods|] == periods;
  }

  /** After the purge loop a temperature sample holds 3 exactly when some
      period covers it, and otherwise keeps its flag (so temperature never
      receives a 4). */
  lemma TempPurgeFlagsMeaning(flags: seq<int>, periods: seq<Span>, k: int)
    requires 0 <= k < |flags|
    ensures Paint(flags, TempPurgeStrokes(periods))[k] ==
      if exists t :: 0 <= t < |periods| && Covers(periods[t], k) then Purge else flags[k]
  {
    var strokes := TempPurgeStrokes(periods);
    PaintUniform(flags, strokes, Purge, k);
    if exists t :: 0 <= t < |periods| && Covers(periods[t], k) {
      var t :| 0 <= t < |periods| && Covers(periods[t], k);
      assert Covers(strokes[t].span, k);
    }
  }

  /** No period after the `t`-th touches sample `k`, by its purge span or
      by its recovery tail. */
  predicate UntouchedAfter(periods: seq<Span>, recovery: nat, n: nat, t: int, k: int)
  {
    forall u :: 0 <= u < |periods| && t < u ==> !Covers(periods[u], k) && !Covers(RecoverySpan(periods[u], recovery, n), k)
  }

  /** The strokes of the periods after the `t`-th miss a sample those
      periods leave untouched. */
  lemma LaterStrokesMiss(periods: seq<Span>, recovery: nat, n: nat, t: int, k: int)
    requires -1 <= t < |periods| && UntouchedAfter(periods, recovery, n, t, k)
    ensures forall s :: 2 * t + 2 <= s < 2 * |periods| ==> !Covers(RhPurgeStrokes(periods, recovery, n)[s].span, k)
  {
    var strokes := RhPurgeStrokes(periods, recovery, n);
    forall s | 2 * t + 2 <= s < 2 * |periods| ensures !Covers(strokes[s].span, k) {
      var u := s / 2;
      RhPurgeStrokeAt(periods, recovery, n, u);
      assert s == 2 * u || s == 2 * u + 1;
    }
  }

  /** After the purge loop an RH sample that no period or recovery tail
      touches keeps its flag. */
  lemma RhPurgeFlagsUntouched(flags: seq<int>, periods: seq<Span>, recovery: nat, k: int)
    requires 0 <= k < |flags|
    requires UntouchedAfter(periods, recovery, |flags|, -1, k)
    ensures Paint(flags, RhPurgeStrokes(periods, recovery, |flags|))[k] == flags[k]
  {
    PaintLastWins(flags, RhPurgeStrokes(periods, recovery, |flags|), k);
    LaterStrokesMiss(periods, recovery, |flags|, -1, k);
  }

  /** After the purge loop the last period that touches an RH sample
      decides its flag: 3 inside the period, 4 inside its recovery tail. */
  lemma RhPurgeFlagsLastPeriod(flags: seq<int>, periods: seq<Span>, recovery: nat, k: int, t: int)
    requires 0 <= k < |flags|
    requires 0 <= t < |periods| && UntouchedAfter(periods, recovery, |flags|, t, k)
    ensures Covers(periods[t], k) ==> Paint(flags, RhPurgeStrokes(periods, recovery, |flags|))[k] == Purge
    ensures Covers(RecoverySpan(periods[t], recovery, |flags|), k) ==>
      Paint(flags, RhPurgeStrokes(periods, recovery, |flags|))[k] == Recovery
  {
    var n := |flags|;
    var strokes := RhPurgeStrokes(periods, recovery, n);
    PaintLastWins(flags, strokes, k);
    LaterStrokesMiss(periods, recovery, n, t, k);
    RhPurgeStrokeAt(periods, recovery, n, t);
    if Covers(periods[t], k) {
      assert LastCover(strokes, k, 2 * t);
    }
    if Covers(RecoverySpan(periods[t], recovery, n), k) {
      assert LastCover(strokes, k, 2 * t + 1);
    }
  }

  // ---------------------------------------------------------------------
  // Dips

  /** The RH strokes of the dips: each dip the gate allows sets the samples
      strictly between its drop and its recovery to 4. */
  function DipStrokes(dips: seq<Dip>, windows: seq<Window>, times: seq<int>): (r: seq<Stroke>)
    requires forall t :: 0 <= t < |dips| ==> dips[t].drop < |times|
    ensures |r| <= |dips|
    ensures forall u :: 0 <= u < |r| ==> r[u].flag == Recovery
  {
    if dips == [] then []
    else
      var last := dips[|dips| - 1];
      var prev := DipStrokes(dips[..|dips| - 1], windows, times);
      if Allowed(windows, TimeOfDay(times[last.drop])) then prev + [Stroke(Span(last.drop + 1, last.recovery), Recovery)]
      else prev
  }

  /** Every allowed dip has its stroke. */
  lemma {:induction false} AllowedDipsPainted(dips: seq<Dip>, windows: seq<Window>, times: seq<int>, t: int)
    requires forall u :: 0 <= u < |dips| ==> dips[u].drop < |times|
    requires 0 <= t < |dips| && Allowed(windows, TimeOfDay(times[dips[t].drop]))
    ensures Stroke(Span(dips[t].drop + 1, dips[t].recovery), Recovery) in DipStrokes(dips, windows, times)
  {
    var init := dips[..|dips| - 1];
    if t < |init| {
      assert init[t] == dips[t];
      AllowedDipsPainted(init, windows, times, t);
    }
  }

  function DipStroke(d: Dip, windows: seq<Window>, times: seq<int>): seq<Stroke>
    requires d.drop < |times|
  {
    if Allowed(windows, TimeOfDay(times[d.drop])) then [Stroke(Span(d.drop + 1, d.recovery), Recovery)] else []
  }

  lemma DipStrokesSnoc(dips: seq<Dip>, d: Dip, windows: seq<Window>, times: seq<int>)
    requires forall t :: 0 <= t < |dips| ==> dips[t].drop < |times|
    requires d.drop < |times|
    ensures DipStrokes(dips + [d], windows, times) == DipStrokes(dips, windows, times) + DipStroke(d, windows, times)
  {
    assert (dips + [d])[..|dips|] == dips;
  }

  /** One iteration of the dip loop: the gate, then the dip's interior set
      to 4 when allowed. */
  method PaintDip(qcRh: array<int>, d: Dip, windows: seq<Window>, times: seq<int>,
                  ghost rh0: seq<int>, ghost strokes: seq<Stroke>)
    requires d.drop < |times|
    requires qcRh[..] == Paint(rh0, strokes)
    modifies qcRh
    ensures qcRh[..] == Paint(rh0, strokes + DipStroke(d, windows, times))
  {
    var allow := DipAllowed(windows, TimeOfDay(times[d.drop]));
    if allow {
      PaintSnoc(rh0, strokes, Stroke(Span(d.drop + 1, d.recovery), Recovery));
      Seqs.FillSlice(qcRh, d.drop + 1, d.recovery, Recovery);
    } else {
      assert strokes + DipStroke(d, windows, times) == strokes;
    }
  }

  /** The dip loop: each dip's start time of day is gated by the expected
      windows, and an allowed dip sets RH on (drop, recovery) to 4; the
      drop sample itself is left alone. */
  method ApplyDipFlags(qcRh: array<int>, dips: seq<Dip>, windows: seq<Window>, times: seq<int>)
    requires forall t :: 0 <= t < |dips| ==> dips[t].drop < |times|
    modifies qcRh
    ensures qcRh[..] == Paint(old(qcRh[..]), DipStrokes(dips, windows, times))
  {
    ghost var rh0 := qcRh[..];
    for t := 0 to |dips|
      invariant qcRh[..] == Paint(rh0, DipStrokes(dips[..t], windows, times))
    {
      assert dips[..t + 1] == dips[..t] + [dips[t]];
      DipStrokesSnoc(dips[..t], dips[t], windows, times);
      PaintDip(qcRh, dips[t], windows, times, rh0, DipStrokes(dips[..t], windows, times));
    }
    assert dips[..|dips|] == dips;
  }

  /** Every stroke comes from an allowed dip. */
  lemma {:induction false} DipStrokeFromAllowed(dips: seq<Dip>, windows: seq<Window>, times: seq<int>, u: int)
    requires forall t :: 0 <= t < |dips| ==> dips[t].drop < |times|
    requires 0 <= u < |DipStrokes(dips, windows, times)|
    ensures exists t :: 0 <= t < |dips| && Allowed(windows, TimeOfDay(times[dips[t].drop]))
                        && DipStrokes(dips, windows, times)[u].span == Span(dips[t].drop + 1, dips[t].recovery)
  {
    var init := dips[..|dips| - 1];
    var prev := DipStrokes(init, windows, times);
    if u < |prev| {
      DipStrokeFromAllowed(init, windows, times, u);
      var t :| 0 <= t < |init| && Allowed(windows, TimeOfDay(times[init[t].drop]))
               && prev[u].span == Span(init[t].drop + 1, init[t].recovery);
      assert init[t] == dips[t];
    } else {
      assert DipStrokes(dips, windows, times)[u].span == Span(dips[|dips| - 1].drop + 1, dips[|dips| - 1].recovery);
    }
  }

  /** After the dip loop an RH sample holds 4 exactly when it lies strictly
      inside an allowed dip, and otherwise keeps its flag. */
  lemma DipFlagsMeaning(flags: seq<int>, dips: seq<Dip>, windows: seq<Window>, times: seq<int>, k: int)
    requires forall u :: 0 <= u < |dips| ==> dips[u].drop < |times|
    requires 0 <= k < |flags|
    ensures Paint(flags, DipStrokes(dips, windows, times))[k] ==
      if exists t :: 0 <= t < |dips| && Allowed(windows, TimeOfDay(times[dips[t].drop]))
                     && dips[t].drop < k < dips[t].recovery
      then Recovery else flags[k]
  {
    var strokes := DipStrokes(dips, windows, times);
    PaintUniform(flags, strokes, Recovery, k);
    if exists t :: 0 <= t < |dips| && Allowed(windows, TimeOfDay(times[dips[t].drop]))
                   && dips[t].drop < k < dips[t].recovery {
      var t :| 0 <= t < |dips| && Allowed(windows, TimeOfDay(times[dips[t].drop]))
               && dips[t].drop < k < dips[t].recovery;
      AllowedDipsPainted(dips, windows, times, t);
      var u :| 0 <= u < |strokes| && strokes[u] == Stroke(Span(dips[t].drop + 1, dips[t].recovery), Recovery);
      assert Covers(strokes[u].span, k);
    }
    if exists u :: 0 <= u < |strokes| && Covers(strokes[u].span, k) {
      var u :| 0 <= u < |strokes| && Covers(strokes[u].span, k);
      DipStrokeFromAllowed(dips, windows, times, u);
    }
  }
}
