/** `detect_rh_dips`: sharp drops in relative humidity that follow a flat
    stretch and recover within a bounded number of samples and seconds. */
module Dips {

  /** A detected dip: `drop` is the first sample after the fall (the last
      sample before the transient is flagged from `drop + 1`), `recovery`
      the first sample that has climbed back by at least the fall. */
  datatype Dip = Dip(drop: nat, recovery: nat)

  /** The tuning of the detector: `drop_thresh`, `recovery_time` (seconds)
      and `flat_window` (samples searched for a preceding flat sample). */
  datatype DipParams = DipParams(dropThresh: real, recoveryTime: int, flatWindow: nat)

  /** Samples looked at before the drop, samples left unscanned at the end
      of the series, and the forward search horizon. */
  const LookBack: nat := 3
  const TailMargin: nat := 10
  const SearchHorizon: nat := 20

  function Max3(a: real, b: real, c: real): (m: real)
    ensures m >= a && m >= b && m >= c
    ensures m == a || m == b || m == c
  {
    if a >= b && a >= c then a else if b >= c then b else c
  }

  /** How far sample `i` lies below the highest of the three samples before
      it (`max(rh[i-3:i]) - rh[i]`). */
  function DropDepth(rh: seq<real>, i: nat): real
    requires LookBack <= i < |rh|
  {
    Max3(rh[i - 3], rh[i - 2], rh[i - 1]) - rh[i]
  }

  /** First index of the preceding flat window, `max(0, i - flat_window)`. */
  function WindowStart(i: nat, flatWindow: nat): nat
  {
    if i >= flatWindow then i - flatWindow else 0
  }

  /** Some sample of `flat` in [max(0, i - flatWindow), i) is flat. */
  predicate FlatBefore(flat: seq<bool>, i: nat, flatWindow: nat)
    requires i <= |flat|
  {
    exists k :: WindowStart(i, flatWindow) <= k < i && flat[k]
  }

  /** Index `i` is scanned and qualifies as the start of a dip. */
  predicate StartsDip(rh: seq<real>, flat: seq<bool>, p: DipParams, i: nat)
    requires |flat| == |rh|
  {
    && LookBack <= i < |rh| - TailMargin
    && FlatBefore(flat, i, p.flatWindow)
    && DropDepth(rh, i) >= p.dropThresh
  }

  /** Sample `j` has regained the whole fall at `i`, soon enough. */
  predicate Recovers(rh: seq<real>, time: seq<int>, p: DipParams, i: nat, j: nat)
    requires |time| == |rh| && LookBack <= i < |rh| && j < |rh|
  {
    rh[j] - rh[i] >= DropDepth(rh, i) && time[j] - time[i] <= p.recoveryTime
  }

  /** The last index (exclusive) of the forward search from `i`,
      `min(i + 20, len(rh))`. */
  function SearchEnd(i: nat, n: nat): nat
  {
    if i + SearchHorizon <= n then i + SearchHorizon else n
  }

  /** (i, j) is a dip: i qualifies, j lies in the search window, j recovers
      and no earlier sample of the window does. */
  predicate IsDip(rh: seq<real>, time: seq<int>, flat: seq<bool>, p: DipParams, i: nat, j: nat)
    requires |time| == |rh| && |flat| == |rh|
  {
    && StartsDip(rh, flat, p, i)
    && i < j < SearchEnd(i, |rh|)
    && Recovers(rh, time, p, i, j)
    && (forall j' :: i < j' < j ==> !Recovers(rh, time, p, i, j'))
  }

  /** `detect_rh_dips`, with the flat mask (`detect_flat(rh, flat_window,
      flat_threshold)`) given: the dips, one per qualifying start index, in
      increasing order of that index, each with its first recovering
      sample. */
  method DetectRhDips(rh: seq<real>, time: seq<int>, flat: seq<bool>, p: DipParams)
    returns (dips: seq<Dip>)
    requires |time| == |rh| && |flat| == |rh|
    ensures forall t :: 0 <= t < |dips| ==> IsDip(rh, time, flat, p, dips[t].drop, dips[t].recovery)
    ensures forall t, u :: 0 <= t < u < |dips| ==> dips[t].drop < dips[u].drop
    ensures forall i: nat, j: nat :: IsDip(rh, time, flat, p, i, j) ==> Dip(i, j) in dips
    ensures forall t :: 0 <= t < |dips| ==> dips[t].drop < |rh|
    ensures IsDipList(rh, time, flat, p, dips)
  {
    dips := [];
    var n := |rh|;
    var i := LookBack;
    while i < n - TailMargin
      invariant LookBack <= i
      invariant forall t :: 0 <= t < |dips| ==>
        IsDip(rh, time, flat, p, dips[t].drop, dips[t].recovery) && dips[t].drop < i
      invariant forall t, u :: 0 <= t < u < |dips| ==> dips[t].drop < dips[u].drop
      invariant forall i': nat, j: nat :: i' < i && IsDip(rh, time, flat, p, i', j) ==> Dip(i', j) in dips
    {
      var lo := WindowStart(i, p.flatWindow);
      if exists k :: lo <= k < i && flat[k] {
        var deltaDown := Max3(rh[i - 3], rh[i - 2], rh[i - 1]) - rh[i];
        if deltaDown >= p.dropThresh {
          var hi := SearchEnd(i, n);
          var j := i + 1;
          ghost var found := false;
          while j < hi
            invariant i + 1 <= j <= hi
            invariant forall j' :: i < j' < j ==> !Recovers(rh, time, p, i, j')
            invariant !found
          {
            if rh[j] - rh[i] >= deltaDown && time[j] - time[i] <= p.recoveryTime {
              dips := dips + [Dip(i, j)];
              found := true;
              break;
            }
            j := j + 1;
          }
          assert found ==> dips[|dips| - 1] == Dip(i, j) && IsDip(rh, time, flat, p, i, j);
          assert !found ==> forall j' :: i < j' < hi ==> !Recovers(rh, time, p, i, j');
        }
      }
      i := i + 1;
    }
  }

  /** What `DetectRhDips` promises of its result: only dips, every dip, in
      increasing order of the drop index. */
  ghost predicate IsDipList(rh: seq<real>, time: seq<int>, flat: seq<bool>, p: DipParams, dips: seq<Dip>)
    requires |time| == |rh| && |flat| == |rh|
  {
    && (forall t :: 0 <= t < |dips| ==> IsDip(rh, time, flat, p, dips[t].drop, dips[t].recovery))
    && (forall t, u :: 0 <= t < u < |dips| ==> dips[t].drop < dips[u].drop)
    && (forall i: nat, j: nat :: IsDip(rh, time, flat, p, i, j) ==> Dip(i, j) in dips)
  }

  predicate IncreasingDrops(dips: seq<Dip>)
  {
    forall t, u :: 0 <= t < u < |dips| ==> dips[t].drop < dips[u].drop
  }

  /** Two lists with strictly increasing drop indices and the same elements
      are the same list. */
  lemma {:induction false} IncreasingSameElements(a: seq<Dip>, b: seq<Dip>)
    requires IncreasingDrops(a) && IncreasingDrops(b)
    requires forall x :: x in a <==> x in b
    ensures a == b
    decreases |a|
  {
    assert a != [] ==> a[0] in b;
    assert b != [] ==> b[0] in a;
    if a != [] {
      var t :| 0 <= t < |a| && a[t] == b[0];
      var u :| 0 <= u < |b| && b[u] == a[0];
      assert a[0].drop <= a[t].drop;
      assert b[0].drop <= b[u].drop;
      assert a[0] == b[0];
      forall x ensures x in a[1..] <==> x in b[1..] {
        if x in a[1..] {
          var t' :| 1 <= t' < |a| && a[t'] == x;
          assert x in b && x.drop > a[0].drop;
          var u' :| 0 <= u' < |b| && b[u'] == x;
          assert u' != 0;
        }
        if x in b[1..] {
          var u' :| 1 <= u' < |b| && b[u'] == x;
          assert x in a && x.drop > b[0].drop;
          var t' :| 0 <= t' < |a| && a[t'] == x;
          assert t' != 0;
        }
      }
      IncreasingSameElements(a[1..], b[1..]);
      assert a == [a[0]] + a[1..] && b == [b[0]] + b[1..];
    }
  }

  /** The promise of `DetectRhDips` fixes its result: any two lists that
      keep it are equal. */
  lemma DipListUnique(rh: seq<real>, time: seq<int>, flat: seq<bool>, p: DipParams, a: seq<Dip>, b: seq<Dip>)
    requires |time| == |rh| && |flat| == |rh|
    requires IsDipList(rh, time, flat, p, a) && IsDipList(rh, time, flat, p, b)
    ensures a == b
  {
    forall x ensures x in a <==> x in b {
      if x in a {
        var t :| 0 <= t < |a| && a[t] == x;
        assert IsDip(rh, time, flat, p, x.drop, x.recovery);
      }
      if x in b {
        var t :| 0 <= t < |b| && b[t] == x;
        assert IsDip(rh, time, flat, p, x.drop, x.recovery);
      }
    }
    IncreasingSameElements(a, b);
  }
}
