/** Maximal runs of `true` in a boolean mask. Four loops of the QC tools
    (purge-period extraction, `filter_short_events`, the previous-day
    expected windows and `get_purge_intervals`) walk a mask with a
    `start = None` variable; this module states once what such a walk
    finds and proves that each of its steps keeps that statement true. */
module Runs {
  import opened Wrappers

  /** A half-open index range [lo, hi). */
  datatype Span = Span(lo: nat, hi: nat)

  predicate Covers(r: Span, k: int)
  {
    r.lo <= k < r.hi
  }

  /** [r.lo, r.hi) is a non-empty block of true samples that cannot be
      extended on either side. */
  predicate IsMaximalRun(mask: seq<bool>, r: Span)
  {
    && r.lo < r.hi <= |mask|
    && (forall k :: r.lo <= k < r.hi ==> mask[k])
    && (r.lo == 0 || !mask[r.lo - 1])
    && (r.hi == |mask| || !mask[r.hi])
  }

  /** Each span ends before the next one starts. */
  predicate Ordered(runs: seq<Span>)
  {
    forall t, u :: 0 <= t < u < |runs| ==> runs[t].hi < runs[u].lo
  }

  ghost predicate Covered(runs: seq<Span>, k: int)
  {
    exists t :: 0 <= t < |runs| && Covers(runs[t], k)
  }

  /** `runs` lists every maximal run of `mask`, left to right. */
  ghost predicate MaximalRuns(mask: seq<bool>, runs: seq<Span>)
  {
    && (forall t :: 0 <= t < |runs| ==> IsMaximalRun(mask, runs[t]))
    && Ordered(runs)
    && (forall k :: 0 <= k < |mask| && mask[k] ==> Covered(runs, k))
  }

  /** Index `i` opens a run: it is true and its predecessor is not. */
  predicate IsRunStart(mask: seq<bool>, i: int)
    requires 0 <= i < |mask|
  {
    mask[i] && (i == 0 || !mask[i - 1])
  }

  /** The number of run starts among the first `k` samples. */
  function StartsBefore(mask: seq<bool>, k: nat): nat
    requires k <= |mask|
  {
    if k == 0 then 0
    else StartsBefore(mask, k - 1) + (if IsRunStart(mask, k - 1) then 1 else 0)
  }

  /** The number of positions i with mask[i] and (i == 0 or !mask[i-1]). */
  function RunStartCount(mask: seq<bool>): nat
  {
    StartsBefore(mask, |mask|)
  }

  // ---------------------------------------------------------------------
  // The left-to-right walk.

  /** What the walk knows after looking at mask[..i]: `runs` holds the runs
      already closed, `open` the start of the run still in progress. */
  ghost predicate ScanState(mask: seq<bool>, i: nat, runs: seq<Span>, open: Option<nat>)
  {
    && i <= |mask|
    && (forall t :: 0 <= t < |runs| ==> IsMaximalRun(mask, runs[t]) && runs[t].hi < i)
    && Ordered(runs)
    && (match open
        case None => i == 0 || !mask[i - 1]
        case Some(s) =>
          && s < i
          && (forall k :: s <= k < i ==> mask[k])
          && (s == 0 || !mask[s - 1])
          && (forall t :: 0 <= t < |runs| ==> runs[t].hi < s))
    && (forall k :: 0 <= k < i && mask[k] ==> Covered(runs, k) || (open.Some? && open.value <= k))
    && |runs| + (if open.Some? then 1 else 0) == StartsBefore(mask, i)
  }

  /** The start variable after looking at mask[i]. */
  function NextOpen(mask: seq<bool>, i: nat, open: Option<nat>): Option<nat>
    requires i < |mask|
  {
    if mask[i] then (if open.None? then Some(i) else open) else None
  }

  /** The closed runs after looking at mask[i]: a false sample closes the
      open run. */
  function NextRuns(mask: seq<bool>, i: nat, runs: seq<Span>, open: Option<nat>): seq<Span>
    requires i < |mask|
  {
    if !mask[i] && open.Some? then runs + [Span(open.value, i)] else runs
  }

  /** The closed runs once the walk is over: a run still open reaches the
      end of the mask. */
  function FinalRuns(mask: seq<bool>, runs: seq<Span>, open: Option<nat>): seq<Span>
  {
    if open.Some? then runs + [Span(open.value, |mask|)] else runs
  }

  lemma ScanInit(mask: seq<bool>)
    ensures ScanState(mask, 0, [], None)
  {
  }

  lemma ScanStep(mask: seq<bool>, i: nat, runs: seq<Span>, open: Option<nat>)
    requires ScanState(mask, i, runs, open) && i < |mask|
    ensures ScanState(mask, i + 1, NextRuns(mask, i, runs, open), NextOpen(mask, i, open))
  {
    match open
    case None =>
      if mask[i] { ScanOpen(mask, i, runs); } else { ScanIdle(mask, i, runs); }
    case Some(s) =>
      if mask[i] { ScanExtend(mask, i, runs, s); } else { ScanClose(mask, i, runs, s); }
  }

  /** A true sample with no run open starts a run. */
  lemma ScanOpen(mask: seq<bool>, i: nat, runs: seq<Span>)
    requires ScanState(mask, i, runs, None) && i < |mask| && mask[i]
    ensures ScanState(mask, i + 1, runs, Some(i))
  {
    assert IsRunStart(mask, i);
    assert StartsBefore(mask, i + 1) == StartsBefore(mask, i) + 1;
  }

  /** A false sample with no run open changes nothing. */
  lemma ScanIdle(mask: seq<bool>, i: nat, runs: seq<Span>)
    requires ScanState(mask, i, runs, None) && i < |mask| && !mask[i]
    ensures ScanState(mask, i + 1, runs, None)
  {
    assert !IsRunStart(mask, i);
    assert StartsBefore(mask, i + 1) == StartsBefore(mask, i);
  }

  /** A true sample extends the open run. */
  lemma ScanExtend(mask: seq<bool>, i: nat, runs: seq<Span>, s: nat)
    requires ScanState(mask, i, runs, Some(s)) && i < |mask| && mask[i]
    ensures ScanState(mask, i + 1, runs, Some(s))
  {
    assert mask[i - 1];
    assert !IsRunStart(mask, i);
    assert StartsBefore(mask, i + 1) == StartsBefore(mask, i);
  }

  /** A false sample closes the open run, which is then maximal. */
  lemma ScanClose(mask: seq<bool>, i: nat, runs: seq<Span>, s: nat)
    requires ScanState(mask, i, runs, Some(s)) && i < |mask| && !mask[i]
    ensures ScanState(mask, i + 1, runs + [Span(s, i)], None)
  {
    var runs' := runs + [Span(s, i)];
    assert IsMaximalRun(mask, Span(s, i));
    assert forall t :: 0 <= t < |runs| ==> runs'[t] == runs[t];
    assert runs'[|runs|] == Span(s, i);
    assert !IsRunStart(mask, i);
    assert StartsBefore(mask, i + 1) == StartsBefore(mask, i);
    forall k | 0 <= k < i + 1 && mask[k] ensures Covered(runs', k) {
      if Covered(runs, k) {
        var t :| 0 <= t < |runs| && Covers(runs[t], k);
        assert Covers(runs'[t], k);
      } else {
        assert Covers(runs'[|runs|], k);
      }
    }
  }

  /** When the walk has seen the whole mask, the closed runs (with the open
      run closed at the end) are exactly the maximal runs, and there are as
      many of them as run starts. */
  lemma ScanFinish(mask: seq<bool>, runs: seq<Span>, open: Option<nat>)
    requires ScanState(mask, |mask|, runs, open)
    ensures MaximalRuns(mask, FinalRuns(mask, runs, open))
    ensures |FinalRuns(mask, runs, open)| == RunStartCount(mask)
  {
    var fin := FinalRuns(mask, runs, open);
    forall k | 0 <= k < |mask| && mask[k] ensures Covered(fin, k) {
      if Covered(runs, k) {
        var t :| 0 <= t < |runs| && Covers(runs[t], k);
        assert fin[t] == runs[t];
      } else {
        assert Covers(fin[|runs|], k);
      }
    }
  }

  // ---------------------------------------------------------------------
  // Maximal runs are determined by the mask.

  /** Two maximal runs that share a sample are the same run. */
  lemma {:induction false} SameRun(mask: seq<bool>, a: Span, b: Span, k: int)
    requires IsMaximalRun(mask, a) && IsMaximalRun(mask, b)
    requires Covers(a, k) && Covers(b, k)
    ensures a == b
  {
  }

  /** Every maximal run of the mask appears in a complete list of them. */
  lemma MaximalRunListed(mask: seq<bool>, runs: seq<Span>, r: Span)
    requires MaximalRuns(mask, runs) && IsMaximalRun(mask, r)
    ensures r in runs
  {
    assert mask[r.lo];
    var t :| 0 <= t < |runs| && Covers(runs[t], r.lo);
    SameRun(mask, runs[t], r, r.lo);
  }

  predicate WellFormed(runs: seq<Span>)
  {
    forall t :: 0 <= t < |runs| ==> runs[t].lo < runs[t].hi
  }

  /** In an ordered list of non-empty spans the first one starts first. */
  lemma HeadStartsFirst(a: seq<Span>, x: Span)
    requires Ordered(a) && WellFormed(a) && a != [] && x in a
    ensures a[0].lo <= x.lo
    ensures x in a[1..] ==> a[0].lo < x.lo
  {
    var i :| 0 <= i < |a| && a[i] == x;
    if x in a[1..] {
      var j :| 1 <= j < |a| && a[j] == x;
    }
  }

  /** In an ordered list of non-empty spans no two elements start together. */
  lemma StartIdentifies(a: seq<Span>, x: Span, y: Span)
    requires Ordered(a) && WellFormed(a) && x in a && y in a && x.lo == y.lo
    ensures x == y
  {
    var i :| 0 <= i < |a| && a[i] == x;
    var j :| 0 <= j < |a| && a[j] == y;
  }

  lemma TailsSameElements(a: seq<Span>, b: seq<Span>)
    requires Ordered(a) && Ordered(b) && WellFormed(a) && WellFormed(b)
    requires a != [] && b != [] && a[0] == b[0]
    requires forall x :: x in a <==> x in b
    ensures forall x :: x in a[1..] <==> x in b[1..]
  {
    assert a == [a[0]] + a[1..] && b == [b[0]] + b[1..];
    forall x ensures x in a[1..] ==> x in b[1..] {
      if x in a[1..] {
        HeadStartsFirst(a, x);
        assert x in b;
      }
    }
    forall x ensures x in b[1..] ==> x in a[1..] {
      if x in b[1..] {
        HeadStartsFirst(b, x);
        assert x in a;
      }
    }
  }

  lemma HeadsEqual(a: seq<Span>, b: seq<Span>)
    requires Ordered(a) && Ordered(b) && WellFormed(a) && WellFormed(b)
    requires a != [] && b != []
    requires forall x :: x in a <==> x in b
    ensures a[0] == b[0]
  {
    assert a[0] in b && b[0] in a;
    HeadStartsFirst(a, b[0]);
    HeadStartsFirst(b, a[0]);
    StartIdentifies(b, a[0], b[0]);
  }

  lemma TailOrdered(a: seq<Span>)
    requires Ordered(a) && WellFormed(a) && a != []
    ensures Ordered(a[1..]) && WellFormed(a[1..])
  {
  }

  /** Two ordered lists of non-empty spans with the same elements are equal. */
  lemma {:induction false} OrderedSameElements(a: seq<Span>, b: seq<Span>)
    requires Ordered(a) && Ordered(b) && WellFormed(a) && WellFormed(b)
    requires forall x :: x in a <==> x in b
    ensures a == b
    decreases |a|
  {
    EmptyTogether(a, b);
    if a != [] {
      HeadsEqual(a, b);
      TailsSameElements(a, b);
      TailOrdered(a);
      TailOrdered(b);
      OrderedSameElements(a[1..], b[1..]);
      assert a == [a[0]] + a[1..];
      assert b == [b[0]] + b[1..];
    }
  }

  /** Lists with the same elements are empty together. */
  lemma EmptyTogether<T>(a: seq<T>, b: seq<T>)
    requires forall x :: x in a <==> x in b
    ensures a == [] <==> b == []
  {
    if a != [] {
      assert a[0] in b;
    }
    if b != [] {
      assert b[0] in a;
    }
  }

  /** A mask has exactly one complete ordered list of maximal runs, so every
      walk over it finds the same runs. */
  lemma MaximalRunsUnique(mask: seq<bool>, a: seq<Span>, b: seq<Span>)
    requires MaximalRuns(mask, a) && MaximalRuns(mask, b)
    ensures a == b
  {
    forall x ensures x in a <==> x in b {
      if x in a { MaximalRunListed(mask, b, x); }
      if x in b { MaximalRunListed(mask, a, x); }
    }
    OrderedSameElements(a, b);
  }

  /** `runs` is empty exactly when no sample is set. */
  lemma MaximalRunsEmpty(mask: seq<bool>, runs: seq<Span>)
    requires MaximalRuns(mask, runs)
    ensures runs == [] <==> forall k :: 0 <= k < |mask| ==> !mask[k]
  {
    if runs != [] {
      assert mask[runs[0].lo];
    }
  }
}
