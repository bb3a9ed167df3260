/** Sequence helpers shared by the QC tools: order-preserving filtering
    (Python list comprehensions with an `if`) and slice assignment
    (`a[lo:hi] = v` on a NumPy array). */
module Seqs {

  /** The elements of `s` that satisfy `p`, in their original order. */
  function Filter<T>(s: seq<T>, p: T -> bool): (r: seq<T>)
    ensures |r| <= |s|
    ensures forall x :: x in r ==> x in s && p(x)
  {
    if s == [] then []
    else Filter(s[..|s| - 1], p) + (if p(s[|s| - 1]) then [s[|s| - 1]] else [])
  }

  /** Extending the input by one element extends the filtered list by that
      element when it passes, and leaves it unchanged otherwise. */
  lemma FilterSnoc<T>(s: seq<T>, x: T, p: T -> bool)
    ensures Filter(s + [x], p) == Filter(s, p) + (if p(x) then [x] else [])
  {
    assert (s + [x])[..|s + [x]| - 1] == s;
  }

  /** Filtering a list that starts with `x`. */
  lemma {:induction false} FilterCons<T>(x: T, s: seq<T>, p: T -> bool)
    ensures Filter([x] + s, p) == (if p(x) then [x] else []) + Filter(s, p)
  {
    if s == [] {
      assert ([x] + s)[..|[x] + s| - 1] == [];
    } else {
      var init := s[..|s| - 1];
      assert ([x] + s)[..|[x] + s| - 1] == [x] + init;
      FilterCons(x, init, p);
    }
  }

  /** Nothing that passes the test is dropped. */
  lemma {:induction false} FilterComplete<T>(s: seq<T>, p: T -> bool, x: T)
    requires x in s && p(x)
    ensures x in Filter(s, p)
  {
    var last := s[|s| - 1];
    if x != last {
      assert x in s[..|s| - 1] by {
        var k :| 0 <= k < |s| && s[k] == x;
        assert k < |s| - 1;
        assert s[..|s| - 1][k] == x;
      }
      FilterComplete(s[..|s| - 1], p, x);
    }
  }

  /** The filtered list is empty exactly when no element passes. */
  lemma FilterEmpty<T>(s: seq<T>, p: T -> bool)
    ensures Filter(s, p) == [] <==> forall k :: 0 <= k < |s| ==> !p(s[k])
  {
    if Filter(s, p) == [] {
      forall k | 0 <= k < |s| ensures !p(s[k]) {
        if p(s[k]) { FilterComplete(s, p, s[k]); }
      }
    } else {
      var x := Filter(s, p)[0];
      assert x in Filter(s, p);
      var k :| 0 <= k < |s| && s[k] == x;
    }
  }

  /** The result of the slice assignment `s[lo:hi] = v` (NumPy semantics for
      non-negative bounds: an upper bound past the end is clipped and an
      empty or inverted range changes nothing). */
  function Assigned<T>(s: seq<T>, lo: nat, hi: nat, v: T): (r: seq<T>)
    ensures |r| == |s|
  {
    seq(|s|, k requires 0 <= k < |s| => if lo <= k < hi then v else s[k])
  }

  /** Slice assignment performed in place on an array. */
  method FillSlice<T>(a: array<T>, lo: nat, hi: nat, v: T)
    modifies a
    ensures a[..] == Assigned(old(a[..]), lo, hi, v)
  {
    forall k | 0 <= k < a.Length && lo <= k < hi {
      a[k] := v;
    }
  }
}
