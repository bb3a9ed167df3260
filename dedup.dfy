/** `deduplicate_daily_files` for one `YYYY/YYYYMM` directory: the `.dat`
    files are grouped by the last `_`-separated piece of their stem (the
    day), and within a group every file whose bytes equal those of the
    group's first file is deleted. */
module Dedup {
  import opened Wrappers
  import opened Calendar
  import opened Text
  import opened DateText
  import DailySplit

  /** A `.dat` file of the directory: its stem and its bytes. */
  datatype DatFile = DatFile(stem: string, content: seq<bv8>)

  /** The group of a file: the last piece of `stem.split('_')`, or none when
      the stem has no `_`. */
  function DedupKey(stem: string): (k: Option<string>)
    ensures k.None? <==> '_' !in stem
  {
    var parts := SplitOn(stem, '_');
    if |parts| < 2 then None else Some(parts[|parts| - 1])
  }

  /** The group is what follows the last `_`: a stem made of any prefix,
      `_`, and a piece without `_` is grouped under that piece. */
  lemma DedupKeyOfSuffix(prefix: string, key: string)
    requires '_' !in key
    ensures DedupKey(prefix + "_" + key) == Some(key)
  {
    SplitOnSnoc(prefix, '_', key);
    assert prefix + "_" + key == prefix + ['_'] + key;
  }

  /** The files written for day `d` are grouped under `YYYYMMDD`. */
  lemma DailyFileKey(outputDir: string, stem: string, d: Date)
    requires ValidDate(d) && '/' !in stem
    ensures DedupKey(DailySplit.Stem(DailySplit.OutputPath(outputDir, stem, d))) == Some(CompactDate(d))
  {
    DailySplit.StemOfOutput(outputDir, stem, d);
    var tok := CompactDate(d);
    assert '_' !in tok by {
      forall k | 0 <= k < |tok| ensures tok[k] != '_' {
        assert IsDigit(tok[k]);
      }
    }
    DedupKeyOfSuffix(stem, tok);
  }

  predicate HasKey(files: seq<DatFile>, j: nat, key: string)
    requires j < |files|
  {
    DedupKey(files[j].stem) == Some(key)
  }

  /** The position of the first file of group `key` (the one that is kept),
      or `|files|` when the group is empty. */
  function FirstOfGroup(files: seq<DatFile>, key: string): (r: nat)
    ensures r <= |files|
    ensures r < |files| ==> HasKey(files, r, key)
    ensures forall j :: 0 <= j < r ==> !HasKey(files, j, key)
  {
    if files == [] then 0
    else if DedupKey(files[0].stem) == Some(key) then 0
    else
      var r := FirstOfGroup(files[1..], key);
      assert forall j :: 1 <= j < |files| ==> HasKey(files, j, key) == HasKey(files[1..], j - 1, key);
      r + 1
  }

  /** A file is deleted when it has a group, is not the group's first file,
      and has the same bytes as the first file. */
  predicate IsDuplicate(files: seq<DatFile>, i: nat)
    requires i < |files|
  {
    match DedupKey(files[i].stem)
    case None => false
    case Some(key) =>
      var first := FirstOfGroup(files, key);
      first < i && files[i].content == files[first].content
  }

  /** The positions, below `n`, of the files in group `key`, in listing
      order (the list the source builds with `setdefault`). */
  function Members(files: seq<DatFile>, key: string, n: nat): (m: seq<nat>)
    requires n <= |files|
    ensures forall t :: 0 <= t < |m| ==> m[t] < n && HasKey(files, m[t], key)
    ensures forall t, u :: 0 <= t < u < |m| ==> m[t] < m[u]
    ensures forall j :: 0 <= j < n && HasKey(files, j, key) ==> j in m
  {
    if n == 0 then []
    else Members(files, key, n - 1) + (if HasKey(files, n - 1, key) then [n - 1] else [])
  }

  /** A group's list starts with its first file. */
  lemma MembersStartWithFirst(files: seq<DatFile>, key: string, n: nat)
    requires n <= |files| && Members(files, key, n) != []
    ensures Members(files, key, n)[0] == FirstOfGroup(files, key)
  {
    var m := Members(files, key, n);
    var f := FirstOfGroup(files, key);
    assert m[0] in m;
    if f < |files| && f < n {
      assert f in m;
    }
  }

  /** A deleted file of one of the groups in `keys`. */
  predicate DuplicateIn(files: seq<DatFile>, i: nat, keys: set<string>)
  {
    i < |files| && IsDuplicate(files, i) && DedupKey(files[i].stem).Some? && DedupKey(files[i].stem).value in keys
  }

  /** The first loop of the source: each file with a group is appended to
      that group's list (`setdefault(date_str, []).append(file)`). */
  method GroupByKey(files: seq<DatFile>) returns (byKey: map<string, seq<nat>>)
    ensures forall key :: key in byKey ==> byKey[key] == Members(files, key, |files|) && byKey[key] != []
    ensures forall key :: key !in byKey ==> Members(files, key, |files|) == []
  {
    byKey := map[];
    for i := 0 to |files|
      invariant forall key :: key in byKey ==> byKey[key] == Members(files, key, i) && byKey[key] != []
      invariant forall key :: key !in byKey ==> Members(files, key, i) == []
    {
      match DedupKey(files[i].stem)
      case None =>
      case Some(key) =>
        var group := if key in byKey then byKey[key] else [];
        byKey := byKey[key := group + [i]];
    }
  }

  /** The inner loop of the source for one group: every file after the
      first whose bytes equal the first's is deleted. Returns the deleted
      positions. */
  method DeleteCopies(files: seq<DatFile>, key: string, group: seq<nat>) returns (deleted: set<nat>)
    requires group == Members(files, key, |files|) && group != []
    ensures forall i: nat :: i in deleted <==> DuplicateIn(files, i, {key})
  {
    MembersStartWithFirst(files, key, |files|);
    var keep := group[0];
    deleted := {};
    for t := 1 to |group|
      invariant forall i: nat :: i in deleted ==> DuplicateIn(files, i, {key})
      invariant forall u :: 1 <= u < t && DuplicateIn(files, group[u], {key}) ==> group[u] in deleted
    {
      assert keep < group[t] && HasKey(files, group[t], key);
      if files[group[t]].content == files[keep].content {
        deleted := deleted + {group[t]};
      }
    }
    forall i: nat | DuplicateIn(files, i, {key}) ensures i in deleted {
      assert i in group;
      var u :| 0 <= u < |group| && group[u] == i;
      assert u != 0;
    }
  }

  /** `deduplicate_daily_files` for one directory: groups the files, then
      handles the groups one at a time, in any order. Returns the positions
      of the deleted files. */
  method DeduplicateMonth(files: seq<DatFile>) returns (removed: set<nat>)
    ensures forall i: nat :: i in removed <==> i < |files| && IsDuplicate(files, i)
  {
    var byKey := GroupByKey(files);
    removed := {};
    var pending := byKey.Keys;
    ghost var done: set<string> := {};
    while pending != {}
      invariant pending <= byKey.Keys && done == byKey.Keys - pending
      invariant forall i: nat :: i in removed <==> DuplicateIn(files, i, done)
      decreases pending
    {
      var key :| key in pending;
      var deleted := DeleteCopies(files, key, byKey[key]);
      removed := removed + deleted;
      done := done + {key};
      pending := pending - {key};
    }
    forall i: nat | i < |files| && IsDuplicate(files, i) ensures DuplicateIn(files, i, done) {
      var key := DedupKey(files[i].stem).value;
      assert i in Members(files, key, |files|);
    }
  }

  // ---------------------------------------------------------------------
  // What deduplication promises

  /** The first file of a group is the file with the key that no earlier
      file has. */
  lemma FirstOfGroupUnique(files: seq<DatFile>, key: string, r: nat)
    requires r < |files| && HasKey(files, r, key)
    requires forall j :: 0 <= j < r ==> !HasKey(files, j, key)
    ensures FirstOfGroup(files, key) == r
  {
  }

  /** No bytes are lost: every deleted file has an identical copy that
      stays, earlier in the listing and in the same group. */
  lemma DedupLosesNothing(files: seq<DatFile>, i: nat)
    requires i < |files| && IsDuplicate(files, i)
    ensures exists j :: 0 <= j < i && !IsDuplicate(files, j) &&
                        DedupKey(files[j].stem) == DedupKey(files[i].stem) && files[j].content == files[i].content
  {
    var key := DedupKey(files[i].stem).value;
    var first := FirstOfGroup(files, key);
    assert !IsDuplicate(files, first);
  }

  /** The positions, below `n`, of the files that stay, in listing order. */
  function Survivors(files: seq<DatFile>, n: nat): (s: seq<nat>)
    requires n <= |files|
    ensures forall p :: 0 <= p < |s| ==> s[p] < n && !IsDuplicate(files, s[p])
    ensures forall p, q :: 0 <= p < q < |s| ==> s[p] < s[q]
    ensures forall i :: 0 <= i < n && !IsDuplicate(files, i) ==> i in s
  {
    if n == 0 then []
    else Survivors(files, n - 1) + (if IsDuplicate(files, n - 1) then [] else [n - 1])
  }

  /** The directory after deduplication, in listing order. */
  function Kept(files: seq<DatFile>): (kept: seq<DatFile>)
    ensures var s := Survivors(files, |files|);
      |kept| == |s| && forall p :: 0 <= p < |s| ==> kept[p] == files[s[p]]
  {
    var s := Survivors(files, |files|);
    seq(|s|, p requires 0 <= p < |s| => files[s[p]])
  }

  /** Deduplicating twice deletes nothing the second time: in the files
      that stay, no file repeats the bytes of its group's first file. */
  lemma DedupIdempotent(files: seq<DatFile>)
    ensures forall p :: 0 <= p < |Kept(files)| ==> !IsDuplicate(Kept(files), p)
  {
    var s := Survivors(files, |files|);
    var kept := Kept(files);
    forall p | 0 <= p < |kept| ensures !IsDuplicate(kept, p) {
      match DedupKey(kept[p].stem)
      case None =>
      case Some(key) =>
        var first := FirstOfGroup(files, key);
        assert HasKey(files, s[p], key);
        assert first <= s[p] && HasKey(files, first, key);
        assert !IsDuplicate(files, first);
        var q :| 0 <= q < |s| && s[q] == first;
        forall j | 0 <= j < q ensures !HasKey(kept, j, key) {
          assert s[j] < first && kept[j] == files[s[j]];
          assert !HasKey(files, s[j], key);
        }
        FirstOfGroupUnique(kept, key, q);
        assert !IsDuplicate(files, s[p]);
    }
  }
}
