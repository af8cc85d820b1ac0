/**
 * File records and the byte accounting over them that the cache-expiry
 * command keeps incrementally (tracked, discovered and freed sizes).
 */
module Accounting {

  /** The tuple `(st_mtime, st_size, path)` that the scan pushes into the heap. */
  datatype Record = Record(mtime: int, size: nat, path: string)

  /** Sum of the sizes of a sequence of records, summed from the end so that appending is cheap to reason about. */
  function Total(s: seq<Record>): nat
  {
    if s == [] then 0 else Total(s[..|s| - 1]) + s[|s| - 1].size
  }

  /** The paths of a sequence of records, in order. */
  function Paths(s: seq<Record>): (r: seq<string>)
    ensures |r| == |s|
    ensures forall i :: 0 <= i < |s| ==> r[i] == s[i].path
  {
    if s == [] then [] else Paths(s[..|s| - 1]) + [s[|s| - 1].path]
  }

  /** The records sorted oldest first: modification times never decrease from one record to the next. */
  predicate OldestFirst(s: seq<Record>)
    decreases |s|
  {
    |s| <= 1 || (OldestFirst(s[..|s| - 1]) && s[|s| - 2].mtime <= s[|s| - 1].mtime)
  }

  /** Sorted oldest first means every record is at most as new as every later one. */
  lemma {:induction false} OldestFirstPairwise(s: seq<Record>, i: nat, j: nat)
    requires OldestFirst(s) && i < j < |s|
    ensures s[i].mtime <= s[j].mtime
    decreases |s|
  {
    var n := |s| - 1;
    if j < n {
      OldestFirstPairwise(s[..n], i, j);
    } else if i < n - 1 {
      OldestFirstPairwise(s[..n], i, n - 1);
    }
  }

  /** No record of `m` is older than the last record of `s`. */
  predicate NoneOlderThanLast(s: seq<Record>, m: multiset<Record>)
  {
    s == [] || forall y | y in m :: s[|s| - 1].mtime <= y.mtime
  }

  /** Sum of the sizes of a multiset of records (the abstract size of the heap's working set). */
  ghost function MSize(m: multiset<Record>): nat
    decreases |m|
  {
    if m == multiset{} then 0 else var x :| x in m; x.size + MSize(m - multiset{x})
  }

  /** Total distributes over concatenation. */
  lemma {:induction false} TotalAppend(a: seq<Record>, b: seq<Record>)
    ensures Total(a + b) == Total(a) + Total(b)
    decreases |b|
  {
    if b == [] {
      assert a + b == a;
    } else {
      var n := |b| - 1;
      assert (a + b)[..|a + b| - 1] == a + b[..n];
      TotalAppend(a, b[..n]);
    }
  }

  /** Removing any one element of the multiset takes exactly its size away: the sum does not depend on the order of removal. */
  lemma {:induction false} MSizeRemove(m: multiset<Record>, y: Record)
    requires y in m
    ensures MSize(m) == y.size + MSize(m - multiset{y})
    decreases |m|
  {
    var x :| x in m && MSize(m) == x.size + MSize(m - multiset{x});
    if x != y {
      MSizeSwap(m, x, y);
    }
  }

  /** Removing two distinct records in either order leaves the same total. */
  lemma {:induction false} MSizeSwap(m: multiset<Record>, x: Record, y: Record)
    requires x in m && y in m && x != y
    ensures x.size + MSize(m - multiset{x}) == y.size + MSize(m - multiset{y})
    decreases |m|, 0
  {
    var mx, my := m - multiset{x}, m - multiset{y};
    assert y in mx && x in my;
    MSizeRemove(mx, y);
    MSizeRemove(my, x);
    assert mx - multiset{y} == my - multiset{x};
  }


  /** Inserting a record adds its size. */
  lemma {:induction false} MSizeAdd(m: multiset<Record>, y: Record)
    ensures MSize(m + multiset{y}) == MSize(m) + y.size
  {
    MSizeRemove(m + multiset{y}, y);
    assert m + multiset{y} - multiset{y} == m;
  }

  /** A multiset of total size zero holds only empty files. */
  lemma {:induction false} MSizeZero(m: multiset<Record>)
    requires MSize(m) == 0
    ensures forall y | y in m :: y.size == 0
  {
    forall y | y in m
      ensures y.size == 0
    {
      MSizeRemove(m, y);
    }
  }

  /** The sequence sum and the multiset sum agree. */
  lemma {:induction false} TotalIsMSize(s: seq<Record>)
    ensures Total(s) == MSize(multiset(s))
    decreases |s|
  {
    if s != [] {
      var n := |s| - 1;
      assert s == s[..n] + [s[n]];
      TotalIsMSize(s[..n]);
      MSizeAdd(multiset(s[..n]), s[n]);
    }
  }
}
