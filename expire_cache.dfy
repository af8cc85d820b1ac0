/**
 * The ensure-free eviction engine of the `expire-cache` command: a scan that
 * keeps at most `excess` bytes of the oldest files in a min-max heap, followed
 * by a drain that deletes the tracked files oldest first.
 */
module ExpireCache {
  import opened Wrappers
  import opened Accounting
  import opened MinMaxHeaps

  /** The two fields of `entry.stat()` that the command reads. */
  datatype Stat = Stat(mtime: int, size: nat)

  /** One file yielded by the directory walk; `stat` is None when `entry.stat()` raised FileNotFoundError. */
  datatype Entry = Entry(path: string, stat: Option<Stat>)

  /** The records of the entries whose stat succeeded, in stream order. */
  function Discovered(entries: seq<Entry>): seq<Record>
  {
    if entries == [] then []
    else Discovered(entries[..|entries| - 1]) + Found(entries[|entries| - 1])
  }

  /** The record one entry contributes: none when its stat failed. */
  function Found(e: Entry): seq<Record>
  {
    match e.stat
    case None => []
    case Some(st) => [Record(st.mtime, st.size, e.path)]
  }

  /** Taking one more entry of the stream adds that entry's record, if any. */
  lemma {:induction false} DiscoveredNext(entries: seq<Entry>, k: nat)
    requires k < |entries|
    ensures Discovered(entries[..k + 1]) == Discovered(entries[..k]) + Found(entries[k])
  {
    assert entries[..k + 1][..k] == entries[..k];
  }

  /**
   * One drop of the scan's trimming, stated against the records `seen` so far
   * and the records dropped `before` it: the tracked data exceeded the budget,
   * the dropped record `d` was still tracked, and no tracked record was newer.
   */
  ghost predicate DropOk(seen: seq<Record>, before: seq<Record>, d: Record, excess: nat)
  {
    && multiset(before) + multiset{d} <= multiset(seen)
    && Total(seen) - Total(before) > excess
    && forall x {:trigger Tracked(seen, before, x)} :: Tracked(seen, before, x) ==> x.mtime <= d.mtime
  }

  /** Record x was still tracked once the records `seen` had been found and the records `before` dropped. */
  ghost predicate Tracked(seen: seq<Record>, before: seq<Record>, x: Record)
  {
    x in multiset(seen) - multiset(before)
  }

  /**
   * The log of the scan's drops: the i-th record dropped by `popmax` was dropped
   * when the first `at[i]` records had been found, and that drop was a `DropOk`
   * one. Defined drop by drop, from the latest.
   */
  ghost predicate DropLog(found: seq<Record>, dropped: seq<Record>, at: seq<nat>, excess: nat)
    decreases |at|
  {
    if at == [] then dropped == []
    else
      var n := |at| - 1;
      && |dropped| == |at|
      && at[n] <= |found|
      && DropOk(found[..at[n]], dropped[..n], dropped[n], excess)
      && DropLog(found, dropped[..n], at[..n], excess)
  }

  /** The log read drop by drop: every logged drop is a `DropOk` one. */
  lemma {:induction false} DropLogAt(found: seq<Record>, dropped: seq<Record>, at: seq<nat>, excess: nat, i: nat)
    requires DropLog(found, dropped, at, excess) && i < |at|
    ensures |dropped| == |at| && at[i] <= |found|
    ensures DropOk(found[..at[i]], dropped[..i], dropped[i], excess)
    decreases |at|
  {
    var n := |at| - 1;
    if i < n {
      DropLogAt(found, dropped[..n], at[..n], excess, i);
      assert dropped[..n][..i] == dropped[..i];
    }
  }

  /** Finding another record leaves the log of earlier drops true. */
  lemma {:induction false} DropLogFind(found: seq<Record>, r: Record, dropped: seq<Record>, at: seq<nat>, excess: nat)
    requires DropLog(found, dropped, at, excess)
    ensures DropLog(found + [r], dropped, at, excess)
    decreases |at|
  {
    if at != [] {
      var n := |at| - 1;
      DropLogFind(found, r, dropped[..n], at[..n], excess);
      assert (found + [r])[..at[n]] == found[..at[n]];
    }
  }

  /** A `popmax` taken while over budget extends the log. */
  lemma {:induction false} DropLogPush(found: seq<Record>, dropped: seq<Record>, at: seq<nat>, excess: nat, d: Record)
    requires DropLog(found, dropped, at, excess)
    requires DropOk(found, dropped, d, excess)
    ensures DropLog(found, dropped + [d], at + [|found|], excess)
  {
    var dropped', at' := dropped + [d], at + [|found|];
    assert dropped'[..|dropped|] == dropped && at'[..|at|] == at;
    assert found[..|found|] == found;
  }

  /**
   * The drops were logged in time order, none later than `now` records had been
   * found: each trim runs right after the entry before it.
   */
  ghost predicate InOrder(at: seq<nat>, now: nat)
  {
    && (forall i | 0 <= i < |at| :: at[i] <= now)
    && (forall i, j | 0 <= i < j < |at| :: at[i] <= at[j])
  }

  /** The number of drops logged by the time `t` records had been found. */
  function DropsBy(at: seq<nat>, t: nat): (n: nat)
    ensures n <= |at|
    decreases |at|
  {
    if at == [] then 0 else DropsBy(at[..|at| - 1], t) + (if at[|at| - 1] <= t then 1 else 0)
  }

  /**
   * After each of the first `upto` prefixes of the found records, once the trim
   * that followed was over, at most `excess` bytes of them were still tracked.
   */
  ghost predicate Settled(found: seq<Record>, dropped: seq<Record>, at: seq<nat>, excess: nat, upto: nat)
  {
    && |dropped| == |at|
    && forall t | 0 <= t < upto && t <= |found| :: Total(found[..t]) <= Total(dropped[..DropsBy(at, t)]) + excess
  }

  /** A drop logged at a later time does not count among the drops by time `t`. */
  lemma {:induction false} DropsByLater(at: seq<nat>, t: nat, x: nat)
    requires t < x
    ensures DropsBy(at + [x], t) == DropsBy(at, t)
  {
    assert (at + [x])[..|at|] == at;
  }

  /** Once every drop is logged by time `t`, all of them count. */
  lemma {:induction false} DropsByAll(at: seq<nat>, t: nat)
    requires forall i | 0 <= i < |at| :: at[i] <= t
    ensures DropsBy(at, t) == |at|
    decreases |at|
  {
    if at != [] {
      DropsByAll(at[..|at| - 1], t);
    }
  }

  /** In a log kept in time order, some drop by time `t` means the first drop was by time `t`. */
  lemma {:induction false} DropsByFirst(at: seq<nat>, t: nat, now: nat)
    requires InOrder(at, now) && DropsBy(at, t) > 0
    ensures at[0] <= t
    decreases |at|
  {
    var n := |at| - 1;
    if at[n] > t {
      assert InOrder(at[..n], now);
      DropsByFirst(at[..n], t, now);
    }
  }

  /** Finding another record leaves the earlier prefixes settled. */
  lemma {:induction false} SettledFind(found: seq<Record>, r: Record, dropped: seq<Record>, at: seq<nat>, excess: nat)
    requires Settled(found, dropped, at, excess, |found| + 1)
    ensures Settled(found + [r], dropped, at, excess, |found| + 1)
  {
    forall t | 0 <= t < |found| + 1 && t <= |found + [r]|
      ensures Total((found + [r])[..t]) <= Total(dropped[..DropsBy(at, t)]) + excess
    {
      assert (found + [r])[..t] == found[..t];
    }
  }

  /** A drop logged now leaves the earlier prefixes settled and the log in time order. */
  lemma {:induction false} SettledPush(found: seq<Record>, dropped: seq<Record>, at: seq<nat>, excess: nat, d: Record)
    requires Settled(found, dropped, at, excess, |found|) && InOrder(at, |found|)
    ensures Settled(found, dropped + [d], at + [|found|], excess, |found|)
    ensures InOrder(at + [|found|], |found|)
  {
    forall t | 0 <= t < |found| && t <= |found|
      ensures Total(found[..t]) <= Total((dropped + [d])[..DropsBy(at + [|found|], t)]) + excess
    {
      DropsByLater(at, t, |found|);
      assert (dropped + [d])[..DropsBy(at, t)] == dropped[..DropsBy(at, t)];
    }
  }

  /** Once the trim is over, the whole prefix found so far is settled too. */
  lemma {:induction false} SettledClose(found: seq<Record>, dropped: seq<Record>, at: seq<nat>, excess: nat)
    requires Settled(found, dropped, at, excess, |found|) && InOrder(at, |found|)
    requires Total(found) <= Total(dropped) + excess
    ensures Settled(found, dropped, at, excess, |found| + 1)
  {
    DropsByAll(at, |found|);
    assert found[..|found|] == found && dropped[..|at|] == dropped;
  }

  /**
   * The scan's accounting once the records `found` have been found and the
   * records `dropped` dropped: `size` is the total size of the `tracked`
   * records, which are exactly the found ones not dropped, and the log of
   * drops holds.
   */
  ghost predicate Accounted(found: seq<Record>, tracked: multiset<Record>, size: nat,
                            dropped: seq<Record>, at: seq<nat>, excess: nat)
  {
    && size == MSize(tracked)
    && Total(found) == size + Total(dropped)
    && tracked + multiset(dropped) == multiset(found)
    && DropLog(found, dropped, at, excess)
  }

  /** Inserting a found record keeps the accounting. */
  lemma {:induction false} FindStep(found: seq<Record>, tracked: multiset<Record>, size: nat,
                 dropped: seq<Record>, at: seq<nat>, excess: nat, r: Record)
    requires Accounted(found, tracked, size, dropped, at, excess)
    ensures Accounted(found + [r], tracked + multiset{r}, size + r.size, dropped, at, excess)
  {
    MSizeAdd(tracked, r);
    TotalAppend(found, [r]);
    DropLogFind(found, r, dropped, at, excess);
  }

  /** A `popmax` of a newest tracked record while over budget is a `DropOk` one. */
  lemma {:induction false} DropIsOk(found: seq<Record>, tracked: multiset<Record>, size: nat, dropped: seq<Record>, excess: nat, d: Record)
    requires Total(found) == size + Total(dropped) && size > excess
    requires tracked + multiset(dropped) == multiset(found)
    requires d in tracked && forall x | x in tracked :: x.mtime <= d.mtime
    ensures DropOk(found, dropped, d, excess)
  {
    assert tracked == multiset(found) - multiset(dropped);
    forall x | Tracked(found, dropped, x)
      ensures x.mtime <= d.mtime
    {
    }
  }

  /** Dropping a newest tracked record while over budget keeps the accounting and extends the log. */
  lemma {:induction false} DropStep(found: seq<Record>, tracked: multiset<Record>, size: nat,
                 dropped: seq<Record>, at: seq<nat>, excess: nat, d: Record)
    requires Accounted(found, tracked, size, dropped, at, excess) && size > excess
    requires d in tracked && forall x | x in tracked :: x.mtime <= d.mtime
    ensures size >= d.size
    ensures Accounted(found, tracked - multiset{d}, size - d.size, dropped + [d], at + [|found|], excess)
  {
    MSizeRemove(tracked, d);
    TotalAppend(dropped, [d]);
    assert multiset(dropped + [d]) == multiset(dropped) + multiset{d};
    DropIsOk(found, tracked, size, dropped, excess, d);
    DropLogPush(found, dropped, at, excess, d);
  }

  /**
   * The scan (lines 60-75): every record whose stat succeeds is inserted, and
   * after each entry the working set is trimmed back to at most `excess` bytes.
   */
  method Scan(heap: MinMaxHeap, excess: nat, entries: seq<Entry>)
    returns (tracked: nat, discovered: nat, dropped: seq<Record>, ghost at: seq<nat>)
    requires heap.Contents() == multiset{}
    requires excess > 0
    modifies heap
    ensures Accounted(Discovered(entries), heap.Contents(), tracked, dropped, at, excess)
    ensures tracked <= excess && discovered == Total(Discovered(entries))
    ensures InOrder(at, |Discovered(entries)|)
    ensures Settled(Discovered(entries), dropped, at, excess, |Discovered(entries)| + 1)
  {
    ghost var found: seq<Record> := [];
    tracked, discovered, dropped, at := 0, 0, [], [];
    for k := 0 to |entries|
      invariant found == Discovered(entries[..k])
      invariant Accounted(found, heap.Contents(), tracked, dropped, at, excess)
      invariant tracked <= excess && discovered == Total(found)
      invariant InOrder(at, |found|) && Settled(found, dropped, at, excess, |found| + 1)
    {
      DiscoveredNext(entries, k);
      var e := entries[k];
      match e.stat {
        case None =>
        case Some(st) =>
          var r := Record(st.mtime, st.size, e.path);
          FindStep(found, heap.Contents(), tracked, dropped, at, excess, r);
          SettledFind(found, r, dropped, at, excess);
          TotalAppend(found, [r]);
          heap.Insert(r);
          tracked, discovered := tracked + r.size, discovered + r.size;
          found := found + [r];
      }
      tracked, dropped, at := Trim(heap, excess, found, tracked, dropped, at);
    }
    assert entries[..|entries|] == entries;
  }

  /** The trim's state: the scan's accounting, and the log in time order and settled up to the current record. */
  ghost predicate Trimming(found: seq<Record>, tracked: multiset<Record>, size: nat,
                           dropped: seq<Record>, at: seq<nat>, excess: nat)
  {
    && Accounted(found, tracked, size, dropped, at, excess)
    && InOrder(at, |found|) && Settled(found, dropped, at, excess, |found|)
  }

  /** The log `dropped`, `at` keeps the earlier log `dropped0`, `at0` and adds only drops logged at time `now`. */
  ghost predicate Extends(dropped0: seq<Record>, at0: seq<nat>, dropped: seq<Record>, at: seq<nat>, now: nat)
  {
    && |dropped0| <= |dropped| && dropped[..|dropped0|] == dropped0
    && |at0| <= |at| && at[..|at0|] == at0
    && forall i | |at0| <= i < |at| :: at[i] == now
  }

  /** One `popmax` of the trim, taken while over budget, and what it does to the trim's state. */
  lemma {:induction false} TrimStep(found: seq<Record>, tracked: multiset<Record>, size: nat,
                                    dropped: seq<Record>, at: seq<nat>, excess: nat, d: Record,
                                    dropped0: seq<Record>, at0: seq<nat>, orig: multiset<Record>)
    requires Trimming(found, tracked, size, dropped, at, excess) && size > excess
    requires d in tracked && forall x | x in tracked :: x.mtime <= d.mtime
    requires Extends(dropped0, at0, dropped, at, |found|)
    requires tracked + multiset(dropped[|dropped0|..]) == orig
    ensures size >= d.size
    ensures Trimming(found, tracked - multiset{d}, size - d.size, dropped + [d], at + [|found|], excess)
    ensures Extends(dropped0, at0, dropped + [d], at + [|found|], |found|)
    ensures (tracked - multiset{d}) + multiset((dropped + [d])[|dropped0|..]) == orig
  {
    DropStep(found, tracked, size, dropped, at, excess, d);
    SettledPush(found, dropped, at, excess, d);
    ExtendsPush(dropped0, at0, dropped, at, |found|, d);
  }

  /** Logging one more drop at time `now` keeps the earlier log and adds the drop to the new part. */
  lemma {:induction false} ExtendsPush(dropped0: seq<Record>, at0: seq<nat>, dropped: seq<Record>, at: seq<nat>, now: nat, d: Record)
    requires Extends(dropped0, at0, dropped, at, now)
    ensures Extends(dropped0, at0, dropped + [d], at + [now], now)
    ensures (dropped + [d])[|dropped0|..] == dropped[|dropped0|..] + [d]
  {
    assert (dropped + [d])[..|dropped0|] == dropped[..|dropped0|];
    assert (at + [now])[..|at0|] == at[..|at0|];
  }

  /**
   * The trimming loop (lines 72-75): while more than `excess` bytes are tracked,
   * the newest tracked record is dropped from the heap and left on disk. Earlier
   * drops stay as they were, and every new one is logged at the current time.
   * Since `excess > 0`, the heap is never empty when `popmax` is called.
   */
  method Trim(heap: MinMaxHeap, excess: nat, ghost found: seq<Record>, tracked0: nat, dropped0: seq<Record>, ghost at0: seq<nat>)
    returns (tracked: nat, dropped: seq<Record>, ghost at: seq<nat>)
    requires Accounted(found, heap.Contents(), tracked0, dropped0, at0, excess)
    requires InOrder(at0, |found|) && Settled(found, dropped0, at0, excess, |found|)
    modifies heap
    ensures Accounted(found, heap.Contents(), tracked, dropped, at, excess)
    ensures tracked <= excess
    ensures InOrder(at, |found|) && Settled(found, dropped, at, excess, |found| + 1)
    ensures |dropped0| <= |dropped| && dropped[..|dropped0|] == dropped0
    ensures |at0| <= |at| && at[..|at0|] == at0 && forall i | |at0| <= i < |at| :: at[i] == |found|
    ensures heap.Contents() + multiset(dropped[|dropped0|..]) == old(heap.Contents())
  {
    tracked, dropped, at := tracked0, dropped0, at0;
    ghost var orig := heap.Contents();
    assert dropped[|dropped0|..] == [];
    while tracked > excess
      invariant Trimming(found, heap.Contents(), tracked, dropped, at, excess)
      invariant Extends(dropped0, at0, dropped, at, |found|)
      invariant heap.Contents() + multiset(dropped[|dropped0|..]) == orig
      decreases |heap.Contents()|
    {
      ghost var before := heap.Contents();
      var top := heap.PopMax();
      match top {
        case None =>
          assert false;
        case Some(d) =>
          TrimStep(found, before, tracked, dropped, at, excess, d, dropped0, at0, orig);
          tracked := tracked - d.size;
          ghost var seen: nat := |found|;
          dropped, at := dropped + [d], at + [seen];
      }
    }
    SettledClose(found, dropped, at, excess);
  }

  /**
   * The drain's accounting after the records `deleted` were popped from the
   * `orig` working set, leaving `rest`: counters and freed bytes match the
   * popped records, and they were popped oldest first.
   */
  ghost predicate Draining(orig: multiset<Record>, deleted: seq<Record>, rest: multiset<Record>,
                           freedSize: nat, freed: nat, tracked: nat)
  {
    && multiset(deleted) + rest == orig
    && freedSize == Total(deleted) && freed == |deleted|
    && freedSize + MSize(rest) == tracked
    && OldestFirst(deleted) && NoneOlderThanLast(deleted, rest)
  }

  /** Popping an oldest record keeps the drain's accounting. */
  lemma {:induction false} DrainStep(orig: multiset<Record>, deleted: seq<Record>, rest: multiset<Record>,
                  freedSize: nat, freed: nat, tracked: nat, x: Record)
    requires Draining(orig, deleted, rest, freedSize, freed, tracked)
    requires x in rest && forall y | y in rest :: x.mtime <= y.mtime
    ensures Draining(orig, deleted + [x], rest - multiset{x}, freedSize + x.size, freed + 1, tracked)
  {
    MSizeRemove(rest, x);
    TotalAppend(deleted, [x]);
    assert multiset(deleted + [x]) == multiset(deleted) + multiset{x};
    assert (deleted + [x])[..|deleted|] == deleted;
  }

  /**
   * When the drain stops with at most `excess` bytes tracked, it has freed all
   * of them, and whatever it left in the heap is empty files.
   */
  lemma {:induction false} DrainDone(orig: multiset<Record>, deleted: seq<Record>, rest: multiset<Record>,
                  freedSize: nat, freed: nat, tracked: nat, excess: nat)
    requires Draining(orig, deleted, rest, freedSize, freed, tracked) && tracked <= excess
    requires freedSize >= excess || rest == multiset{}
    ensures freedSize == tracked
    ensures forall y | y in rest :: y.size == 0
  {
    MSizeZero(rest);
  }

  /**
   * The drain (lines 79-89): tracked records are popped oldest first and deleted
   * until `excess` bytes are freed or the heap is empty. `dryRun` only decides
   * whether a popped file's path is passed to `unlink`.
   */
  /**
   * The drain pops only while less than `excess` is freed: before each deleted
   * record, the records deleted ahead of it sum to less than `excess`.
   */
  ghost predicate StopsAtExcess(deleted: seq<Record>, excess: nat)
  {
    forall i | 0 <= i < |deleted| :: Total(deleted[..i]) < excess
  }

  /** Popping one more record while less than `excess` is freed keeps `StopsAtExcess`. */
  lemma {:induction false} StopsAtExcessPush(deleted: seq<Record>, x: Record, excess: nat)
    requires StopsAtExcess(deleted, excess) && Total(deleted) < excess
    ensures StopsAtExcess(deleted + [x], excess)
  {
    forall i | 0 <= i < |deleted + [x]|
      ensures Total((deleted + [x])[..i]) < excess
    {
      if i == |deleted| {
        assert (deleted + [x])[..i] == deleted;
      } else {
        assert (deleted + [x])[..i] == deleted[..i];
      }
    }
  }

  /** No drain pops past the excess: after a 50-byte file frees all 50 bytes, the empty newer file stays. */
  lemma {:induction false} StopsAtFirstPop()
    ensures !StopsAtExcess([Record(1, 50, "a"), Record(2, 0, "z")], 50)
  {
    var deleted := [Record(1, 50, "a"), Record(2, 0, "z")];
    assert deleted[..1] == [deleted[0]] && deleted[..1][..0] == [];
    assert Total(deleted[..1]) == 50;
  }

  method Drain(heap: MinMaxHeap, excess: nat, tracked: nat, dryRun: bool)
    returns (freedSize: nat, freed: nat, deleted: seq<Record>, unlinked: seq<string>)
    requires tracked == MSize(heap.Contents()) && tracked <= excess
    modifies heap
    ensures Draining(old(heap.Contents()), deleted, heap.Contents(), freedSize, freed, tracked)
    ensures freedSize >= excess || heap.Contents() == multiset{}
    ensures freedSize == tracked && forall y | y in heap.Contents() :: y.size == 0
    ensures unlinked == if dryRun then [] else Paths(deleted)
    ensures StopsAtExcess(deleted, excess)
  {
    ghost var orig := heap.Contents();
    freedSize, freed, deleted, unlinked := 0, 0, [], [];
    while freedSize < excess && heap.Len() > 0
      invariant Draining(orig, deleted, heap.Contents(), freedSize, freed, tracked)
      invariant unlinked == if dryRun then [] else Paths(deleted)
      invariant StopsAtExcess(deleted, excess)
      decreases |heap.Contents()|
    {
      ghost var before := heap.Contents();
      var bottom := heap.PopMin();
      match bottom {
        case None =>
          assert false;
        case Some(x) =>
          DrainStep(orig, deleted, before, freedSize, freed, tracked, x);
          if !dryRun {
            unlinked := unlinked + [x.path];
          }
          freedSize, freed := freedSize + x.size, freed + 1;
          StopsAtExcessPush(deleted, x, excess);
          deleted := deleted + [x];
      }
    }
    DrainDone(orig, deleted, heap.Contents(), freedSize, freed, tracked, excess);
  }

  /** How the scan's and the drain's accounting combine over the discovered records `found`. */
  lemma {:induction false} Phases(found: seq<Record>, scanned: multiset<Record>, tracked: nat, dropped: seq<Record>, at: seq<nat>,
               excess: nat, deleted: seq<Record>, rest: multiset<Record>, freedSize: nat, freed: nat)
    requires Accounted(found, scanned, tracked, dropped, at, excess)
    requires Draining(scanned, deleted, rest, freedSize, freed, tracked)
    requires freedSize >= excess || rest == multiset{}
    ensures |scanned| + |dropped| == |found|
    ensures rest == multiset(found) - multiset(dropped) - multiset(deleted)
    ensures multiset(deleted) + multiset(dropped) <= multiset(found)
    ensures freedSize >= excess || multiset(deleted) + multiset(dropped) == multiset(found)
  {
    assert |multiset(found)| == |found|;
  }

  /** What the command reports, or that it returned early because enough space was free. */
  datatype Summary =
    | NothingToDo
    | Expired(
        discoveredSize: nat,   // bytes found by the scan
        trackedCount: nat,     // `len(heap)` once the scan is over
        trackedSize: nat,      // bytes tracked once the scan is over
        dropped: seq<Record>,  // records discarded by `popmax`, in order; left on disk
        freedSize: nat,        // bytes freed by the drain
        freed: nat,            // files freed by the drain
        deleted: seq<Record>,  // records popped by the drain, in order
        unlinked: seq<string>) // paths passed to `unlink`, in order

  /**
   * `expire_cache` with `free` bytes free on the filesystem and the walk's
   * entries as input. The early exit, the scan and the drain are modelled;
   * `at` is the ghost log of when each drop happened.
   */
  method ExpireCache(free: nat, ensureFree: nat, entries: seq<Entry>, dryRun: bool)
    returns (s: Summary, ghost at: seq<nat>)
    ensures s.NothingToDo? <==> ensureFree <= free
    ensures s.Expired? ==> s.discoveredSize == Total(Discovered(entries))
    ensures s.Expired? ==> s.trackedSize <= ensureFree - free
    ensures s.Expired? ==> s.trackedCount + |s.dropped| == |Discovered(entries)|
    ensures s.Expired? ==> s.discoveredSize == s.trackedSize + Total(s.dropped)
    ensures s.Expired? ==> DropLog(Discovered(entries), s.dropped, at, ensureFree - free)
    ensures s.Expired? ==> InOrder(at, |Discovered(entries)|)
    ensures s.Expired? ==> Settled(Discovered(entries), s.dropped, at, ensureFree - free, |Discovered(entries)| + 1)
    ensures s.Expired? ==> s.freedSize == Total(s.deleted) == s.trackedSize && s.freed == |s.deleted|
    ensures s.Expired? ==> s.freedSize <= ensureFree - free
    ensures s.Expired? ==> multiset(s.deleted) + multiset(s.dropped) <= multiset(Discovered(entries))
    ensures s.Expired? ==> s.freedSize >= ensureFree - free ||
                           multiset(s.deleted) + multiset(s.dropped) == multiset(Discovered(entries))
    ensures s.Expired? ==> OldestFirst(s.deleted)
    ensures s.Expired? ==> forall x | x in multiset(Discovered(entries)) - multiset(s.dropped) - multiset(s.deleted) :: x.size == 0
    ensures s.Expired? ==> NoneOlderThanLast(s.deleted, multiset(Discovered(entries)) - multiset(s.dropped) - multiset(s.deleted))
    ensures s.Expired? ==> s.unlinked == if dryRun then [] else Paths(s.deleted)
    ensures s.Expired? ==> StopsAtExcess(s.deleted, ensureFree - free)
  {
    if ensureFree <= free {
      return NothingToDo, [];
    }
    var excess: nat := ensureFree - free;
    var heap := new MinMaxHeap();
    var tracked, discovered, dropped;
    tracked, discovered, dropped, at := Scan(heap, excess, entries);
    var trackedCount := heap.Len();
    ghost var scanned := heap.Contents();
    var freedSize, freed, deleted, unlinked := Drain(heap, excess, tracked, dryRun);
    Phases(Discovered(entries), scanned, tracked, dropped, at, excess, deleted, heap.Contents(), freedSize, freed);
    s := Expired(discovered, trackedCount, tracked, dropped, freedSize, freed, deleted, unlinked);
  }

  /** The file stream of the under-delivery example: an "old" and a "new" file of 30 bytes each. */
  function ExampleEntries(): seq<Entry>
  {
    [Entry("old", Some(Stat(1, 30))), Entry("new", Some(Stat(2, 30)))]
  }

  /** The example stream yields one record per file, in order. */
  lemma {:induction false} ExampleDiscovered()
    ensures Discovered(ExampleEntries()) == [Record(1, 30, "old"), Record(2, 30, "new")]
  {
    var entries := ExampleEntries();
    assert entries[..1] == [entries[0]] && entries[..1][..0] == [];
    assert entries[..|entries| - 1] == entries[..1];
    assert Discovered(entries[..1]) == [Record(1, 30, "old")];
  }

  /** The running totals of the example's records. */
  lemma {:induction false} ExampleTotals(k: nat)
    requires k <= 2
    ensures Total([Record(1, 30, "old"), Record(2, 30, "new")][..k]) == 30 * k
  {
    var found := [Record(1, 30, "old"), Record(2, 30, "new")];
    assert found[..0] == [] && found[..1] == [found[0]] && found[..2] == found;
    assert found[..2][..1] == found[..1] && found[..1][..0] == [];
    assert Total(found[..1]) == 30;
  }

  /** The first drop of the example can only happen once both files are found, and it drops the "new" one. */
  lemma {:induction false} ExampleFirstDrop(k: nat, d: Record)
    requires k <= 2
    requires DropOk([Record(1, 30, "old"), Record(2, 30, "new")][..k], [], d, 50)
    ensures k == 2 && d == Record(2, 30, "new")
  {
    var found := [Record(1, 30, "old"), Record(2, 30, "new")];
    ExampleTotals(k);
    assert found[..2] == found;
    assert Tracked(found, [], found[1]);
    assert d in multiset(found);
  }

  /** After the "new" file is dropped, the example is never over budget again. */
  lemma {:induction false} ExampleNoSecondDrop(k: nat, d: Record)
    requires k <= 2
    ensures !DropOk([Record(1, 30, "old"), Record(2, 30, "new")][..k], [Record(2, 30, "new")], d, 50)
  {
    ExampleTotals(k);
    assert Total([Record(2, 30, "new")]) == 30 by {
      assert [Record(2, 30, "new")][..0] == [];
    }
  }

  /**
   * With 50 bytes to reclaim from the example stream, the only drop the trim
   * can log is the "new" file: both files together exceed the budget, one
   * file alone does not.
   */
  lemma {:induction false} ExampleDrops(dropped: seq<Record>, at: seq<nat>, tracked: nat)
    requires DropLog([Record(1, 30, "old"), Record(2, 30, "new")], dropped, at, 50)
    requires 60 == tracked + Total(dropped) && tracked <= 50
    ensures dropped == [Record(2, 30, "new")]
  {
    var found := [Record(1, 30, "old"), Record(2, 30, "new")];
    assert dropped != [];
    DropLogAt(found, dropped, at, 50, 0);
    assert dropped[..0] == [];
    ExampleFirstDrop(at[0], dropped[0]);
    if |dropped| > 1 {
      DropLogAt(found, dropped, at, 50, 1);
      assert dropped[..1] == [dropped[0]];
      ExampleNoSecondDrop(at[1], dropped[1]);
      assert false;
    }
    assert dropped == [dropped[0]];
  }

  /** A sequence holding exactly one record is that record alone. */
  lemma {:induction false} OnlyRecord(s: seq<Record>, x: Record)
    requires multiset(s) + multiset{Record(2, 30, "new")} == multiset{x, Record(2, 30, "new")}
    ensures s == [x]
  {
    assert multiset(s) == multiset{x};
    assert |s| == 1 && s[0] in multiset(s);
  }

  /** What the scan of the example leaves: both files found, the newer one dropped. */
  lemma {:induction false} ExampleScanned(s: Summary, at: seq<nat>)
    requires s.Expired?
    requires s.discoveredSize == Total(Discovered(ExampleEntries()))
    requires s.trackedCount + |s.dropped| == |Discovered(ExampleEntries())|
    requires s.trackedSize <= 50 && s.discoveredSize == s.trackedSize + Total(s.dropped)
    requires DropLog(Discovered(ExampleEntries()), s.dropped, at, 50)
    ensures s.discoveredSize == 60 && s.trackedCount == 1 && s.trackedSize == 30
    ensures s.dropped == [Record(2, 30, "new")]
  {
    ExampleDiscovered();
    ExampleTotals(2);
    assert [Record(1, 30, "old"), Record(2, 30, "new")][..2] == [Record(1, 30, "old"), Record(2, 30, "new")];
    ExampleDrops(s.dropped, at, s.trackedSize);
    assert Total([Record(2, 30, "new")]) == 30 by {
      assert [Record(2, 30, "new")][..0] == [];
    }
  }

  /** What the drain of the example leaves: the older file deleted, 30 bytes freed. */
  lemma {:induction false} ExampleDrained(s: Summary)
    requires s.Expired? && s.trackedSize == 30 && s.dropped == [Record(2, 30, "new")]
    requires s.freedSize == Total(s.deleted) == s.trackedSize && s.freed == |s.deleted|
    requires s.freedSize >= 50 ||
             multiset(s.deleted) + multiset(s.dropped) == multiset(Discovered(ExampleEntries()))
    requires s.unlinked == Paths(s.deleted)
    ensures s.deleted == [Record(1, 30, "old")]
    ensures s.freedSize == 30 && s.freed == 1 && s.unlinked == ["old"]
  {
    var o, n := Record(1, 30, "old"), Record(2, 30, "new");
    ExampleDiscovered();
    assert multiset(s.deleted) + multiset{n} == multiset{o, n};
    OnlyRecord(s.deleted, o);
    assert |Paths(s.deleted)| == 1 && Paths(s.deleted)[0] == "old";
  }

  /**
   * The under-delivery of the drain (lines 73-75 and 82): when 50 bytes must be
   * reclaimed from the example stream (60 bytes), every outcome `ExpireCache`
   * guarantees is the same one: the trim has already dropped the "new" file,
   * so the drain deletes only the "old" one and frees 30 bytes, less than asked.
   */
  lemma {:induction false} UnderDelivery(s: Summary, at: seq<nat>)
    requires s.NothingToDo? <==> 50 <= 0
    requires s.Expired? ==> s.discoveredSize == Total(Discovered(ExampleEntries()))
    requires s.Expired? ==> s.trackedCount + |s.dropped| == |Discovered(ExampleEntries())|
    requires s.Expired? ==> s.trackedSize <= 50 && s.discoveredSize == s.trackedSize + Total(s.dropped)
    requires s.Expired? ==> DropLog(Discovered(ExampleEntries()), s.dropped, at, 50)
    requires s.Expired? ==> s.freedSize == Total(s.deleted) == s.trackedSize && s.freed == |s.deleted|
    requires s.Expired? ==> (s.freedSize >= 50 ||
             multiset(s.deleted) + multiset(s.dropped) == multiset(Discovered(ExampleEntries())))
    requires s.Expired? ==> s.unlinked == Paths(s.deleted)
    ensures s == Expired(60, 1, 30, [Record(2, 30, "new")], 30, 1, [Record(1, 30, "old")], ["old"])
    ensures s.freedSize < 50
  {
    ExampleScanned(s, at);
    ExampleDrained(s);
  }

  /** The file stream of the eager-trim example: a large old file then a small new one. */
  function EagerEntries(): seq<Entry>
  {
    [Entry("a", Some(Stat(2, 60))), Entry("b", Some(Stat(3, 10)))]
  }

  /** The eager-trim stream yields one record per file, in order. */
  lemma {:induction false} EagerDiscovered()
    ensures Discovered(EagerEntries()) == [Record(2, 60, "a"), Record(3, 10, "b")]
  {
    var entries := EagerEntries();
    assert entries[..1] == [entries[0]] && entries[..1][..0] == [];
    assert entries[..|entries| - 1] == entries[..1];
    assert Discovered(entries[..1]) == [Record(2, 60, "a")];
  }

  /** The running totals of the eager-trim records. */
  lemma {:induction false} EagerTotals(k: nat)
    requires k <= 2
    ensures Total([Record(2, 60, "a"), Record(3, 10, "b")][..k]) == [0, 60, 70][k]
  {
    var found := [Record(2, 60, "a"), Record(3, 10, "b")];
    assert found[..0] == [] && found[..1] == [found[0]] && found[..2] == found;
    assert found[..2][..1] == found[..1] && found[..1][..0] == [];
    assert Total(found[..1]) == 60;
  }

  /**
   * With 50 bytes to reclaim, the trim after the first file must already drop
   * it (60 bytes are over budget), and after that the 10 bytes of the second
   * file never are: the only log the scan can leave is "a", dropped at once.
   */
  lemma {:induction false} EagerDrops(dropped: seq<Record>, at: seq<nat>)
    requires DropLog([Record(2, 60, "a"), Record(3, 10, "b")], dropped, at, 50)
    requires InOrder(at, 2) && Settled([Record(2, 60, "a"), Record(3, 10, "b")], dropped, at, 50, 3)
    ensures dropped == [Record(2, 60, "a")] && at == [1]
  {
    var found := [Record(2, 60, "a"), Record(3, 10, "b")];
    EagerTotals(1);
    assert Total(found[..1]) <= Total(dropped[..DropsBy(at, 1)]) + 50;
    assert DropsBy(at, 1) > 0 by {
      if DropsBy(at, 1) == 0 {
        assert dropped[..0] == [];
      }
    }
    DropsByFirst(at, 1, 2);
    DropLogAt(found, dropped, at, 50, 0);
    assert dropped[..0] == [];
    EagerTotals(at[0]);
    assert at[0] == 1;
    assert found[..1] == [found[0]];
    assert dropped[0] in multiset(found[..1]);
    if |dropped| > 1 {
      DropLogAt(found, dropped, at, 50, 1);
      assert dropped[..1] == [dropped[0]];
      EagerTotals(at[1]);
      assert false;
    }
    assert dropped == [dropped[0]] && at == [at[0]];
  }

  /** What the scan of the eager-trim stream leaves: "a" dropped at once, 10 bytes of "b" tracked. */
  lemma {:induction false} EagerScanned(s: Summary, at: seq<nat>)
    requires s.Expired?
    requires s.discoveredSize == Total(Discovered(EagerEntries()))
    requires s.discoveredSize == s.trackedSize + Total(s.dropped)
    requires DropLog(Discovered(EagerEntries()), s.dropped, at, 50)
    requires InOrder(at, |Discovered(EagerEntries())|)
    requires Settled(Discovered(EagerEntries()), s.dropped, at, 50, |Discovered(EagerEntries())| + 1)
    ensures s.dropped == [Record(2, 60, "a")] && at == [1] && s.trackedSize == 10
  {
    EagerDiscovered();
    EagerDrops(s.dropped, at);
    EagerTotals(2);
    assert [Record(2, 60, "a"), Record(3, 10, "b")][..2] == [Record(2, 60, "a"), Record(3, 10, "b")];
    assert Total([Record(2, 60, "a")]) == 60 by {
      assert [Record(2, 60, "a")][..0] == [];
    }
  }

  /** What the drain of the eager-trim stream leaves: "b" deleted, 10 bytes freed. */
  lemma {:induction false} EagerDrained(s: Summary)
    requires s.Expired? && s.dropped == [Record(2, 60, "a")] && s.trackedSize == 10
    requires s.freedSize == Total(s.deleted) == s.trackedSize
    requires s.freedSize >= 50 ||
             multiset(s.deleted) + multiset(s.dropped) == multiset(Discovered(EagerEntries()))
    ensures s.deleted == [Record(3, 10, "b")] && s.freedSize == 10
  {
    var a, b := Record(2, 60, "a"), Record(3, 10, "b");
    EagerDiscovered();
    assert multiset(s.deleted) + multiset{a} == multiset{b, a};
    assert multiset(s.deleted) == multiset{b};
    assert |s.deleted| == 1 && s.deleted[0] in multiset(s.deleted);
  }

  /**
   * The trim runs after every entry (lines 72-75), not once the scan is over:
   * with 50 bytes to reclaim and the eager-trim stream, every outcome
   * `ExpireCache` guarantees drops the 60-byte file "a" as soon as it is
   * found, keeps "b", and the drain deletes "b" alone, freeing 10 bytes.
   */
  lemma {:induction false} EagerTrim(s: Summary, at: seq<nat>)
    requires s.Expired?
    requires s.discoveredSize == Total(Discovered(EagerEntries()))
    requires s.discoveredSize == s.trackedSize + Total(s.dropped)
    requires DropLog(Discovered(EagerEntries()), s.dropped, at, 50)
    requires InOrder(at, |Discovered(EagerEntries())|)
    requires Settled(Discovered(EagerEntries()), s.dropped, at, 50, |Discovered(EagerEntries())| + 1)
    requires s.freedSize == Total(s.deleted) == s.trackedSize
    requires s.freedSize >= 50 ||
             multiset(s.deleted) + multiset(s.dropped) == multiset(Discovered(EagerEntries()))
    ensures s.dropped == [Record(2, 60, "a")] && at == [1]
    ensures s.deleted == [Record(3, 10, "b")] && s.freedSize == 10
  {
    EagerScanned(s, at);
    EagerDrained(s);
  }
}
