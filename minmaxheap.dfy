/**
 * The double-ended priority queue that the cache-expiry scan feeds.
 * Its implementation module is not part of this model; the class below keeps
 * its records in a backing sequence and states, for each operation the
 * command uses, the contract a min-max heap keyed on modification time meets.
 */
module MinMaxHeaps {
  import opened Wrappers
  import opened Accounting

  class MinMaxHeap {
    /** The tracked records, in no particular order. */
    var items: seq<Record>

    /** Abstract view: the multiset of tracked records. */
    ghost function Contents(): multiset<Record>
      reads this
    {
      multiset(items)
    }

    constructor ()
      ensures Contents() == multiset{}
    {
      items := [];
    }

    /** `len(heap)`: the number of tracked records. */
    function Len(): (n: nat)
      reads this
      ensures n == |Contents()|
    {
      |items|
    }

    /** `heap.insert(record)`: the record joins the working set. */
    method Insert(r: Record)
      modifies this
      ensures Contents() == old(Contents()) + multiset{r}
    {
      items := items + [r];
    }

    /**
     * `heap.popmin()`: removes and returns a record of least modification time;
     * on an empty heap nothing is returned and nothing changes.
     */
    method PopMin() returns (r: Option<Record>)
      modifies this
      ensures r.None? <==> old(Contents()) == multiset{}
      ensures r.None? ==> Contents() == old(Contents())
      ensures r.Some? ==> r.value in old(Contents()) && Contents() == old(Contents()) - multiset{r.value}
      ensures r.Some? ==> forall x | x in old(Contents()) :: r.value.mtime <= x.mtime
    {
      if |items| == 0 {
        return None;
      }
      var k := ArgMin();
      r := Some(items[k]);
      RemoveAt(k);
    }

    /**
     * `heap.popmax()`: removes and returns a record of greatest modification time;
     * on an empty heap nothing is returned and nothing changes.
     */
    method PopMax() returns (r: Option<Record>)
      modifies this
      ensures r.None? <==> old(Contents()) == multiset{}
      ensures r.None? ==> Contents() == old(Contents())
      ensures r.Some? ==> r.value in old(Contents()) && Contents() == old(Contents()) - multiset{r.value}
      ensures r.Some? ==> forall x | x in old(Contents()) :: x.mtime <= r.value.mtime
    {
      if |items| == 0 {
        return None;
      }
      var k := ArgMax();
      r := Some(items[k]);
      RemoveAt(k);
    }

    /** The position of a record of least modification time. */
    method ArgMin() returns (k: nat)
      requires |items| > 0
      ensures k < |items| && forall j | 0 <= j < |items| :: items[k].mtime <= items[j].mtime
    {
      k := 0;
      var i := 1;
      while i < |items|
        invariant k < i <= |items|
        invariant forall j | 0 <= j < i :: items[k].mtime <= items[j].mtime
      {
        if items[i].mtime < items[k].mtime {
          k := i;
        }
        i := i + 1;
      }
    }

    /** The position of a record of greatest modification time. */
    method ArgMax() returns (k: nat)
      requires |items| > 0
      ensures k < |items| && forall j | 0 <= j < |items| :: items[j].mtime <= items[k].mtime
    {
      k := 0;
      var i := 1;
      while i < |items|
        invariant k < i <= |items|
        invariant forall j | 0 <= j < i :: items[j].mtime <= items[k].mtime
      {
        if items[k].mtime < items[i].mtime {
          k := i;
        }
        i := i + 1;
      }
    }

    /** Drops the record at position k of the backing sequence. */
    method RemoveAt(k: nat)
      requires k < |items|
      modifies this
      ensures items == old(items[..k] + items[k + 1..])
      ensures Contents() == old(Contents()) - multiset{old(items[k])}
      ensures forall x | x in old(Contents()) :: x == old(items[k]) || x in Contents()
    {
      assert items == items[..k] + [items[k]] + items[k + 1..];
      items := items[..k] + items[k + 1..];
    }
  }
}
