/** The indexed TTL heap: an in-place binary heap of item pointers that know their own position, plus a
    map from sandbox ID to item (internal/reconcile/ttl_heap.go). */
module TtlHeap {
  import opened HeapOrder
  import opened Wrappers

  /** `time.Time{}`: the zero instant that `Upsert` refuses. */
  const ZERO_TIME := 0

  class Item {
    var entry: Entry
    var index: int

    constructor (entry: Entry)
      ensures this.entry == entry
    {
      this.entry := entry;
      index := -1;
    }
  }

  ghost function EntriesOf(items: seq<Item>): (s: seq<Entry>)
    reads items
    ensures |s| == |items| && forall k :: 0 <= k < |s| ==> s[k] == items[k].entry
  {
    seq(|items|, k requires 0 <= k < |items| reads items => items[k].entry)
  }

  ghost function Members(items: seq<Item>): set<Item> {
    set x | x in items
  }

  lemma SameMembers(items: seq<Item>, i: nat, j: nat)
    requires i < |items| && j < |items|
    ensures Members(items[i := items[j]][j := items[i]]) == Members(items)
  {
    var swapped := items[i := items[j]][j := items[i]];
    forall x | x in items
      ensures x in swapped
    {
      var k :| 0 <= k < |items| && items[k] == x;
      assert swapped[if k == i then j else if k == j then i else k] == x;
    }
  }

  ghost function LeasesOf(indexes: map<string, Item>): map<string, int>
    reads indexes.Values`entry
  {
    map id | id in indexes :: indexes[id].entry.expiry
  }

  class Heap {
    var items: seq<Item>
    var indexes: map<string, Item>

    ghost function Repr(): set<Item>
      reads this
    {
      Members(items)
    }

    ghost function Entries(): seq<Entry>
      reads this, items
    {
      EntriesOf(items)
    }

    /** Every item sits exactly once in the slice, at the position it stores. */
    ghost predicate Linked()
      reads this, items
    {
      forall k :: 0 <= k < |items| ==> items[k].index == k
    }

    /** The map points from each ID to its item, and to nothing else. */
    ghost predicate Indexed()
      reads this, items
    {
      && (forall x :: x in Repr() ==> x.entry.id in indexes && indexes[x.entry.id] == x)
      && (forall id :: id in indexes ==> indexes[id] in Repr() && indexes[id].entry.id == id)
      && "" !in indexes
    }

    ghost predicate Valid()
      reads this, items
    {
      Linked() && Indexed() && HeapOrder.Heap(Entries(), |items|)
    }

    /** The abstract value: the lease of every indexed sandbox. */
    ghost function Leases(): map<string, int>
      reads this, indexes.Values`entry
    {
      LeasesOf(indexes)
    }

    constructor ()
      ensures Valid() && Leases() == map[] && items == []
    {
      items, indexes := [], map[];
    }

    // ---------- container/heap on the slice ----------

    method Swap(i: nat, j: nat)
      requires i < |items| && j < |items| && Linked()
      modifies this`items, Repr()`index
      ensures Linked() && |items| == old(|items|)
      ensures Entries() == Swapped(old(Entries()), i, j)
      ensures items == old(items)[i := old(items)[j]][j := old(items)[i]]
      ensures Repr() == old(Repr())
    {
      var a, b := items[i], items[j];
      assert forall k :: 0 <= k < |items| && k != i ==> items[k] != a;
      assert forall k :: 0 <= k < |items| && k != j ==> items[k] != b;
      items := items[i := b][j := a];
      b.index, a.index := i, j;
      SameMembers(old(items), i, j);
    }

    method Up(j: nat)
      requires j < |items| && Linked()
      modifies this`items, Repr()`index
      ensures Linked() && |items| == old(|items|)
      ensures Entries() == HeapOrder.Up(old(Entries()), j)
      ensures items[j+1..] == old(items)[j+1..]
      ensures Repr() == old(Repr())
    {
      var k := j;
      while k > 0 && Before(items[k].entry, items[(k - 1) / 2].entry)
        invariant 0 <= k < |items| == old(|items|) && Linked()
        invariant HeapOrder.Up(Entries(), k) == HeapOrder.Up(old(Entries()), j)
        invariant k <= j && items[j+1..] == old(items)[j+1..]
        invariant Repr() == old(Repr())
      {
        Swap(k, (k - 1) / 2);
        k := (k - 1) / 2;
      }
    }

    /** One round of `down`: the entry at i changes places with its smaller child when it must. */
    method Sink(i: nat, n: nat) returns (sinks: bool, j: nat)
      requires i <= n <= |items| && Linked()
      modifies this`items, Repr()`index
      ensures Linked() && |items| == old(|items|) && Repr() == old(Repr())
      ensures sinks == Sinks(old(Entries()), i, n)
      ensures sinks ==> i < j < n && HeapOrder.Down(Entries(), j, n) == HeapOrder.Down(old(Entries()), i, n)
      ensures !sinks ==> Entries() == HeapOrder.Down(old(Entries()), i, n)
      ensures items[n..] == old(items)[n..]
    {
      j := 2 * i + 1;
      if j >= n {
        return false, j;
      }
      if j + 1 < n && Before(items[j + 1].entry, items[j].entry) {
        j := j + 1;
      }
      if !Before(items[j].entry, items[i].entry) {
        return false, j;
      }
      sinks := true;
      Swap(i, j);
    }

    method Down(start: nat, n: nat) returns (moved: bool)
      requires start <= n <= |items| && Linked()
      modifies this`items, Repr()`index
      ensures Linked() && |items| == old(|items|) && Repr() == old(Repr())
      ensures Entries() == HeapOrder.Down(old(Entries()), start, n)
      ensures moved == Sinks(old(Entries()), start, n)
      ensures items[n..] == old(items)[n..]
    {
      ghost var result := HeapOrder.Down(Entries(), start, n);
      var sinks, i := Sink(start, n);
      moved := sinks;
      while sinks
        invariant Linked() && |items| == old(|items|) && Repr() == old(Repr())
        invariant sinks ==> i < n && HeapOrder.Down(Entries(), i, n) == result
        invariant !sinks ==> Entries() == result
        invariant items[n..] == old(items)[n..]
        decreases sinks, n - i
      {
        sinks, i := Sink(i, n);
      }
    }

    method Fix(i: nat, n: nat)
      requires i < n <= |items| && Linked()
      modifies this`items, Repr()`index
      ensures Linked() && |items| == old(|items|)
      ensures Entries() == Fixed(old(Entries()), i, n)
      ensures items[n..] == old(items)[n..]
      ensures Repr() == old(Repr())
    {
      var moved := Down(i, n);
      if !moved {
        Up(i);
        assert items[n..] == items[i+1..][n-i-1..];
      }
    }

    method PushItem(item: Item)
      requires Linked() && item !in items
      modifies this`items, Repr()`index, item`index
      ensures Linked() && Entries() == WithPushed(old(Entries()), old(item.entry))
      ensures Repr() == old(Repr()) + {item}
    {
      item.index := |items|;
      items := items + [item];
      assert Entries() == old(Entries()) + [item.entry];
      Up(|items| - 1);
    }

    /** `Pop` of the slice: cuts the last item off. */
    method CutItem() returns (item: Item)
      requires items != [] && Linked()
      modifies this`items, Repr()`index
      ensures Linked() && item == old(items[|items|-1]) && item.index == -1
      ensures Entries() == old(Entries())[..old(|items|)-1]
      ensures Repr() == old(Repr()) - {item}
    {
      var n := |items| - 1;
      item := items[n];
      assert forall k :: 0 <= k < n ==> items[k] != item;
      items := items[..n];
      item.index := -1;
      assert forall x :: x in old(items) && x != item ==> exists k :: 0 <= k < n && old(items)[k] == x;
    }

    /** The first half of `heap.Remove`: the item goes to the end and the rest is repaired. */
    method MoveToEnd(i: nat)
      requires i < |items| && Linked()
      modifies this`items, Repr()`index
      ensures Linked() && |items| == old(|items|) && Repr() == old(Repr())
      ensures items[|items|-1] == old(items[i])
      ensures Entries() == BeforeCut(old(Entries()), i)
    {
      var n := |items| - 1;
      if i != n {
        Swap(i, n);
        ghost var swapped := items;
        Fix(i, n);
        assert items[n] == items[n..][0] == swapped[n..][0] == swapped[n];
      }
    }

    /** `heap.Remove`; `heap.Pop` is the case i == 0, where the repair cannot move up. */
    method RemoveAt(i: nat) returns (item: Item)
      requires i < |items| && Linked()
      modifies this`items, Repr()`index
      ensures Linked() && item == old(items[i]) && item.index == -1
      ensures Entries() == WithRemoved(old(Entries()), i)
      ensures Repr() == old(Repr()) - {item}
    {
      MoveToEnd(i);
      item := CutItem();
    }

    // ---------- TTLHeap ----------

    /** `heap.Fix` on the whole slice. */
    method Repair(at: nat)
      requires Linked() && Indexed() && at < |items| && HoleAt(Entries(), |items|, at)
      modifies this`items, Repr()`index
      ensures Valid() && Repr() == old(Repr()) && Leases() == old(Leases())
    {
      assert HeapOrder.Heap(Fixed(Entries(), at, |items|), |items|) by {
        FixRestores(Entries(), at, |items|);
      }
      Fix(at, |items|);
    }

    /** Overwrites the entry of an indexed sandbox, which may leave a hole in the heap. */
    method Overwrite(item: Item, entry: Entry)
      requires Linked() && Indexed() && item in Repr() && item.entry.id == entry.id
      modifies item`entry
      ensures Linked() && Indexed()
      ensures Leases() == old(Leases())[entry.id := entry.expiry]
      ensures 0 <= item.index < |items| && Entries() == old(Entries())[item.index := entry]
    {
      assert 0 <= item.index < |items| && items[item.index] == item;
      item.entry := entry;
    }

    /** Replaces the expiry of an indexed sandbox in place. */
    method Reschedule(item: Item, entry: Entry)
      requires Valid() && item in Repr() && item.entry.id == entry.id
      modifies this`items, Repr()`index, item`entry
      ensures Valid() && Repr() == old(Repr())
      ensures Leases() == old(Leases())[entry.id := entry.expiry]
    {
      ghost var was := Entries();
      Overwrite(item, entry);
      ReplacedHole(was, |was|, item.index, entry);
      Repair(item.index);
    }

    /** Everything in the slice but one item is in the map. */
    ghost predicate IndexedBut(item: Item)
      reads this, items
    {
      && (forall x :: x in Repr() && x != item ==> x.entry.id in indexes && indexes[x.entry.id] == x)
      && (forall id :: id in indexes ==> indexes[id] in Repr() && indexes[id] != item && indexes[id].entry.id == id)
      && "" !in indexes
    }

    /** The map entry of a new item. */
    method Register(item: Item)
      requires item in items && IndexedBut(item) && item.entry.id !in indexes && item.entry.id != ""
      modifies this`indexes
      ensures Indexed() && Leases() == old(Leases())[item.entry.id := item.entry.expiry]
    {
      indexes := indexes[item.entry.id := item];
    }

    /** Puts an item that is not yet in the slice into the slice and the map. */
    method Attach(item: Item)
      requires Valid() && item !in items && item.entry.id !in indexes && item.entry.id != ""
      modifies this, Repr()`index, item`index
      ensures Valid() && Repr() == old(Repr()) + {item}
      ensures Leases() == old(Leases())[item.entry.id := item.entry.expiry]
    {
      PushRestores(Entries(), item.entry);
      PushItem(item);
      assert IndexedBut(item);
      Register(item);
    }

    /** Indexes a sandbox that has no item yet. */
    method Insert(entry: Entry)
      requires Valid() && entry.id !in indexes && entry.id != ""
      modifies this, Repr()`index
      ensures Valid() && forall x :: x in Repr() && x !in old(Repr()) ==> fresh(x)
      ensures Leases() == old(Leases())[entry.id := entry.expiry]
    {
      var item := new Item(entry);
      Attach(item);
    }

    method Upsert(entry: Entry) returns (changed: bool)
      requires Valid()
      modifies this, Repr()
      ensures Valid() && forall x :: x in Repr() && x !in old(Repr()) ==> fresh(x)
      ensures var accepted := entry.id != "" && entry.expiry != ZERO_TIME;
              && changed == (accepted && !(entry.id in old(Leases()) && old(Leases())[entry.id] == entry.expiry))
              && Leases() == if accepted then old(Leases())[entry.id := entry.expiry] else old(Leases())
    {
      if entry.id == "" || entry.expiry == ZERO_TIME {
        return false;
      }
      if entry.id in indexes {
        var item := indexes[entry.id];
        if item.entry.expiry == entry.expiry {
          assert Leases() == old(Leases())[entry.id := entry.expiry];
          return false;
        }
        Reschedule(item, entry);
        return true;
      }
      Insert(entry);
      return true;
    }

    /** Drops the map entry of an item that has left the slice. */
    method Forget(item: Item)
      requires item !in items && item.entry.id in indexes && indexes[item.entry.id] == item && "" !in indexes
      requires forall x :: x in Repr() ==> x.entry.id in indexes && indexes[x.entry.id] == x
      requires forall id :: id in indexes ==> indexes[id] in Repr() + {item} && indexes[id].entry.id == id
      modifies this`indexes
      ensures Indexed() && Leases() == old(Leases()) - {item.entry.id}
    {
      indexes := indexes - {item.entry.id};
    }

    /** Takes the item at a position out of the slice and the map. */
    method Take(i: nat) returns (item: Item)
      requires Valid() && i < |items|
      modifies this, Repr()`index
      ensures Valid() && Repr() == old(Repr()) - {item} && item == old(items[i]) && |items| == old(|items|) - 1
      ensures Leases() == old(Leases()) - {item.entry.id}
      ensures item.entry.id in old(Leases()) && old(Leases())[item.entry.id] == item.entry.expiry
    {
      ghost var was := Entries();
      assert items[i] in Repr();
      item := RemoveAt(i);
      assert |items| == |was| - 1 && HeapOrder.Heap(Entries(), |items|) by {
        RemoveRestores(was, i);
      }
      Forget(item);
    }

    method Remove(id: string) returns (removed: bool)
      requires Valid()
      modifies this, Repr()`index
      ensures Valid() && Repr() <= old(Repr())
      ensures removed == (id in old(Leases()))
      ensures Leases() == old(Leases()) - {id}
    {
      if id !in indexes {
        return false;
      }
      var item := indexes[id];
      assert 0 <= item.index < |items| && items[item.index] == item;
      var taken := Take(item.index);
      assert taken == item;
      return true;
    }

    /** The first entry of the slice is a lease that no other lease is before. */
    lemma RootIsEarliest()
      requires Valid() && items != []
      ensures var e := items[0].entry;
              && e.id in Leases() && Leases()[e.id] == e.expiry
              && forall id :: id in Leases() ==> !Before(Entry(id, Leases()[id]), e)
    {
      assert items[0] in Repr();
      forall id | id in Leases()
        ensures !Before(Entry(id, Leases()[id]), items[0].entry)
      {
        var x := indexes[id];
        assert x in Repr() && 0 <= x.index < |items| && items[x.index] == x;
        RootIsLeast(Entries(), |items|, x.index);
      }
    }

    method Peek() returns (first: Option<Entry>)
      requires Valid()
      ensures first.None? <==> Leases() == map[]
      ensures first.Some? ==>
                && first.value.id in Leases() && Leases()[first.value.id] == first.value.expiry
                && forall id :: id in Leases() ==> !Before(Entry(id, Leases()[id]), first.value)
    {
      if |items| == 0 {
        assert Leases() == map[];
        return None;
      }
      RootIsEarliest();
      return Some(items[0].entry);
    }

    /** `heap.Pop` together with the map deletion. */
    method PopFirst() returns (e: Entry)
      requires Valid() && items != []
      modifies this, Repr()`index
      ensures Valid() && Repr() <= old(Repr()) && |items| == old(|items|) - 1
      ensures e == old(items[0].entry) && e.id in old(Leases()) && old(Leases())[e.id] == e.expiry
      ensures Leases() == old(Leases()) - {e.id}
      ensures forall id :: id in old(Leases()) && id != e.id ==> Before(e, Entry(id, old(Leases())[id]))
    {
      RootIsEarliest();
      ghost var first := items[0].entry;
      OthersAfter(Leases(), first);
      var item := Take(0);
      e := item.entry;
    }

    /** Removes every entry not after `now`, in (expiry, ID) order, and leaves the rest untouched. */
    method PopDue(now: int) returns (due: seq<Entry>)
      requires Valid()
      modifies this, Repr()`index
      ensures Valid() && Repr() <= old(Repr())
      ensures forall i, j :: 0 <= i < j < |due| ==> Before(due[i], due[j])
      ensures forall e: Entry :: e in due <==> e.id in old(Leases()) && old(Leases())[e.id] == e.expiry && e.expiry <= now
      ensures Leases() == map id | id in old(Leases()) && old(Leases())[id] > now :: old(Leases())[id]
    {
      due := [];
      ghost var was := Leases();
      while |items| > 0 && items[0].entry.expiry <= now
        invariant Valid() && Repr() <= old(Repr())
        invariant Popped(was, Leases(), due, now)
        decreases |items|
      {
        RootIsEarliest();
        PopStep(was, Leases(), due, now, items[0].entry);
        var e := PopFirst();
        due := due + [e];
      }
      assert forall id :: id in Leases() ==> Leases()[id] > now by {
        if |items| > 0 {
          RootIsEarliest();
        }
      }
      PopDone(was, Leases(), due, now);
    }
  }

  /** `due` holds, in order, leases of `was` that were due at `now`, `left` is everything else, and
      nothing left is before anything taken. */
  ghost predicate Popped(was: map<string, int>, left: map<string, int>, due: seq<Entry>, now: int) {
    && (forall i, j :: 0 <= i < j < |due| ==> Before(due[i], due[j]))
    && (forall e :: e in due ==> e.id in was && was[e.id] == e.expiry && e.expiry <= now && e.id !in left)
    && (forall id :: id in left ==> id in was && was[id] == left[id])
    && (forall id :: id in was && id !in left ==> Entry(id, was[id]) in due)
    && (forall e, id :: e in due && id in left ==> Before(e, Entry(id, left[id])))
  }

  lemma PopStep(was: map<string, int>, left: map<string, int>, due: seq<Entry>, now: int, e: Entry)
    requires Popped(was, left, due, now) && e.expiry <= now
    requires e.id in left && left[e.id] == e.expiry
    ensures (forall id :: id in left && id != e.id ==> Before(e, Entry(id, left[id]))) ==>
              Popped(was, left - {e.id}, due + [e], now)
  {
    assert e == Entry(e.id, left[e.id]);
  }

  lemma PopDone(was: map<string, int>, left: map<string, int>, due: seq<Entry>, now: int)
    requires Popped(was, left, due, now) && forall id :: id in left ==> left[id] > now
    ensures forall e: Entry :: e in due <==> e.id in was && was[e.id] == e.expiry && e.expiry <= now
    ensures left == map id | id in was && was[id] > now :: was[id]
  {
    forall e: Entry | e.id in was && was[e.id] == e.expiry && e.expiry <= now
      ensures e in due
    {
      assert e.id !in left;
      assert e == Entry(e.id, was[e.id]);
    }
    forall id | id in was && id !in left
      ensures was[id] <= now
    {
      assert Entry(id, was[id]) in due;
    }
  }

  lemma OthersAfter(leases: map<string, int>, e: Entry)
    requires forall id :: id in leases ==> !Before(Entry(id, leases[id]), e)
    ensures forall id :: id in leases && id != e.id ==> Before(e, Entry(id, leases[id]))
  {
    forall id | id in leases && id != e.id
      ensures Before(e, Entry(id, leases[id]))
    {
      BeforeTotal(e, Entry(id, leases[id]));
    }
  }
}
