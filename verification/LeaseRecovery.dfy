/** The rebuild of the TTL index at startup: a bounded keyset walk over the active leases that indexes the
    future ones and hands the due ones to the expiry callback (internal/reconcile/ttl_recovery.go:36-64). */
module LeaseRecovery {
  import opened Wrappers
  import opened HeapOrder
  import Sweeps
  import TtlHeap

  /** The record behind a listed ID, as far as recovery looks at it. */
  datatype Row = Row(active: bool, expiry: Option<int>)

  /** What `ExpireEntry` comes to for the index. */
  datatype Callback = Fails | Drops | Reschedules(expiry: int)

  /** What recovery finds: the listed IDs, their records, the clock when it looks at each of them, and how
      the callback ends. A walk sees every ID at most once. */
  datatype World = World(list: Sweeps.Source, row: string -> Row, clock: string -> int, expire: string -> Callback)

  datatype Outcome = Done | StoreError | BadRecord | CallbackError | TooManyPages

  predicate Due(w: World, id: string) {
    w.row(id).active && w.row(id).expiry.Some? && w.row(id).expiry.value <= w.clock(id)
  }

  /** `TTLIndex.Upsert` of a non-empty ID. */
  function Upserted(leases: map<string, int>, id: string, expiry: int): map<string, int> {
    if expiry == TtlHeap.ZERO_TIME then leases else leases[id := expiry]
  }

  /** The index after one record; a callback that fails leaves it alone. */
  function Handled(w: World, leases: map<string, int>, id: string): map<string, int> {
    if Due(w, id) then
      match w.expire(id)
      case Fails => leases
      case Drops => leases - {id}
      case Reschedules(expiry) => Upserted(leases, id, expiry)
    else if w.row(id).expiry.None? then leases
    else Upserted(leases, id, w.row(id).expiry.value)
  }

  predicate Bad(w: World, previous: string, id: string) {
    !Sweeps.AdvancesTo(previous, id) || w.row(id).expiry.None?
  }

  predicate CallbackFails(w: World, id: string) {
    Due(w, id) && w.expire(id).Fails?
  }

  /** The records of one page, up to the first one that ends the walk. */
  function PageHandled(w: World, leases: map<string, int>, previous: string, ids: seq<string>): (map<string, int>, Outcome)
    decreases ids
  {
    if ids == [] then (leases, Done)
    else if Bad(w, previous, ids[0]) then (leases, BadRecord)
    else if CallbackFails(w, ids[0]) then (leases, CallbackError)
    else PageHandled(w, Handled(w, leases, ids[0]), ids[0], ids[1..])
  }

  /** The walk from a cursor on. */
  function Recovered(w: World, leases: map<string, int>, after: string, limit: nat, pages: nat): (map<string, int>, Outcome)
    requires limit > 0
    decreases pages
  {
    if pages == 0 then (leases, TooManyPages)
    else
      var page := w.list(after, limit);
      if page.None? then (leases, StoreError)
      else
        var (leases', outcome) := PageHandled(w, leases, after, page.value);
        if !outcome.Done? then (leases', outcome)
        else if |page.value| < limit then (leases', Done)
        else Recovered(w, leases', page.value[|page.value|-1], limit, pages - 1)
  }

  /** One record that does not end the walk. */
  method HandleOne(index: TtlHeap.Heap, w: World, id: string)
    requires index.Valid() && id != "" && w.row(id).expiry.Some? && !CallbackFails(w, id)
    modifies index, index.Repr()
    ensures index.Valid() && index.Leases() == Handled(w, old(index.Leases()), id)
    ensures forall x :: x in index.Repr() && x !in old(index.Repr()) ==> fresh(x)
  {
    if Due(w, id) {
      match w.expire(id) {
        case Drops =>
          var _ := index.Remove(id);
        case Reschedules(expiry) =>
          var _ := index.Upsert(Entry(id, expiry));
      }
    } else {
      var _ := index.Upsert(Entry(id, w.row(id).expiry.value));
    }
  }

  method HandlePage(index: TtlHeap.Heap, w: World, after: string, ids: seq<string>) returns (outcome: Outcome)
    requires index.Valid()
    modifies index, index.Repr()
    ensures index.Valid() && (index.Leases(), outcome) == PageHandled(w, old(index.Leases()), after, ids)
    ensures forall x :: x in index.Repr() && x !in old(index.Repr()) ==> fresh(x)
  {
    var previous := after;
    for i := 0 to |ids|
      invariant index.Valid() && forall x :: x in index.Repr() && x !in old(index.Repr()) ==> fresh(x)
      invariant PageHandled(w, index.Leases(), previous, ids[i..]) == PageHandled(w, old(index.Leases()), after, ids)
    {
      assert ids[i..][1..] == ids[i+1..];
      if Bad(w, previous, ids[i]) {
        return BadRecord;
      }
      if CallbackFails(w, ids[i]) {
        return CallbackError;
      }
      HandleOne(index, w, ids[i]);
      previous := ids[i];
    }
    return Done;
  }

  method Recover(index: TtlHeap.Heap, w: World, limit: nat, maxPages: nat) returns (outcome: Outcome)
    requires index.Valid() && limit > 0
    modifies index, index.Repr()
    ensures index.Valid() && (index.Leases(), outcome) == Recovered(w, old(index.Leases()), "", limit, maxPages)
  {
    var after := "";
    for pageNumber := 0 to maxPages
      invariant index.Valid() && forall x :: x in index.Repr() && x !in old(index.Repr()) ==> fresh(x)
      invariant Recovered(w, index.Leases(), after, limit, maxPages - pageNumber)
                == Recovered(w, old(index.Leases()), "", limit, maxPages)
    {
      var page := w.list(after, limit);
      if page.None? {
        return StoreError;
      }
      var ended := HandlePage(index, w, after, page.value);
      if !ended.Done? {
        return ended;
      }
      if |page.value| < limit {
        return Done;
      }
      after := page.value[|page.value|-1];
    }
    return TooManyPages;
  }

  // ---------- What a recovery rebuilds ----------

  function AllHandled(w: World, leases: map<string, int>, ids: seq<string>): map<string, int> {
    if ids == [] then leases else Handled(w, AllHandled(w, leases, ids[..|ids|-1]), ids[|ids|-1])
  }

  lemma {:induction false} AllHandledFirst(w: World, leases: map<string, int>, ids: seq<string>)
    requires ids != []
    ensures AllHandled(w, leases, ids) == AllHandled(w, Handled(w, leases, ids[0]), ids[1..])
  {
    var n := |ids| - 1;
    if n == 0 {
      assert ids[..0] == [] && ids[1..] == [];
    } else {
      AllHandledFirst(w, leases, ids[..n]);
      assert ids[..n][1..] == ids[1..][..n-1];
    }
  }

  lemma {:induction false} AllHandledPair(w: World, leases: map<string, int>, a: seq<string>, b: seq<string>)
    ensures AllHandled(w, leases, a + b) == AllHandled(w, AllHandled(w, leases, a), b)
    decreases b
  {
    if b == [] {
      assert a + b == a;
    } else {
      assert (a + b)[..|a + b|-1] == a + b[..|b|-1];
      AllHandledPair(w, leases, a, b[..|b|-1]);
    }
  }

  /** Records that do not end the walk. */
  predicate Fine(w: World, ids: seq<string>) {
    forall i :: 0 <= i < |ids| ==> w.row(ids[i]).expiry.Some? && !CallbackFails(w, ids[i])
  }

  lemma {:induction false} PageFine(w: World, leases: map<string, int>, previous: string, ids: seq<string>)
    requires Sweeps.Advancing(previous, ids) && Fine(w, ids)
    ensures PageHandled(w, leases, previous, ids) == (AllHandled(w, leases, ids), Done)
    decreases ids
  {
    if ids != [] {
      assert Sweeps.Advancing(ids[0], ids[1..]) by {
        forall i | 1 <= i < |ids[1..]|
          ensures Sweeps.AdvancesTo(ids[1..][i-1], ids[1..][i])
        {
          assert Sweeps.AdvancesTo(ids[i], ids[i+1]);
        }
      }
      PageFine(w, Handled(w, leases, ids[0]), ids[0], ids[1..]);
      AllHandledFirst(w, leases, ids);
    }
  }

  /** How a recovery over fixed keys ends when the first i have been handled. */
  ghost predicate EndsAsMeant(w: World, leases: map<string, int>, keys: seq<string>, i: nat, limit: nat, pages: nat)
    requires i <= |keys| && limit > 0
  {
    Recovered(w, AllHandled(w, leases, keys[..i]), Sweeps.Cursor(keys, i), limit, pages) ==
    if |keys| - i < Sweeps.Capacity(limit, pages) then (AllHandled(w, leases, keys), Done)
    else (AllHandled(w, leases, keys[..i + Sweeps.Capacity(limit, pages)]), TooManyPages)
  }

  /** One page of the walk. */
  lemma OnePage(w: World, leases: map<string, int>, keys: seq<string>, i: nat, limit: nat)
    requires Sweeps.Answers(w.list, keys) && Fine(w, keys) && i <= |keys|
    ensures var end := Sweeps.PageEnd(keys, i, limit);
            && w.list(Sweeps.Cursor(keys, i), limit) == Some(keys[i..end])
            && PageHandled(w, AllHandled(w, leases, keys[..i]), Sweeps.Cursor(keys, i), keys[i..end])
               == (AllHandled(w, leases, keys[..end]), Done)
  {
    var end := Sweeps.PageEnd(keys, i, limit);
    Sweeps.PageAt(w.list, keys, i, limit);
    PageFine(w, AllHandled(w, leases, keys[..i]), Sweeps.Cursor(keys, i), keys[i..end]);
    AllHandledPair(w, leases, keys[..i], keys[i..end]);
    assert keys[..i] + keys[i..end] == keys[..end];
  }

  /** One round of the walk, for a page that is handled to the end. */
  lemma RecoveredStep(w: World, leases: map<string, int>, after: string, limit: nat, pages: nat, page: seq<string>, leases': map<string, int>)
    requires pages > 0 && limit > 0 && w.list(after, limit) == Some(page)
    requires PageHandled(w, leases, after, page) == (leases', Done)
    ensures Recovered(w, leases, after, limit, pages) ==
            if |page| < limit then (leases', Done) else Recovered(w, leases', page[|page|-1], limit, pages - 1)
  {
  }

  lemma LastPage(w: World, leases: map<string, int>, keys: seq<string>, i: nat, limit: nat, pages: nat)
    requires Sweeps.Answers(w.list, keys) && Fine(w, keys) && i <= |keys| && |keys| - i < limit && pages > 0
    ensures EndsAsMeant(w, leases, keys, i, limit, pages)
  {
    OnePage(w, leases, keys, i, limit);
    assert keys[..|keys|] == keys;
    RecoveredStep(w, AllHandled(w, leases, keys[..i]), Sweeps.Cursor(keys, i), limit, pages, keys[i..|keys|], AllHandled(w, leases, keys));
  }

  lemma FullPage(w: World, leases: map<string, int>, keys: seq<string>, i: nat, limit: nat, pages: nat)
    requires Sweeps.Answers(w.list, keys) && Fine(w, keys) && 0 < limit && i + limit <= |keys| && pages > 0
    requires EndsAsMeant(w, leases, keys, i + limit, limit, pages - 1)
    ensures EndsAsMeant(w, leases, keys, i, limit, pages)
  {
    OnePage(w, leases, keys, i, limit);
    assert keys[i..i+limit][limit-1] == Sweeps.Cursor(keys, i + limit);
    RecoveredStep(w, AllHandled(w, leases, keys[..i]), Sweeps.Cursor(keys, i), limit, pages, keys[i..i+limit],
                  AllHandled(w, leases, keys[..i+limit]));
  }

  lemma {:induction false} RecoveredFrom(w: World, leases: map<string, int>, keys: seq<string>, i: nat, limit: nat, pages: nat)
    requires Sweeps.Answers(w.list, keys) && Fine(w, keys) && limit > 0 && i <= |keys|
    ensures EndsAsMeant(w, leases, keys, i, limit, pages)
    decreases pages
  {
    if pages > 0 {
      if |keys| - i < limit {
        LastPage(w, leases, keys, i, limit, pages);
      } else {
        RecoveredFrom(w, leases, keys, i + limit, limit, pages - 1);
        FullPage(w, leases, keys, i, limit, pages);
      }
    }
  }

  /** What becomes of the lease of one handled ID. */
  function LeaseAfter(w: World, id: string, before: Option<int>): Option<int> {
    var m := Handled(w, if before.Some? then map[id := before.value] else map[], id);
    if id in m then Some(m[id]) else None
  }

  function At(leases: map<string, int>, id: string): Option<int> {
    if id in leases then Some(leases[id]) else None
  }

  lemma HandledAt(w: World, leases: map<string, int>, id: string, other: string)
    ensures At(Handled(w, leases, id), other) == if other == id then LeaseAfter(w, id, At(leases, id)) else At(leases, other)
  {
  }

  lemma {:induction false} AllHandledAt(w: World, leases: map<string, int>, ids: seq<string>, id: string)
    requires Sweeps.Ascending(ids)
    ensures At(AllHandled(w, leases, ids), id) == if id in ids then LeaseAfter(w, id, At(leases, id)) else At(leases, id)
  {
    if ids != [] {
      var front, last := ids[..|ids|-1], ids[|ids|-1];
      assert ids == front + [last];
      AllHandledAt(w, leases, front, id);
      HandledAt(w, AllHandled(w, leases, front), last, id);
      if id == last {
        Sweeps.LastIsNew(ids);
      }
    }
  }

  /** Over a store that does not change, recovery succeeds exactly when there are fewer active leases than the
      pages can hold. Then every future lease is in the index with the expiry of the store, every due one has
      been through the callback, with what it left, and nothing else has been touched; otherwise this holds of the
      first ones. */
  lemma RecoveryIndexesEveryLease(w: World, leases: map<string, int>, keys: seq<string>, limit: nat, maxPages: nat, id: string)
    requires Sweeps.Answers(w.list, keys) && Fine(w, keys) && limit > 0
    ensures var (index, outcome) := Recovered(w, leases, "", limit, maxPages);
            && (outcome.Done? <==> |keys| < limit * maxPages)
            && (!outcome.Done? ==> outcome.TooManyPages? && limit * maxPages <= |keys|)
            && var handled := if outcome.Done? then keys else keys[..limit * maxPages];
               && (id !in handled ==> At(index, id) == At(leases, id))
               && (id in handled && w.row(id).expiry != Some(0) ==>
                     if w.row(id).active && w.row(id).expiry.value <= w.clock(id) then
                       && (w.expire(id).Drops? ==> id !in index)
                       && (w.expire(id).Reschedules? && w.expire(id).expiry != 0 ==> At(index, id) == Some(w.expire(id).expiry))
                     else At(index, id) == w.row(id).expiry)
  {
    RecoveredFrom(w, leases, keys, 0, limit, maxPages);
    Sweeps.CapacityIsProduct(limit, maxPages);
    assert keys[..0] == [] && Sweeps.Cursor(keys, 0) == "";
    var handled := if |keys| < limit * maxPages then keys else keys[..limit * maxPages];
    AllHandledAt(w, leases, handled, id);
    if id in handled {
      var i :| 0 <= i < |handled| && handled[i] == id;
      assert keys[i] == id;
    }
  }

  /** What the walk met at position i of this page if it ended so. */
  predicate StoppedAt(w: World, previous: string, page: seq<string>, i: int, outcome: Outcome) {
    && 0 <= i < |page|
    && var row := w.row(page[i]);
       match outcome
       case CallbackError => row.active && row.expiry.Some? && row.expiry.value <= w.clock(page[i]) && w.expire(page[i]).Fails?
       case BadRecord => row.expiry.None? || !Sweeps.AdvancesTo(if i == 0 then previous else page[i-1], page[i])
       case _ => false
  }

  lemma {:induction false} PageStopsForCause(w: World, leases: map<string, int>, previous: string, ids: seq<string>)
    ensures var (_, outcome) := PageHandled(w, leases, previous, ids);
            outcome.Done? || exists i :: StoppedAt(w, previous, ids, i, outcome)
    decreases ids
  {
    if ids != [] {
      var outcome := PageHandled(w, leases, previous, ids).1;
      if !Bad(w, previous, ids[0]) && !CallbackFails(w, ids[0]) {
        PageStopsForCause(w, Handled(w, leases, ids[0]), ids[0], ids[1..]);
        if !outcome.Done? {
          var i :| StoppedAt(w, ids[0], ids[1..], i, outcome);
          assert StoppedAt(w, previous, ids, i + 1, outcome);
        }
      } else {
        assert StoppedAt(w, previous, ids, 0, outcome);
      }
    }
  }

  /** What a recovery met behind this cursor if it ended so. */
  ghost predicate EndedAt(w: World, limit: nat, cursor: string, outcome: Outcome) {
    match outcome
    case TooManyPages => true
    case StoreError => w.list(cursor, limit).None?
    case Done => w.list(cursor, limit).Some? && |w.list(cursor, limit).value| < limit
    case _ => w.list(cursor, limit).Some? && exists i :: StoppedAt(w, cursor, w.list(cursor, limit).value, i, outcome)
  }

  /** Whatever the store answers, a recovery that fails does so for a page that could not be listed, a record without
      an expiry or out of order, or a due lease whose callback failed, or because it has used up its pages. */
  lemma {:induction false} RecoveryEndsForCause(w: World, leases: map<string, int>, after: string, limit: nat, pages: nat)
    requires limit > 0
    ensures exists cursor :: EndedAt(w, limit, cursor, Recovered(w, leases, after, limit, pages).1)
    decreases pages
  {
    if pages > 0 && w.list(after, limit).Some? {
      var page := w.list(after, limit).value;
      PageStopsForCause(w, leases, after, page);
      var (leases', outcome) := PageHandled(w, leases, after, page);
      if outcome.Done? && |page| >= limit {
        RecoveryEndsForCause(w, leases', page[|page|-1], limit, pages - 1);
      } else {
        assert EndedAt(w, limit, after, outcome);
      }
    } else {
      assert EndedAt(w, limit, after, Recovered(w, leases, after, limit, pages).1);
    }
  }

  /** The case in which the last page is exactly full: the only lease is indexed, and recovery fails. */
  lemma FullLastPageFails(w: World)
    requires w.list == Sweeps.SourceOf(["a"]) && w.row("a") == Row(true, Some(10)) && w.clock("a") == 5
    ensures Recovered(w, map[], "", 1, 1) == (map["a" := 10], TooManyPages)
  {
    assert Sweeps.Answers(w.list, ["a"]) && Fine(w, ["a"]);
    RecoveredFrom(w, map[], ["a"], 0, 1, 1);
    Sweeps.CapacityIsProduct(1, 1);
    assert ["a"][..0] == [] && ["a"][..1] == ["a"] && Sweeps.Cursor(["a"], 0) == "";
    assert AllHandled(w, map[], ["a"]) == map["a" := 10];
  }
}
