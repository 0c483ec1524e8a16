/** Eviction of completed executions and the deletion of their logs
    (internal/runner/completed_execution_gc.go:110-178). */
module Retention {
  import opened Wrappers
  import HeapOrder
  import Manager
  import Ordering
  import Sorting

  /** A completed execution, or the log of one. */
  datatype Completion = Completion(id: string, completedAt: int)

  function Timed(c: Completion): HeapOrder.Entry {
    HeapOrder.Entry(c.id, c.completedAt)
  }

  /** Earlier completion first, equal times by ID: the order of the TTL heap, on other times. */
  predicate Before(a: Completion, b: Completion) {
    HeapOrder.Before(Timed(a), Timed(b))
  }

  lemma BeforeIsTotal()
    ensures Sorting.Total(Before)
  {
    forall a, b: Completion
      ensures a == b || Before(a, b) || Before(b, a)
    {
      HeapOrder.BeforeTotal(Timed(a), Timed(b));
    }
    forall a, b | Before(a, b)
      ensures !Before(b, a)
    {
      HeapOrder.BeforeAsymmetric(Timed(a), Timed(b));
    }
    forall a, b, c | Before(a, b) && Before(b, c)
      ensures Before(a, c)
    {
      HeapOrder.BeforeTransitive(Timed(a), Timed(b), Timed(c));
    }
  }

  predicate Ascending(list: seq<Completion>) {
    Sorting.StrictlyAscending(Before, list)
  }

  function Elements(list: seq<Completion>): set<Completion> {
    set e | e in list
  }

  lemma InsertedRecord(list: seq<Completion>, e: Completion)
    requires Ascending(list) && e !in list
    ensures var all := Sorting.Inserted(Before, list, e);
            Ascending(all) && Elements(all) == Elements(list) + {e}
  {
    BeforeIsTotal();
    Sorting.InsertedStrict(Before, list, e);
    var all := Sorting.Inserted(Before, list, e);
    forall x
      ensures x in all <==> x in list || x == e
    {
      Sorting.InsertedElements(Before, list, e, x);
    }
  }

  /** What may be evicted, with its completion time: completed, terminal executions. */
  function Done(entries: map<string, Manager.Entry>): map<string, int> {
    map id | id in entries && Completed(entries[id]) :: entries[id].completedAt.value
  }

  function Records(times: map<string, int>): set<Completion> {
    set id | id in times :: Completion(id, times[id])
  }

  function Candidates(entries: map<string, Manager.Entry>): set<Completion> {
    Records(Done(entries))
  }

  predicate Completed(e: Manager.Entry) {
    !e.active && e.completedAt.Some? && e.descriptor.state.Terminal()
  }

  function Ids(list: seq<Completion>): set<string> {
    set e | e in list :: e.id
  }

  lemma RecordsGrow(times: map<string, int>, id: string, t: int)
    requires id !in times
    ensures Records(times[id := t]) == Records(times) + {Completion(id, t)} && Completion(id, t) !in Records(times)
  {
    var all := times[id := t];
    forall x | x in Records(times)
      ensures x in Records(all)
    {
      assert x.id in all && all[x.id] == times[x.id];
    }
    assert id in all;
  }

  /** `sort.Slice` on the records of a map: in (completion time, ID) order. */
  method Listed(times: map<string, int>) returns (records: seq<Completion>)
    ensures Ascending(records) && Elements(records) == Records(times) && |records| == |Records(times)|
  {
    records := [];
    var left := times.Keys;
    ghost var seen: map<string, int> := map[];
    while left != {}
      invariant left <= times.Keys && seen == map id | id in times && id !in left :: times[id]
      invariant Ascending(records) && Elements(records) == Records(seen)
      decreases |left|
    {
      var id :| id in left;
      left := left - {id};
      var e := Completion(id, times[id]);
      RecordsGrow(seen, id, times[id]);
      assert e !in Elements(records);
      InsertedRecord(records, e);
      records := Sorting.Inserted(Before, records, e);
      seen := seen[id := times[id]];
    }
    assert seen == times;
    BeforeIsTotal();
    Sorting.StrictSize(Before, records);
  }

  /** What an eviction has to be: it takes the oldest candidates, leaves at most the limit, leaves nothing
      as old as the cutoff, and takes no more than these two demand. */
  ghost predicate Evicts(entries: map<string, Manager.Entry>, evicted: seq<Completion>, cutoff: int, limit: nat) {
    var left := Candidates(entries) - Elements(evicted);
    && Ascending(evicted) && Elements(evicted) <= Candidates(entries)
    && (forall e, x :: e in evicted && x in left ==> Before(e, x))
    && |left| <= limit
    && (forall x :: x in left ==> x.completedAt > cutoff)
    && (evicted != [] && evicted[|evicted|-1].completedAt > cutoff ==> |left| == limit)
  }

  /** Behind a record that is young enough to stay all others are, too. */
  lemma YoungFromHere(records: seq<Completion>, n: nat, cutoff: int)
    requires Ascending(records) && n < |records| && records[n].completedAt > cutoff
    ensures forall i :: n <= i < |records| ==> records[i].completedAt > cutoff
  {
    forall i | n < i < |records|
      ensures records[i].completedAt > cutoff
    {
      assert Before(records[n], records[i]);
    }
  }

  /** Taking the first p of the ordered candidates. */
  lemma PrefixEvicts(entries: map<string, Manager.Entry>, list: seq<Completion>, p: nat, cutoff: int, limit: nat)
    requires Ascending(list) && Elements(list) == Candidates(entries) && |list| == |Candidates(entries)| && p <= |list|
    requires |list| - p <= limit && (p < |list| ==> list[p].completedAt > cutoff)
    requires p > 0 && list[p-1].completedAt > cutoff ==> |list| - p == limit
    ensures Evicts(entries, list[..p], cutoff, limit)
  {
    RestOfListing(list, p);
    YoungRest(list, p, cutoff);
    assert Ascending(list[..p]);
    assert Elements(list[..p]) <= Elements(list);
  }

  lemma YoungRest(list: seq<Completion>, p: nat, cutoff: int)
    requires Ascending(list) && p <= |list| && (p < |list| ==> list[p].completedAt > cutoff)
    ensures forall x :: x in Elements(list) - Elements(list[..p]) ==> x.completedAt > cutoff
  {
    RestOfListing(list, p);
    if p < |list| {
      YoungFromHere(list, p, cutoff);
    }
  }

  /** The parts of an ascending list have nothing in common. */
  lemma PartsDisjoint(list: seq<Completion>, p: nat, x: Completion)
    requires Ascending(list) && p <= |list| && x in list[p..]
    ensures x !in list[..p]
  {
    if x in list[..p] {
      var i :| 0 <= i < p && list[i] == x;
      var j :| 0 <= j < |list[p..]| && list[p..][j] == x;
      assert list[p + j] == x;
      HeapOrder.BeforeIrreflexive(Timed(x));
    }
  }

  lemma RestElements(list: seq<Completion>, p: nat)
    requires Ascending(list) && p <= |list|
    ensures Elements(list) - Elements(list[..p]) == Elements(list[p..])
  {
    assert list == list[..p] + list[p..];
    forall x | x in list[p..]
      ensures x !in list[..p]
    {
      PartsDisjoint(list, p, x);
    }
  }

  lemma RestOfListing(list: seq<Completion>, p: nat)
    requires Ascending(list) && p <= |list|
    ensures var left := Elements(list) - Elements(list[..p]);
            && |left| == |list| - p
            && (forall x :: x in left ==> exists j :: p <= j < |list| && list[j] == x)
            && (forall e, x :: e in list[..p] && x in left ==> Before(e, x))
  {
    RestElements(list, p);
    BeforeIsTotal();
    Sorting.StrictSize(Before, list[p..]);
    forall x | x in list[p..]
      ensures exists j :: p <= j < |list| && list[j] == x
    {
      var i :| 0 <= i < |list[p..]| && list[p..][i] == x;
      assert list[p + i] == x;
    }
  }

  lemma IdsAppend(list: seq<Completion>, e: Completion)
    ensures Ids(list + [e]) == Ids(list) + {e.id}
  {
    assert (list + [e])[|list|] == e;
    forall x | x in list
      ensures x in list + [e]
    {
    }
  }

  /** How many of the ordered records go: those over the limit and those not younger than the cutoff. */
  ghost function Going(records: seq<Completion>, cutoff: int, count: nat): (p: nat)
    requires Ascending(records) && count <= |records|
    ensures count <= p <= |records|
    ensures forall i :: 0 <= i < |records| ==> (i < p <==> i < count || records[i].completedAt <= cutoff)
    decreases |records| - count
  {
    if count == |records| then count
    else if records[count].completedAt <= cutoff then Going(records, cutoff, count + 1)
    else
      YoungFromHere(records, count, cutoff);
      count
  }

  function OverLimit(records: seq<Completion>, limit: nat): nat {
    if |records| < limit then 0 else |records| - limit
  }

  lemma GoingEvicts(entries: map<string, Manager.Entry>, records: seq<Completion>, evicted: seq<Completion>, cutoff: int, limit: nat)
    requires Ascending(records) && Elements(records) == Candidates(entries) && |records| == |Candidates(entries)|
    requires evicted == records[..Going(records, cutoff, OverLimit(records, limit))]
    ensures Evicts(entries, evicted, cutoff, limit)
  {
    var count := OverLimit(records, limit);
    var p := Going(records, cutoff, count);
    if p > 0 && records[p-1].completedAt > cutoff {
      assert p - 1 < count;
    }
    PrefixEvicts(entries, records, p, cutoff, limit);
  }

  /** The loop of `evictCompleted` over the ordered records. */
  method EvictRecords(manager: Manager.Manager, records: seq<Completion>, count: nat, cutoff: int) returns (evicted: seq<Completion>)
    requires Ascending(records) && count <= |records|
    modifies manager`executions
    ensures evicted == records[..Going(records, cutoff, count)]
    ensures manager.executions == old(manager.executions) - Ids(evicted)
  {
    ghost var p := Going(records, cutoff, count);
    evicted := [];
    for index := 0 to |records|
      invariant |evicted| == (if index < p then index else p) && evicted == records[..|evicted|]
      invariant manager.executions == old(manager.executions) - Ids(evicted)
    {
      if index >= count && records[index].completedAt > cutoff {
        continue;
      }
      IdsAppend(evicted, records[index]);
      manager.executions := manager.executions - {records[index].id};
      evicted := evicted + [records[index]];
    }
  }

  /** `evictCompleted`. */
  method EvictCompleted(manager: Manager.Manager, now: int, retention: nat, limit: nat) returns (evicted: seq<Completion>)
    modifies manager`executions
    ensures Evicts(old(manager.executions), evicted, now - retention, limit)
    ensures manager.executions == old(manager.executions) - Ids(evicted)
  {
    ghost var entries := manager.executions;
    var records := Listed(Done(manager.executions));
    var count := OverLimit(records, limit);
    evicted := EvictRecords(manager, records, count, now - retention);
    GoingEvicts(entries, records, evicted, now - retention, limit);
  }

  /** The executions that have given their slot back. */
  function Inactive(entries: map<string, Manager.Entry>): set<string> {
    set id | id in entries && !entries[id].active
  }

  /** What an eviction means to the registry after any history: every active execution stays; of those that have
      ended at most the limit stay, all younger than the cutoff and behind everything that went, by completion
      time and then by ID; and if more than the old ones went, exactly the limit is left. */
  lemma EvictionInRegistry(r: Manager.Registry, evicted: seq<Completion>, cutoff: int, limit: nat)
    requires Manager.Inv(r) && Evicts(r.entries, evicted, cutoff, limit)
    ensures var left := r.entries - Ids(evicted);
            && Manager.Enabled(r, Manager.Evict(Ids(evicted))) && Ids(evicted) <= r.entries.Keys
            && (forall id :: id in r.entries && r.entries[id].active ==> id in left)
            && |Inactive(left)| <= limit
            && (forall id :: id in Inactive(left) ==> left[id].completedAt.Some? && left[id].completedAt.value > cutoff)
            && (forall e :: e in evicted ==> WasCompleted(r.entries, e))
            && (forall e, id :: e in evicted && id in Inactive(left) ==> WentFirst(e, id, left[id].completedAt.value))
            && ((exists e :: e in evicted && e.completedAt > cutoff) ==> |Inactive(left)| == limit)
  {
    var left := r.entries - Ids(evicted);
    var stay := Candidates(r.entries) - Elements(evicted);
    InactiveIsCompleted(r);
    StayingRecords(r.entries, evicted);
    forall e | e in evicted
      ensures WasCompleted(r.entries, e)
    {
      assert e in Elements(evicted);
    }
    forall id | id in Inactive(left)
      ensures left[id].completedAt.Some? && Completion(id, left[id].completedAt.value) in stay
    {
      StayingRecord(r.entries, evicted, id);
    }
    forall e, id | e in evicted && id in Inactive(left)
      ensures WentFirst(e, id, left[id].completedAt.value)
    {
      assert Before(e, Completion(id, left[id].completedAt.value));
    }
    if e :| e in evicted && e.completedAt > cutoff {
      LastIsYoung(evicted, e, cutoff);
    }
  }

  /** The earlier completion went first, and of two at the same time the lesser ID. */
  predicate WentFirst(e: Completion, id: string, at: int) {
    e.completedAt < at || (e.completedAt == at && Ordering.Less(e.id, id))
  }

  predicate WasCompleted(entries: map<string, Manager.Entry>, e: Completion) {
    e.id in entries && !entries[e.id].active && entries[e.id].completedAt == Some(e.completedAt)
  }

  lemma InactiveIsCompleted(r: Manager.Registry)
    requires Manager.Inv(r)
    ensures forall id :: id in r.entries && !r.entries[id].active ==> Completed(r.entries[id])
  {
    forall id | id in r.entries && !r.entries[id].active
      ensures Completed(r.entries[id])
    {
      assert Manager.EntryInv(r.entries[id]);
    }
  }

  lemma StayingRecord(entries: map<string, Manager.Entry>, evicted: seq<Completion>, id: string)
    requires id in Inactive(entries - Ids(evicted)) && Completed(entries[id])
    ensures Completion(id, entries[id].completedAt.value) in Candidates(entries) - Elements(evicted)
  {
    assert id in Done(entries);
    assert Completion(id, Done(entries)[id]) in Records(Done(entries));
  }

  lemma {:induction false} RecordsSize(times: map<string, int>)
    ensures |Records(times)| == |times.Keys|
    decreases |times|
  {
    if times != map[] {
      var id :| id in times;
      var rest := times - {id};
      assert times == rest[id := times[id]];
      assert times.Keys == rest.Keys + {id};
      RecordsSize(rest);
      RecordsGrow(rest, id, times[id]);
    } else {
      assert Records(times) == {};
    }
  }

  /** What an eviction leaves are the records of the executions that stay. */
  lemma StayingRecords(entries: map<string, Manager.Entry>, evicted: seq<Completion>)
    requires Elements(evicted) <= Candidates(entries)
    requires forall id :: id in entries && !entries[id].active ==> Completed(entries[id])
    ensures |Inactive(entries - Ids(evicted))| == |Candidates(entries) - Elements(evicted)|
  {
    var left := entries - Ids(evicted);
    var times := map id | id in Inactive(left) :: Done(entries)[id];
    forall x
      ensures x in Records(times) <==> x in Candidates(entries) - Elements(evicted)
    {
      if x in Candidates(entries) - Elements(evicted) {
        forall e | e in evicted && e.id == x.id
          ensures e == x
        {
          assert e in Elements(evicted);
        }
        assert x.id !in Ids(evicted) by {
          assert x !in Elements(evicted);
        }
        assert x.id in times;
      }
      if x in Records(times) {
        assert x.id in Done(entries);
        assert x in Elements(evicted) ==> x.id in Ids(evicted);
      }
    }
    assert Records(times) == Candidates(entries) - Elements(evicted);
    assert times.Keys == Inactive(left);
    RecordsSize(times);
  }

  lemma LastIsYoung(evicted: seq<Completion>, e: Completion, cutoff: int)
    requires Ascending(evicted) && e in evicted && e.completedAt > cutoff
    ensures evicted[|evicted|-1].completedAt > cutoff
  {
    var i :| 0 <= i < |evicted| && evicted[i] == e;
    YoungFromHere(evicted, i, cutoff);
  }
  // ---------- Logs ----------

  /** What is pending after one more log has been tried. */
  lemma OneTried(was: map<string, int>, tried: seq<Completion>, log: Completion, removable: set<string>)
    ensures var pending := was - (Ids(tried) * removable);
            was - (Ids(tried + [log]) * removable) == if log.id in removable then pending - {log.id} else pending
    ensures Ids(tried + [log]) <= removable <==> Ids(tried) <= removable && log.id in removable
  {
    IdsAppend(tried, log);
    var more := Ids(tried + [log]) * removable;
    assert more == if log.id in removable then Ids(tried) * removable + {log.id} else Ids(tried) * removable;
  }

  lemma EveryLogListed(times: map<string, int>, logs: seq<Completion>)
    requires Elements(logs) == Records(times)
    ensures Ids(logs) == times.Keys
  {
    forall id | id in times
      ensures id in Ids(logs)
    {
      assert Completion(id, times[id]) in Elements(logs);
    }
    forall e | e in logs
      ensures e.id in times
    {
      assert e in Elements(logs);
    }
  }

  /** Every pending log has the completion time it was pending with, or was evicted with. */
  predicate ComesFrom(pending: map<string, int>, before: map<string, int>, evicted: seq<Completion>) {
    forall id :: id in pending ==>
      Completion(id, pending[id]) in evicted || (id !in Ids(evicted) && id in before && pending[id] == before[id])
  }

  class Collector {
    const retention: nat
    const maxRetained: nat
    var pending: map<string, int>

    constructor (retention: nat, maxRetained: nat)
      ensures this.retention == retention && this.maxRetained == maxRetained && pending == map[]
    {
      this.retention, this.maxRetained := retention, maxRetained;
      pending := map[];
    }

    method AddPending(evicted: seq<Completion>)
      modifies this`pending
      ensures pending.Keys == old(pending).Keys + Ids(evicted) && ComesFrom(pending, old(pending), evicted)
    {
      for i := 0 to |evicted|
        invariant pending.Keys == old(pending).Keys + Ids(evicted[..i]) && ComesFrom(pending, old(pending), evicted[..i])
      {
        assert evicted[..i+1] == evicted[..i] + [evicted[i]];
        IdsAppend(evicted[..i], evicted[i]);
        pending := pending[evicted[i].id := evicted[i].completedAt];
      }
      assert evicted[..|evicted|] == evicted;
    }

    /** Tries every pending log once, in order; `removable` are those whose deletion succeeds. */
    method RemoveLogs(removable: set<string>) returns (ok: bool)
      modifies this`pending
      ensures pending == old(pending) - removable
      ensures ok <==> old(pending).Keys <= removable
    {
      ghost var was := pending;
      var logs := Listed(pending);
      ok := true;
      for i := 0 to |logs|
        invariant pending == was - (Ids(logs[..i]) * removable)
        invariant ok <==> Ids(logs[..i]) <= removable
      {
        assert logs[..i+1] == logs[..i] + [logs[i]];
        OneTried(was, logs[..i], logs[i], removable);
        if logs[i].id in removable {
          pending := pending - {logs[i].id};
        } else {
          ok := false;
        }
      }
      assert logs[..|logs|] == logs;
      EveryLogListed(was, logs);
    }

    /** `CompletedExecutionGC.Run`: a log of an evicted execution stays pending until it is gone. */
    method Run(manager: Manager.Manager, now: int, removable: set<string>) returns (evicted: seq<Completion>, ok: bool)
      modifies this`pending, manager`executions
      ensures Evicts(old(manager.executions), evicted, now - retention, maxRetained)
      ensures manager.executions == old(manager.executions) - Ids(evicted)
      ensures pending.Keys == old(pending).Keys + Ids(evicted) - removable && ComesFrom(pending, old(pending), evicted)
      ensures ok <==> pending.Keys == {}
    {
      evicted := EvictCompleted(manager, now, retention, maxRetained);
      AddPending(evicted);
      ok := RemoveLogs(removable);
    }
  }
}
