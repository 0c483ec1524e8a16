/** The single TTL timer loop, its callbacks and startup recovery over one index of leases, against a store
    that renews and terminates sandboxes without telling the index
    (internal/reconcile/ttl_scheduler.go:58-110, internal/reconcile/ttl_due_validator.go:51-87,
    internal/reconcile/ttl_expiration.go:47-81, internal/reconcile/ttl_recovery.go:36-64). The index is the
    map that the TTL heap refines. */
module TimerCoverage {
  import opened Wrappers
  import opened HeapOrder

  /** What the store says about a sandbox: whether it still wants to run and is not Terminated, and its expiry. */
  datatype Lease = Lease(active: bool, expiry: int)

  /** A thread inside `ExpireEntry` or `Recover`, for one sandbox. */
  datatype Flight =
    | Landed
    | Calling(e: Entry, left: nat)                      // before Validate reads the store
    | Read(e: Entry, snap: Lease, left: nat)            // before Validate reads the clock
    | Checked(e: Entry, snap: Lease, left: nat)         // before ExpireIntent
    | ToUpsert(e: Entry)
    | ToRemove(e: Entry)
    | Notifying                                         // the index has changed, the token is not sent yet

  /** The timer loop. `seen` is the index when it peeked. */
  datatype Loop =
    | Peeking
    | Peeked(seen: map<string, int>, target: int)
    | Popping(now: int)
    | Firing(batch: seq<Entry>)
    | Armed(seen: map<string, int>, target: int)        // the timer is set, the second look at the clock is next
    | Sleeping(seen: map<string, int>, alarm: Option<int>)
    | Stopped

  datatype State = State(
    store: map<string, Lease>, index: map<string, int>, clock: int, token: bool, loop: Loop, callback: Flight,
    others: seq<Flight>, indexed: set<string>, failed: set<string>)

  const ATTEMPTS := 3

  datatype FlightAct =
    | ReadStore
    | StoreFails
    | ReadClock
    | Commit(wins: bool)
    | Upsert
    | Remove
    | Notify

  predicate FlightEnabled(s: State, f: Flight, a: FlightAct) {
    match a
    case ReadStore => f.Calling?
    case StoreFails => f.Calling? || f.Checked?
    case ReadClock => f.Read?
    case Commit(wins) => f.Checked? && (wins ==> f.e.id in s.store && s.store[f.e.id] == f.snap)
    case Upsert => f.ToUpsert?
    case Remove => f.ToRemove?
    case Notify => f.Notifying?
  }

  /** `sandboxLeaseDue` and the comparison with the entry's expiry. */
  predicate Due(snap: Lease, e: Entry, now: int) {
    snap.active && snap.expiry == e.expiry && snap.expiry <= now
  }

  /** One step of a thread: the new state and where the thread is. */
  function FlightStep(s: State, f: Flight, a: FlightAct): (State, Flight)
    requires FlightEnabled(s, f, a)
  {
    match a
    case ReadStore =>
      (s, if f.e.id !in s.store then ToRemove(f.e) else Read(f.e, s.store[f.e.id], f.left))
    case StoreFails => (s.(failed := s.failed + {f.e.id}), Landed)
    case ReadClock =>
      (s, if !f.snap.active then ToRemove(f.e)
          else if Due(f.snap, f.e, s.clock) then Checked(f.e, f.snap, f.left)
          else ToUpsert(Entry(f.e.id, f.snap.expiry)))
    case Commit(wins) =>
      if wins then (s.(store := s.store[f.e.id := f.snap.(active := false)]), ToRemove(f.e))
      else if f.left > 1 then (s, Calling(f.e, f.left - 1))
      else (s.(failed := s.failed + {f.e.id}), Landed)
    case Upsert =>
      (s.(index := s.index[f.e.id := f.e.expiry], indexed := s.indexed + {f.e.id}),
       if f.e.id in s.index && s.index[f.e.id] == f.e.expiry then Landed else Notifying)
    case Remove => (s.(index := s.index - {f.e.id}), if f.e.id in s.index then Notifying else Landed)
    case Notify => (s.(token := true), Landed)
  }

  predicate IsEarliest(index: map<string, int>, id: string) {
    id in index && forall other :: other in index ==> index[id] <= index[other]
  }

  /** What `popDue` returns. */
  ghost predicate IsDueBatch(index: map<string, int>, now: int, batch: seq<Entry>) {
    forall e: Entry :: e in batch <==> e.id in index && index[e.id] == e.expiry <= now
  }

  datatype Act =
    | Tick(now: int)
    | Create(id: string, expiry: int)
    | Renew(id: string, expiry: int)
    | Terminate(id: string)
    | Recover(t: nat, id: string)                 // recovery reads a record of its page
    | Other(t: nat, act: FlightAct)
    | Callback(act: FlightAct)
    | Peek(id: string)
    | PeekEmpty
    | LookAtClock
    | Pop(batch: seq<Entry>)
    | Fire                                        // the next callback of the batch, or back to the top
    | LookAgain
    | Wake                                        // the token
    | Ring                                        // the timer
    | Stop

  ghost predicate Enabled(s: State, a: Act) {
    match a
    case Tick(now) => now >= s.clock
    case Create(id, _) => id !in s.store
    case Renew(id, expiry) => id in s.store && s.store[id].active && expiry > s.store[id].expiry
    case Terminate(id) => id in s.store
    case Recover(t, id) => t < |s.others| && s.others[t].Landed? && id in s.store && s.store[id].active
    case Other(t, act) => t < |s.others| && FlightEnabled(s, s.others[t], act)
    case Callback(act) => s.loop.Firing? && FlightEnabled(s, s.callback, act)
    case Peek(id) => s.loop.Peeking? && IsEarliest(s.index, id)
    case PeekEmpty => s.loop.Peeking? && s.index == map[]
    case LookAtClock => s.loop.Peeked?
    case Pop(batch) => s.loop.Popping? && IsDueBatch(s.index, s.loop.now, batch)
    case Fire => s.loop.Firing? && s.callback.Landed?
    case LookAgain => s.loop.Armed?
    case Wake => s.loop.Sleeping? && s.token
    case Ring => s.loop.Sleeping? && s.loop.alarm.Some? && s.loop.alarm.value <= s.clock
    case Stop => s.loop.Sleeping? || (s.loop.Firing? && s.callback.Landed?)
  }

  function Later(index: map<string, int>, now: int): map<string, int> {
    map id | id in index && index[id] > now :: index[id]
  }

  ghost function Step(s: State, a: Act): State
    requires Enabled(s, a)
  {
    match a
    case Tick(now) => s.(clock := now)
    case Create(id, expiry) => s.(store := s.store[id := Lease(true, expiry)])
    case Renew(id, expiry) => s.(store := s.store[id := Lease(true, expiry)])
    case Terminate(id) => s.(store := s.store[id := s.store[id].(active := false)])
    case Recover(t, id) =>
      var e := Entry(id, s.store[id].expiry);
      s.(others := s.others[t := if e.expiry <= s.clock then Calling(e, ATTEMPTS) else ToUpsert(e)],
         indexed := s.indexed + {id})
    case Other(t, act) =>
      var (s', f) := FlightStep(s, s.others[t], act);
      s'.(others := s.others[t := f])
    case Callback(act) =>
      var (s', f) := FlightStep(s, s.callback, act);
      s'.(callback := f)
    case Peek(id) => s.(loop := Peeked(s.index, s.index[id]))
    case PeekEmpty => s.(loop := Sleeping(s.index, None))
    case LookAtClock =>
      s.(loop := if s.loop.target <= s.clock then Popping(s.clock) else Armed(s.loop.seen, s.loop.target))
    case Pop(batch) => s.(loop := Firing(batch), index := Later(s.index, s.loop.now))
    case Fire =>
      if s.loop.batch == [] then s.(loop := Peeking)
      else s.(loop := Firing(s.loop.batch[1..]), callback := Calling(s.loop.batch[0], ATTEMPTS))
    case LookAgain => s.(loop := if s.loop.target <= s.clock then Peeking else Sleeping(s.loop.seen, Some(s.loop.target)))
    case Wake => s.(token := false, loop := Peeking)
    case Ring => s.(loop := Peeking)
    case Stop => s.(loop := Stopped)
  }

  predicate Init(s: State) {
    && s.store == map[] && s.index == map[] && !s.token && s.loop.Peeking? && s.callback.Landed?
    && s.indexed == {} && s.failed == {}
    && forall t :: 0 <= t < |s.others| ==> s.others[t].Landed?
  }

  // ---------- Invariant ----------

  predicate Active(s: State, id: string) {
    id in s.store && s.store[id].active
  }

  /** The thread will still do something about this sandbox. */
  predicate Carries(f: Flight, id: string) {
    (f.Calling? || f.Read? || f.Checked? || f.ToUpsert?) && f.e.id == id
  }

  predicate InBatch(l: Loop, id: string) {
    l.Firing? && exists i :: 0 <= i < |l.batch| && l.batch[i].id == id
  }

  /** A lease as somebody has read it: the store has only moved on since. */
  predicate PastLease(s: State, id: string, snap: Lease) {
    id in s.store && snap.expiry <= s.store[id].expiry && (!snap.active ==> !s.store[id].active)
  }

  predicate FlightInv(s: State, f: Flight) {
    match f
    case Read(e, snap, _) => PastLease(s, e.id, snap)
    case Checked(e, snap, _) => PastLease(s, e.id, snap) && snap.active
    case ToUpsert(e) => e.id in s.store && e.expiry <= s.store[e.id].expiry
    case ToRemove(e) => e.id in s.store && !s.store[e.id].active
    case Calling(e, _) => e.id in s.store
    case _ => true
  }

  predicate Announced(s: State) {
    s.token || s.callback.Notifying? || exists t :: 0 <= t < |s.others| && s.others[t].Notifying?
  }

  /** The timer is set for the earliest entry, unless a token is there or on its way. */
  predicate LoopInv(s: State) {
    match s.loop
    case Firing(batch) => forall i :: 0 <= i < |batch| ==> batch[i].id in s.store
    case Peeked(seen, target) => (seen == s.index || Announced(s)) && Covers(seen, Some(target))
    case Armed(seen, target) => (seen == s.index || Announced(s)) && Covers(seen, Some(target))
    case Sleeping(seen, alarm) => (seen == s.index || Announced(s)) && Covers(seen, alarm)
    case _ => true
  }

  /** No entry is before the target; without a target there is no entry. */
  predicate Covers(seen: map<string, int>, target: Option<int>) {
    forall id :: id in seen ==> target.Some? && target.value <= seen[id]
  }

  /** Every indexed sandbox that is still active is in the index, no later than the store says, or somebody
      is about to deal with it, or a callback has failed on it. */
  predicate Covered(s: State, id: string) {
    || id in s.index
    || Carries(s.callback, id) || InBatch(s.loop, id)
    || (exists t :: 0 <= t < |s.others| && Carries(s.others[t], id))
    || id in s.failed
  }

  ghost predicate Inv(s: State) {
    && (forall id :: id in s.index ==> id in s.store && (Active(s, id) ==> s.index[id] <= s.store[id].expiry))
    && (forall id :: id in s.indexed ==> id in s.store)
    && FlightInv(s, s.callback) && (forall t :: 0 <= t < |s.others| ==> FlightInv(s, s.others[t]))
    && (!s.loop.Firing? ==> s.callback.Landed?)
    && LoopInv(s)
    && (!s.loop.Stopped? ==> forall id :: id in s.indexed && Active(s, id) ==> Covered(s, id))
  }

  lemma InitInv(s: State)
    requires Init(s)
    ensures Inv(s)
  {
  }

  /** A step of one thread: what it leaves for the others to rely on. */
  predicate Around(s: State, s': State) {
    && s'.clock == s.clock && (s.token ==> s'.token) && s'.loop == s.loop && s.failed <= s'.failed
    && s.store.Keys <= s'.store.Keys
    && (forall id :: id in s.store ==> PastLease(s', id, s.store[id]))
  }

  lemma FlightKept(s: State, s': State, f: Flight)
    requires Around(s, s') && FlightInv(s, f)
    ensures FlightInv(s', f)
  {
    if !f.Landed? && !f.Notifying? {
      assert PastLease(s', f.e.id, s.store[f.e.id]);
    }
  }

  /** What the step of one thread does to the index, to its sandbox and to itself. */
  lemma FlightStepDoes(s: State, f: Flight, a: FlightAct)
    requires FlightEnabled(s, f, a) && FlightInv(s, f)
    requires forall id :: id in s.index ==> id in s.store && (Active(s, id) ==> s.index[id] <= s.store[id].expiry)
    ensures var (s', f') := FlightStep(s, f, a);
            && Around(s, s') && FlightInv(s', f')
            && s'.callback == s.callback && s'.others == s.others
            && (forall id :: id in s'.index ==> id in s'.store && (Active(s', id) ==> s'.index[id] <= s'.store[id].expiry))
            && (s'.index != s.index ==> f'.Notifying?)
            && (f.Notifying? ==> s'.token)
            && (forall id :: id in s.index && Active(s', id) ==> id in s'.index)
            && (forall id :: Carries(f, id) && Active(s', id) ==> id in s'.index || id in s'.failed || Carries(f', id))
            && (forall id :: id in s'.indexed && id !in s.indexed ==> id in s'.index && id in s'.store)
            && (forall id :: Active(s', id) ==> Active(s, id))
  {
    var (s', f') := FlightStep(s, f, a);
    if a.Upsert? && f.e.id in s.index && s.index[f.e.id] == f.e.expiry {
      assert s'.index == s.index;
    }
    if a.Remove? && f.e.id !in s.index {
      assert s'.index == s.index;
    }
  }

  /** Coverage survives a step that keeps every carrier, the batch and the index for active sandboxes. */
  lemma CoveredKept(s: State, s': State, id: string)
    requires Covered(s, id) && s.failed <= s'.failed && |s.others| == |s'.others|
    requires id in s.index ==> id in s'.index
    requires Carries(s.callback, id) ==> Carries(s'.callback, id) || id in s'.index || id in s'.failed
    requires InBatch(s.loop, id) ==> InBatch(s'.loop, id) || Carries(s'.callback, id)
    requires forall t :: 0 <= t < |s.others| && Carries(s.others[t], id) ==>
               Carries(s'.others[t], id) || id in s'.index || id in s'.failed
    ensures Covered(s', id)
  {
    if t :| 0 <= t < |s.others| && Carries(s.others[t], id) {
      assert Carries(s'.others[t], id) || id in s'.index || id in s'.failed;
    }
  }

  lemma OtherInv(s: State, t: nat, a: FlightAct)
    requires Inv(s) && Enabled(s, Other(t, a))
    ensures Inv(Step(s, Other(t, a)))
  {
    var (s1, f) := FlightStep(s, s.others[t], a);
    var s' := s1.(others := s.others[t := f]);
    FlightStepDoes(s, s.others[t], a);
    FlightKept(s, s1, s.callback);
    forall u | 0 <= u < |s'.others|
      ensures FlightInv(s', s'.others[u])
    {
      if u != t {
        FlightKept(s, s1, s.others[u]);
      }
    }
    OtherLoop(s, t, a);
    if !s.loop.Stopped? {
      forall id | id in s'.indexed && Active(s', id)
        ensures Covered(s', id)
      {
        if id in s.indexed {
          CoveredKept(s, s', id);
        }
      }
    }
  }

  /** A thread that changes the index is about to say so. */
  lemma OtherLoop(s: State, t: nat, a: FlightAct)
    requires Inv(s) && Enabled(s, Other(t, a))
    ensures LoopInv(Step(s, Other(t, a)))
  {
    var (s1, f) := FlightStep(s, s.others[t], a);
    var s' := Step(s, Other(t, a));
    FlightStepDoes(s, s.others[t], a);
    if f.Notifying? {
      assert s'.others[t].Notifying?;
    } else if u :| 0 <= u < |s.others| && s.others[u].Notifying? {
      assert u != t ==> s'.others[u].Notifying?;
    }
  }

  lemma CallbackInv(s: State, a: FlightAct)
    requires Inv(s) && Enabled(s, Callback(a))
    ensures Inv(Step(s, Callback(a)))
  {
    var (s1, f) := FlightStep(s, s.callback, a);
    var s' := s1.(callback := f);
    FlightStepDoes(s, s.callback, a);
    forall u | 0 <= u < |s'.others|
      ensures FlightInv(s', s'.others[u])
    {
      FlightKept(s, s1, s.others[u]);
    }
    forall id | id in s'.indexed && Active(s', id)
      ensures Covered(s', id)
    {
      if id in s.indexed {
        CoveredKept(s, s', id);
      }
    }
  }

  /** The store and the clock move on by themselves. */
  lemma StoreInv(s: State, a: Act)
    requires Inv(s) && Enabled(s, a) && (a.Tick? || a.Create? || a.Renew? || a.Terminate?)
    ensures Inv(Step(s, a))
  {
    var s' := Step(s, a);
    forall id | id in s.store
      ensures PastLease(s', id, s.store[id])
    {
    }
    StoreFlights(s, s');
    forall id | id in s'.indexed && Active(s', id)
      ensures s'.loop.Stopped? || Covered(s', id)
    {
      if !s.loop.Stopped? {
        CoveredKept(s, s', id);
      }
    }
  }

  lemma StoreFlights(s: State, s': State)
    requires Inv(s) && s'.callback == s.callback && s'.others == s.others
    requires forall id :: id in s.store ==> PastLease(s', id, s.store[id])
    ensures FlightInv(s', s'.callback) && forall t :: 0 <= t < |s'.others| ==> FlightInv(s', s'.others[t])
  {
    var frame := s.(store := s'.store);
    assert Around(s, frame);
    FlightKept(s, frame, s.callback);
    forall t | 0 <= t < |s.others|
      ensures FlightInv(s', s'.others[t])
    {
      FlightKept(s, frame, s.others[t]);
    }
  }

  lemma RecoverInv(s: State, a: Act)
    requires Inv(s) && Enabled(s, a) && a.Recover?
    ensures Inv(Step(s, a))
  {
    var s' := Step(s, a);
    forall id | id in s'.indexed && Active(s', id)
      ensures s'.loop.Stopped? || Covered(s', id)
    {
      if !s.loop.Stopped? {
        if id == a.id {
          assert Carries(s'.others[a.t], id);
        } else {
          CoveredKept(s, s', id);
        }
      }
    }
    RecoverLoop(s, a);
  }

  lemma RecoverLoop(s: State, a: Act)
    requires Inv(s) && Enabled(s, a) && a.Recover?
    ensures LoopInv(Step(s, a))
  {
    var s' := Step(s, a);
    if u :| 0 <= u < |s.others| && s.others[u].Notifying? {
      assert s'.others[u].Notifying?;
    }
  }

  /** The timer loop's own steps, except popping. */
  lemma LoopStepInv(s: State, a: Act)
    requires Inv(s) && Enabled(s, a)
    requires a.Peek? || a.PeekEmpty? || a.LookAtClock? || a.LookAgain? || a.Wake? || a.Ring? || a.Stop?
    ensures Inv(Step(s, a))
  {
    var s' := Step(s, a);
    if !s'.loop.Stopped? {
      forall id | id in s'.indexed && Active(s', id)
        ensures Covered(s', id)
      {
        CoveredKept(s, s', id);
      }
    }
  }

  lemma FireInv(s: State, a: Act)
    requires Inv(s) && Enabled(s, a) && a.Fire?
    ensures Inv(Step(s, a))
  {
    var s' := Step(s, a);
    forall id | id in s'.indexed && Active(s', id)
      ensures Covered(s', id)
    {
      if InBatch(s.loop, id) {
        var i :| 0 <= i < |s.loop.batch| && s.loop.batch[i].id == id;
        if i > 0 {
          assert s'.loop.batch[i-1].id == id;
        }
      }
      CoveredKept(s, s', id);
    }
  }

  lemma PopInv(s: State, a: Act)
    requires Inv(s) && Enabled(s, a) && a.Pop?
    ensures Inv(Step(s, a))
  {
    var s' := Step(s, a);
    forall i | 0 <= i < |a.batch|
      ensures a.batch[i].id in s.store
    {
      assert a.batch[i] in a.batch;
    }
    forall id | id in s'.indexed && Active(s', id)
      ensures Covered(s', id)
    {
      if id in s.index && s.index[id] <= s.loop.now {
        var e := Entry(id, s.index[id]);
        assert e in a.batch;
        var i :| 0 <= i < |a.batch| && a.batch[i] == e;
        assert s'.loop.batch[i].id == id;
      } else {
        CoveredKept(s, s', id);
      }
    }
  }

  lemma StepInv(s: State, a: Act)
    requires Inv(s) && Enabled(s, a)
    ensures Inv(Step(s, a))
  {
    match a {
      case Tick(_) => StoreInv(s, a);
      case Create(_, _) => StoreInv(s, a);
      case Renew(_, _) => StoreInv(s, a);
      case Terminate(_) => StoreInv(s, a);
      case Recover(_, _) => RecoverInv(s, a);
      case Other(t, act) => OtherInv(s, t, act);
      case Callback(act) => CallbackInv(s, act);
      case Fire => FireInv(s, a);
      case Pop(_) => PopInv(s, a);
      case _ => LoopStepInv(s, a);
    }
  }

  // ---------- Runs ----------

  ghost predicate Runs(s: State, acts: seq<Act>)
    decreases acts
  {
    acts != [] ==> Enabled(s, acts[0]) && Runs(Step(s, acts[0]), acts[1..])
  }

  ghost function After(s: State, acts: seq<Act>): State
    requires Runs(s, acts)
    decreases acts
  {
    if acts == [] then s else After(Step(s, acts[0]), acts[1..])
  }

  lemma {:induction false} RunInv(s: State, acts: seq<Act>)
    requires Inv(s) && Runs(s, acts)
    ensures Inv(After(s, acts))
    decreases acts
  {
    if acts != [] {
      StepInv(s, acts[0]);
      RunInv(Step(s, acts[0]), acts[1..]);
    }
  }

  /** In every interleaving: as long as the loop runs, an indexed sandbox that is still active is in the
      index with an expiry no later than the store's, or in a running callback, or its callback failed. */
  lemma IndexedIsCovered(s: State, acts: seq<Act>, id: string)
    requires Init(s) && Runs(s, acts)
    ensures var s' := After(s, acts);
            id in s'.indexed && Active(s', id) && !s'.loop.Stopped? ==>
              Covered(s', id) && (id in s'.index ==> s'.index[id] <= s'.store[id].expiry)
  {
    InitInv(s);
    RunInv(s, acts);
  }

  /** No lease fires late: when the loop sleeps with nothing announced, its timer is set for no later than
      the store's expiry of any active sandbox in the index, however often that was renewed. So when the
      lease runs out the timer can ring. */
  lemma TimerIsNeverLate(s: State, acts: seq<Act>, id: string)
    requires Init(s) && Runs(s, acts)
    requires var s' := After(s, acts); s'.loop.Sleeping? && !Announced(s') && id in s'.index && Active(s', id)
    ensures var s' := After(s, acts);
            && s'.loop.alarm.Some? && s'.loop.alarm.value <= s'.store[id].expiry
            && (s'.store[id].expiry <= s'.clock ==> Enabled(s', Ring))
  {
    InitInv(s);
    RunInv(s, acts);
  }

  // ---------- What is covered, exactly ----------

  /** The threads, the index, the batch and the failures only ever speak of indexed sandboxes. */
  predicate Known(s: State, f: Flight) {
    f.Calling? || f.Read? || f.Checked? || f.ToUpsert? ==> f.e.id in s.indexed
  }

  ghost predicate KnownInv(s: State) {
    && s.index.Keys <= s.indexed && s.failed <= s.indexed
    && Known(s, s.callback) && (forall t :: 0 <= t < |s.others| ==> Known(s, s.others[t]))
    && (s.loop.Firing? ==> forall i :: 0 <= i < |s.loop.batch| ==> s.loop.batch[i].id in s.indexed)
  }

  predicate Recovers(a: Act) {
    a.Recover?
  }

  lemma FlightKnown(s: State, f: Flight, a: FlightAct)
    requires KnownInv(s) && Known(s, f) && FlightEnabled(s, f, a)
    ensures var (s', f') := FlightStep(s, f, a);
            && KnownInv(s') && Known(s', f') && s'.indexed == s.indexed
            && s'.callback == s.callback && s'.others == s.others && s'.loop == s.loop
  {
  }

  lemma PopKnown(s: State, a: Act)
    requires KnownInv(s) && Enabled(s, a) && a.Pop?
    ensures KnownInv(Step(s, a))
  {
    forall i | 0 <= i < |a.batch|
      ensures a.batch[i].id in s.indexed
    {
      assert a.batch[i] in a.batch;
    }
  }

  /** Only recovery indexes a sandbox that was not indexed before. */
  lemma KnownStep(s: State, a: Act)
    requires KnownInv(s) && Enabled(s, a)
    ensures KnownInv(Step(s, a)) && s.indexed <= Step(s, a).indexed
    ensures !Recovers(a) ==> Step(s, a).indexed == s.indexed
  {
    match a {
      case Other(t, act) => FlightKnown(s, s.others[t], act);
      case Callback(act) => FlightKnown(s, s.callback, act);
      case Pop(_) => PopKnown(s, a);
      case _ =>
    }
  }

  lemma {:induction false} RunKnown(s: State, acts: seq<Act>)
    requires KnownInv(s) && Runs(s, acts)
    ensures KnownInv(After(s, acts)) && s.indexed <= After(s, acts).indexed
    ensures (forall i :: 0 <= i < |acts| ==> !Recovers(acts[i])) ==> After(s, acts).indexed == s.indexed
    decreases acts
  {
    if acts != [] {
      KnownStep(s, acts[0]);
      RunKnown(Step(s, acts[0]), acts[1..]);
    }
  }

  lemma CoveredIsIndexed(s: State, id: string)
    requires KnownInv(s) && Covered(s, id)
    ensures id in s.indexed
  {
  }

  /** After every run, as long as the loop is running, an active sandbox is covered exactly if recovery has ever
      indexed it. */
  lemma CoveredExactly(s: State, acts: seq<Act>, id: string)
    requires Init(s) && Runs(s, acts) && Active(After(s, acts), id) && !After(s, acts).loop.Stopped?
    ensures Covered(After(s, acts), id) <==> id in After(s, acts).indexed
  {
    IndexedIsCovered(s, acts, id);
    RunKnown(s, acts);
    if Covered(After(s, acts), id) {
      CoveredIsIndexed(After(s, acts), id);
    }
  }

  /** A sandbox that is created after recovery has ended is never covered, whatever happens to it. */
  lemma CreatedLaterIsNeverCovered(s: State, past: seq<Act>, future: seq<Act>, id: string)
    requires Init(s) && Runs(s, past) && id !in After(s, past).store && Runs(After(s, past), future)
    requires forall i :: 0 <= i < |future| ==> !Recovers(future[i])
    ensures !Covered(After(After(s, past), future), id)
  {
    InitInv(s);
    RunInv(s, past);
    RunKnown(s, past);
    RunKnown(After(s, past), future);
    var last := After(After(s, past), future);
    if Covered(last, id) {
      CoveredIsIndexed(last, id);
    }
  }

  /** The run itself: a sandbox is created, its lease runs out, and the loop sleeps without an alarm. */
  lemma NewSandboxIsNotCovered(s: State)
    requires Init(s) && s.clock <= 20
    ensures var acts := [Create("a", 10), Tick(20), PeekEmpty];
            && Runs(s, acts)
            && var last := After(s, acts);
               && Active(last, "a") && last.store["a"].expiry < last.clock && !Covered(last, "a")
               && last.loop == Sleeping(map[], None) && !Announced(last)
  {
    var acts := [Create("a", 10), Tick(20), PeekEmpty];
    var s1 := Step(s, Create("a", 10));
    var s2 := Step(s1, Tick(20));
    assert acts[1..] == [Tick(20), PeekEmpty] && acts[1..][1..] == [PeekEmpty] && [PeekEmpty][1..] == [];
    assert Enabled(s2, PeekEmpty);
    assert Runs(s2, [PeekEmpty]) && After(s2, [PeekEmpty]) == Step(s2, PeekEmpty);
    assert Runs(s1, acts[1..]) && After(s1, acts[1..]) == Step(s2, PeekEmpty);
  }

  // ---------- Stale timers ----------

  /** A thread that is about to commit has seen its own entry due. */
  predicate SawDue(s: State, f: Flight) {
    f.Checked? ==> Due(f.snap, f.e, s.clock)
  }

  ghost predicate DueInv(s: State) {
    SawDue(s, s.callback) && forall t :: 0 <= t < |s.others| ==> SawDue(s, s.others[t])
  }

  lemma FlightSawDue(s: State, f: Flight, a: FlightAct)
    requires FlightEnabled(s, f, a) && SawDue(s, f)
    ensures var (s', f') := FlightStep(s, f, a);
            SawDue(s', f') && s'.clock == s.clock && s'.callback == s.callback && s'.others == s.others
  {
  }

  lemma DueStep(s: State, a: Act)
    requires DueInv(s) && Enabled(s, a)
    ensures DueInv(Step(s, a))
  {
    match a {
      case Other(t, act) => FlightSawDue(s, s.others[t], act);
      case Callback(act) => FlightSawDue(s, s.callback, act);
      case _ =>
    }
  }

  lemma {:induction false} RunDue(s: State, acts: seq<Act>)
    requires DueInv(s) && Runs(s, acts)
    ensures DueInv(After(s, acts))
    decreases acts
  {
    if acts != [] {
      DueStep(s, acts[0]);
      RunDue(Step(s, acts[0]), acts[1..]);
    }
  }

  /** The thread that takes a step inside `ExpireEntry` or `Recover`. */
  function FlightOf(s: State, a: Act): Flight
    requires Enabled(s, a) && (a.Other? || a.Callback?)
  {
    if a.Other? then s.others[a.t] else s.callback
  }

  /** After every run, a thread of the scheduler that changes the store terminates a sandbox whose current lease
      is its entry's and has run out; a stale timer changes nothing. */
  lemma TimersTerminateOnlyDue(s: State, past: seq<Act>, a: Act)
    requires Init(s) && Runs(s, past) && Enabled(After(s, past), a) && (a.Other? || a.Callback?)
    requires Step(After(s, past), a).store != After(s, past).store
    ensures var m := After(s, past);
            var e := FlightOf(m, a).e;
            && Active(m, e.id) && m.store[e.id].expiry == e.expiry <= m.clock
            && Step(m, a).store == m.store[e.id := Lease(false, e.expiry)]
  {
    RunDue(s, past);
    assert SawDue(After(s, past), FlightOf(After(s, past), a));
  }

  /** A callback with a stale entry, one whose expiry is not the store's or that is not due: left to itself after
      any run it leaves the store alone and puts the store's lease back into the index. */
  lemma StaleOnlyReschedules(s: State, past: seq<Act>)
    requires Init(s) && Runs(s, past)
    requires var m := After(s, past);
             && m.loop.Firing? && m.callback.Calling? && Active(m, m.callback.e.id)
             && (m.store[m.callback.e.id].expiry != m.callback.e.expiry || m.store[m.callback.e.id].expiry > m.clock)
    ensures var m := After(s, past);
            var acts := [Callback(ReadStore), Callback(ReadClock), Callback(Upsert)];
            && Runs(m, acts)
            && var last := After(m, acts);
               && last.store == m.store && last.failed == m.failed
               && last.index == m.index[m.callback.e.id := m.store[m.callback.e.id].expiry]
               && (last.callback.Notifying? || (last.callback.Landed? && last.index == m.index))
  {
    var m := After(s, past);
    var e, left, lease := m.callback.e, m.callback.left, m.store[m.callback.e.id];
    var m1 := m.(callback := Read(e, lease, left));
    var m2 := m.(callback := ToUpsert(Entry(e.id, lease.expiry)));
    var acts := [Callback(ReadStore), Callback(ReadClock), Callback(Upsert)];
    assert Step(m, Callback(ReadStore)) == m1 && Step(m1, Callback(ReadClock)) == m2;
    assert acts[1..] == [Callback(ReadClock), Callback(Upsert)] && acts[1..][1..] == [Callback(Upsert)];
    assert [Callback(Upsert)][1..] == [];
    assert Runs(m2, [Callback(Upsert)]) && After(m2, [Callback(Upsert)]) == Step(m2, Callback(Upsert));
    assert Runs(m1, acts[1..]) && After(m1, acts[1..]) == Step(m2, Callback(Upsert));
  }

  /** These steps lead from one state to the other. */
  ghost predicate Leads(s: State, acts: seq<Act>, s': State) {
    Runs(s, acts) && After(s, acts) == s'
  }

  lemma {:induction false} LeadsOn(s: State, acts: seq<Act>, m: State, a: Act)
    requires Leads(s, acts, m) && Enabled(m, a)
    ensures Leads(s, acts + [a], Step(m, a))
    decreases acts
  {
    if acts == [] {
      assert [] + [a] == [a] && [a][1..] == [];
    } else {
      assert (acts + [a])[1..] == acts[1..] + [a];
      LeadsOn(Step(s, acts[0]), acts[1..], m, a);
    }
  }

  /** The callback is about to expire a lease that has run out. */
  predicate FiresDue(m: State) {
    && m.loop.Firing? && m.callback.Calling? && Active(m, m.callback.e.id)
    && m.store[m.callback.e.id].expiry == m.callback.e.expiry <= m.clock
  }

  lemma ChecksDue(m: State)
    requires FiresDue(m)
    ensures var e := m.callback.e;
            Leads(m, [Callback(ReadStore), Callback(ReadClock)], m.(callback := Checked(e, m.store[e.id], m.callback.left)))
  {
    var e := m.callback.e;
    LeadsOn(m, [], m, Callback(ReadStore));
    LeadsOn(m, [] + [Callback(ReadStore)], m.(callback := Read(e, m.store[e.id], m.callback.left)), Callback(ReadClock));
    assert [] + [Callback(ReadStore)] + [Callback(ReadClock)] == [Callback(ReadStore), Callback(ReadClock)];
  }

  /** Left to itself such a callback terminates the sandbox and takes it out of the index, and nothing else. */
  lemma DueIsTerminated(m: State)
    requires FiresDue(m)
    ensures var e := m.callback.e;
            Leads(m, [Callback(ReadStore), Callback(ReadClock), Callback(Commit(true)), Callback(Remove)],
                  m.(store := m.store[e.id := Lease(false, e.expiry)], index := m.index - {e.id},
                     callback := if e.id in m.index then Notifying else Landed))
  {
    var e := m.callback.e;
    var acts := [Callback(ReadStore), Callback(ReadClock)];
    ChecksDue(m);
    var m2 := m.(callback := Checked(e, m.store[e.id], m.callback.left));
    LeadsOn(m, acts, m2, Callback(Commit(true)));
    var m3 := m.(store := m.store[e.id := Lease(false, e.expiry)], callback := ToRemove(e));
    assert Step(m2, Callback(Commit(true))) == m3;
    LeadsOn(m, acts + [Callback(Commit(true))], m3, Callback(Remove));
    assert acts + [Callback(Commit(true))] + [Callback(Remove)] ==
           [Callback(ReadStore), Callback(ReadClock), Callback(Commit(true)), Callback(Remove)];
  }

  /** One that loses its commit tries again, and only gives its sandbox up with the last attempt, of which the loop
      starts every callback with three. */
  lemma LosersTryAgain(m: State)
    requires FiresDue(m)
    ensures var e, left := m.callback.e, m.callback.left;
            Leads(m, [Callback(ReadStore), Callback(ReadClock), Callback(Commit(false))],
                  if left > 1 then m.(callback := Calling(e, left - 1)) else m.(callback := Landed, failed := m.failed + {e.id}))
  {
    var e := m.callback.e;
    ChecksDue(m);
    LeadsOn(m, [Callback(ReadStore), Callback(ReadClock)], m.(callback := Checked(e, m.store[e.id], m.callback.left)),
            Callback(Commit(false)));
    assert [Callback(ReadStore), Callback(ReadClock)] + [Callback(Commit(false))] ==
           [Callback(ReadStore), Callback(ReadClock), Callback(Commit(false))];
  }

  /** Hence a callback survives two lost commits. */
  lemma TwoLossesAreSurvived(m: State, e: Entry)
    requires Enabled(m, Fire) && m.loop.batch != [] && m.loop.batch[0] == e
    requires Active(m, e.id) && m.store[e.id].expiry == e.expiry <= m.clock
    ensures var lose := [Callback(ReadStore), Callback(ReadClock), Callback(Commit(false))];
            var fired := Step(m, Fire);
            Leads(fired, lose, fired.(callback := Calling(e, 2)))
            && Leads(fired.(callback := Calling(e, 2)), lose, fired.(callback := Calling(e, 1)))
            && FiresDue(fired.(callback := Calling(e, 1)))
  {
    var fired := Step(m, Fire);
    LosersTryAgain(fired);
    LosersTryAgain(fired.(callback := Calling(e, 2)));
  }

  /** Recovery does not index a lease that has already run out but expires it, by the same way. */
  lemma RecoveryExpiresTheDue(m: State, t: nat, id: string)
    requires Enabled(m, Recover(t, id)) && m.store[id].expiry <= m.clock
    ensures var e := Entry(id, m.store[id].expiry);
            Leads(m, [Recover(t, id), Other(t, ReadStore), Other(t, ReadClock), Other(t, Commit(true))],
                  m.(store := m.store[id := Lease(false, e.expiry)], others := m.others[t := ToRemove(e)], indexed := m.indexed + {id}))
  {
    var e := Entry(id, m.store[id].expiry);
    var m1 := m.(others := m.others[t := Calling(e, 3)], indexed := m.indexed + {id});
    var m2 := m.(others := m.others[t := Read(e, m.store[id], 3)], indexed := m.indexed + {id});
    var m3 := m.(others := m.others[t := Checked(e, m.store[id], 3)], indexed := m.indexed + {id});
    LeadsOn(m, [], m, Recover(t, id));
    assert Step(m, Recover(t, id)) == m1;
    LeadsOn(m, [] + [Recover(t, id)], m1, Other(t, ReadStore));
    assert Step(m1, Other(t, ReadStore)) == m2;
    LeadsOn(m, [] + [Recover(t, id)] + [Other(t, ReadStore)], m2, Other(t, ReadClock));
    assert Step(m2, Other(t, ReadClock)) == m3;
    LeadsOn(m, [] + [Recover(t, id)] + [Other(t, ReadStore)] + [Other(t, ReadClock)], m3, Other(t, Commit(true)));
    assert [] + [Recover(t, id)] + [Other(t, ReadStore)] + [Other(t, ReadClock)] + [Other(t, Commit(true))] ==
           [Recover(t, id), Other(t, ReadStore), Other(t, ReadClock), Other(t, Commit(true))];
  }
}
