/** The coalescing reconcile queue and the threads that share it
    (internal/reconcile/queue.go, internal/reconcile/worker.go:92-110). */
module WakeQueue {
  import opened Wrappers

  datatype WakeState = Pending | Processing | Requeue

  /** What the mutex protects. */
  datatype Contents = Contents(states: map<string, WakeState>, order: seq<string>, isClosed: bool)

  const NEW := Contents(map[], [], false)

  // ---------- The abstract queue: a set of dirty IDs and a set of IDs being processed ----------

  /** The IDs with a wake that no dispatch has answered yet. */
  function Dirty(q: Contents): set<string> {
    set id | id in q.states && q.states[id] != Processing
  }

  /** The IDs handed to a worker that has not called Done. */
  function Busy(q: Contents): set<string> {
    set id | id in q.states && q.states[id] != Pending
  }

  function Elements(order: seq<string>): set<string> {
    set id | id in order
  }

  predicate Distinct(order: seq<string>) {
    forall i, j :: 0 <= i < j < |order| ==> order[i] != order[j]
  }

  /** `order` lists exactly the pending IDs, each once. */
  predicate Valid(q: Contents) {
    && Distinct(q.order)
    && Elements(q.order) == Dirty(q) - Busy(q)
    && "" !in q.states
  }

  // ---------- The critical sections ----------

  /** The locked part of `Wake`, whether it reports true, and whether it goes on to notify. */
  function Woken(q: Contents, id: string): (Contents, bool, bool) {
    if id == "" || q.isClosed then (q, false, false)
    else if id !in q.states then (q.(states := q.states[id := Pending], order := q.order + [id]), true, true)
    else if q.states[id].Processing? then (q.(states := q.states[id := Requeue]), true, false)
    else (q, false, false)
  }

  /** The locked part of `Next`: the ID taken, if any, and whether others are left. */
  function Taken(q: Contents): (Contents, Option<string>, bool) {
    if q.isClosed || q.order == [] then (q, None, false)
    else (q.(states := q.states[q.order[0] := Processing], order := q.order[1..]), Some(q.order[0]), |q.order| > 1)
  }

  /** The locked part of `Done` and whether it goes on to notify. */
  function Finished(q: Contents, id: string): (Contents, bool) {
    var q' :=
      if id == "" || id !in q.states || q.states[id].Pending? then q
      else if q.states[id].Requeue? then q.(states := q.states[id := Pending], order := q.order + [id])
      else q.(states := q.states - {id});
    (q', id != "" && q'.order != [])
  }

  lemma AppendedOrder(order: seq<string>, id: string)
    requires Distinct(order) && id !in order
    ensures Distinct(order + [id]) && Elements(order + [id]) == Elements(order) + {id}
  {
    var all := order + [id];
    assert all[|order|] == id;
    forall x | x in order
      ensures x in all
    {
      var k :| 0 <= k < |order| && order[k] == x;
      assert all[k] == x;
    }
  }

  lemma ShortenedOrder(order: seq<string>)
    requires Distinct(order) && order != []
    ensures Distinct(order[1..]) && Elements(order[1..]) == Elements(order) - {order[0]}
  {
    forall x | x in order && x != order[0]
      ensures x in order[1..]
    {
      var k :| 0 <= k < |order| && order[k] == x;
      assert order[1..][k-1] == x;
    }
  }

  /** A wake makes the ID dirty while the queue is open, whoever is working on it, and reports true
      exactly when it was not dirty before. */
  lemma WakeRefines(q: Contents, id: string)
    requires Valid(q)
    ensures var (q', ok, notifies) := Woken(q, id);
            && Valid(q') && q'.isClosed == q.isClosed
            && Busy(q') == Busy(q)
            && Dirty(q') == (if id == "" || q.isClosed then Dirty(q) else Dirty(q) + {id})
            && (ok <==> Dirty(q') != Dirty(q))
            && (notifies <==> q'.order != q.order)
            && q.order <= q'.order
  {
    if id != "" && !q.isClosed && id !in q.states {
      assert id !in Elements(q.order);
      AppendedOrder(q.order, id);
    }
    var (q', ok, notifies) := Woken(q, id);
    assert Busy(q') == Busy(q);
  }

  /** A take hands out the oldest dirty ID that nobody is processing. */
  lemma TakeRefines(q: Contents)
    requires Valid(q)
    ensures var (q', taken, more) := Taken(q);
            && Valid(q') && q'.isClosed == q.isClosed
            && (taken.Some? <==> !q.isClosed && Dirty(q) - Busy(q) != {})
            && (more <==> taken.Some? && q'.order != [])
            && (taken.Some? ==> && taken.value in Dirty(q) - Busy(q) && q.order == [taken.value] + q'.order
                                && Dirty(q') == Dirty(q) - {taken.value} && Busy(q') == Busy(q) + {taken.value})
            && (taken.None? ==> q' == q)
  {
    if q.order != [] {
      assert q.order[0] in Elements(q.order);
      ShortenedOrder(q.order);
    }
  }

  /** Done releases the ID and keeps it dirty when it was woken meanwhile. */
  lemma DoneRefines(q: Contents, id: string)
    requires Valid(q)
    ensures var (q', notifies) := Finished(q, id);
            && Valid(q') && q'.isClosed == q.isClosed
            && Dirty(q') == Dirty(q) && Busy(q') == Busy(q) - {id}
            && (id !in Busy(q) ==> q' == q)
            && (id in Busy(q) ==> (notifies <==> q'.order != []))
            && q.order <= q'.order
  {
    if id in q.states && q.states[id].Requeue? {
      assert id !in Elements(q.order);
      AppendedOrder(q.order, id);
    }
  }

  // ---------- The queue object ----------

  class Queue {
    var states: map<string, WakeState>
    var order: seq<string>
    var notification: bool
    var isClosed: bool
    var closed: bool

    function View(): Contents
      reads this
    {
      Contents(states, order, isClosed)
    }

    constructor ()
      ensures View() == NEW && !notification && !closed
    {
      states, order, notification, isClosed, closed := map[], [], false, false, false;
    }

    /** The non-blocking send into the one-slot channel. */
    method Notify()
      modifies this`notification
      ensures notification
    {
      notification := true;
    }

    method Wake(id: string) returns (ok: bool)
      modifies this`states, this`order, this`notification
      ensures (View(), ok) == (Woken(old(View()), id).0, Woken(old(View()), id).1)
      ensures notification == (old(notification) || Woken(old(View()), id).2)
    {
      if id == "" {
        return false;
      }
      if isClosed {
        return false;
      }
      if id in states {
        match states[id] {
          case Pending => return false;
          case Requeue => return false;
          case Processing =>
            states := states[id := Requeue];
            return true;
        }
      }
      states := states[id := Pending];
      order := order + [id];
      Notify();
      return true;
    }

    /** `Next` from the point where it has received the notification and its context is live. */
    method Take() returns (taken: Option<string>)
      modifies this`states, this`order, this`notification
      ensures (View(), taken) == (Taken(old(View())).0, Taken(old(View())).1)
      ensures notification == (old(notification) || Taken(old(View())).2)
    {
      if isClosed {
        return None;
      }
      if |order| == 0 {
        return None;
      }
      var id := order[0];
      order := order[1..];
      states := states[id := Processing];
      if |order| > 0 {
        Notify();
      }
      return Some(id);
    }

    method Done(id: string)
      modifies this`states, this`order, this`notification
      ensures View() == Finished(old(View()), id).0
      ensures notification == (old(notification) || Finished(old(View()), id).1)
    {
      if id == "" {
        return;
      }
      if id in states {
        if states[id].Requeue? {
          states := states[id := Pending];
          order := order + [id];
        } else if states[id].Processing? {
          states := states - {id};
        }
      }
      if |order| > 0 {
        Notify();
      }
    }

    method Close()
      modifies this`isClosed, this`closed
      ensures isClosed && closed && View() == old(View()).(isClosed := true)
    {
      isClosed := true;
      closed := true;
    }

    /** `Len` counts the dirty IDs. */
    method Len() returns (length: nat)
      requires Valid(View())
      ensures length == |Dirty(View())|
    {
      length := |order|;
      DistinctSize(order);
      var left := states.Keys;
      ghost var counted: set<string> := {};
      while left != {}
        invariant left <= states.Keys
        invariant counted == set id | id in states && id !in left && states[id].Requeue?
        invariant length == |order| + |counted|
        decreases |left|
      {
        var id :| id in left;
        left := left - {id};
        if states[id].Requeue? {
          length := length + 1;
          counted := counted + {id};
        }
      }
      assert Dirty(View()) == Elements(order) + counted;
      assert Elements(order) !! counted;
    }
  }

  lemma {:induction false} DistinctSize(order: seq<string>)
    requires Distinct(order)
    ensures |Elements(order)| == |order|
    decreases order
  {
    if order != [] {
      ShortenedOrder(order);
      DistinctSize(order[1..]);
    }
  }

  // ---------- Threads ----------

  /** Where a thread is. `Notifying` and `Handing` have left the critical section and are about to
      call `notify`; `Handing` already owns an ID. */
  datatype Pc =
    | Idle
    | Waiting
    | HasToken
    | Notifying
    | Handing(id: string)
    | Working(id: string)
    | Closing

  datatype State = State(q: Contents, token: bool, closed: bool, pcs: seq<Pc>)

  datatype Act =
    | Wake(t: nat, id: string)
    | Notify(t: nat)
    | EnterNext(t: nat)
    | Receive(t: nat)         // <-q.notification
    | LeaveNext(t: nat)       // the context is done, or the closed channel is
    | PutBack(t: nat)         // the context ended together with the notification
    | Take(t: nat)
    | Done(t: nat)
    | Close(t: nat)
    | SignalClosed(t: nat)

  function Owned(pc: Pc): Option<string> {
    if pc.Handing? || pc.Working? then Some(pc.id) else None
  }

  /** The thread holds the notification or will certainly send it. */
  predicate Committed(pc: Pc) {
    pc.HasToken? || pc.Notifying? || pc.Handing?
  }

  predicate Enabled(s: State, a: Act) {
    && a.t < |s.pcs|
    && var pc := s.pcs[a.t];
       match a
       case Wake(_, _) => pc.Idle? || pc.Working?
       case Notify(_) => pc.Notifying? || pc.Handing?
       case EnterNext(_) => pc.Idle?
       case Receive(_) => pc.Waiting? && s.token
       case LeaveNext(_) => pc.Waiting?
       case PutBack(_) => pc.HasToken?
       case Take(_) => pc.HasToken?
       case Done(_) => pc.Working?
       case Close(_) => pc.Idle? && !s.q.isClosed
       case SignalClosed(_) => pc.Closing?
  }

  function Moved(s: State, t: nat, pc: Pc): State
    requires t < |s.pcs|
  {
    s.(pcs := s.pcs[t := pc])
  }

  function Step(s: State, a: Act): State
    requires Enabled(s, a)
  {
    var pc := s.pcs[a.t];
    match a
    case Wake(t, id) =>
      var (q', _, notifies) := Woken(s.q, id);
      Moved(s, t, if !notifies then pc else if pc.Working? then Handing(pc.id) else Notifying).(q := q')
    case Notify(t) => Moved(s, t, if pc.Handing? then Working(pc.id) else Idle).(token := true)
    case EnterNext(t) => Moved(s, t, Waiting)
    case Receive(t) => Moved(s, t, HasToken).(token := false)
    case LeaveNext(t) => Moved(s, t, Idle)
    case PutBack(t) => Moved(s, t, Notifying)
    case Take(t) =>
      var (q', taken, more) := Taken(s.q);
      Moved(s, t, if taken.None? then Idle else if more then Handing(taken.value) else Working(taken.value)).(q := q')
    case Done(t) =>
      var (q', notifies) := Finished(s.q, pc.id);
      Moved(s, t, if notifies then Notifying else Idle).(q := q')
    case Close(t) => Moved(s, t, Closing).(q := s.q.(isClosed := true))
    case SignalClosed(t) => Moved(s, t, Idle).(closed := true)
  }

  predicate Init(s: State) {
    s.q == NEW && !s.token && !s.closed && forall pc :: pc in s.pcs ==> pc.Idle?
  }

  /** Every ID being processed belongs to exactly one thread. */
  ghost predicate OwnersInv(busy: set<string>, pcs: seq<Pc>) {
    && (forall i :: 0 <= i < |pcs| && Owned(pcs[i]).Some? ==> Owned(pcs[i]).value in busy)
    && (forall i, j :: 0 <= i < j < |pcs| && Owned(pcs[i]).Some? ==> Owned(pcs[i]) != Owned(pcs[j]))
    && (forall id :: id in busy ==> exists i :: 0 <= i < |pcs| && Owned(pcs[i]) == Some(id))
  }

  /** No lost wakeup: pending work is always announced, held or about to be announced. */
  ghost predicate AnnouncedInv(s: State) {
    !s.q.isClosed && s.q.order != [] ==> s.token || exists t :: 0 <= t < |s.pcs| && Committed(s.pcs[t])
  }

  ghost predicate Inv(s: State) {
    Valid(s.q) && OwnersInv(Busy(s.q), s.pcs) && AnnouncedInv(s)
    && (s.closed ==> s.q.isClosed)
    && forall i :: 0 <= i < |s.pcs| && s.pcs[i].Closing? ==> s.q.isClosed
  }

  lemma InitInv(s: State)
    requires Init(s)
    ensures Inv(s)
  {
    assert forall i :: 0 <= i < |s.pcs| ==> s.pcs[i] in s.pcs;
    assert Elements(s.q.order) == Dirty(s.q) - Busy(s.q);
  }

  lemma OwnersKept(busy: set<string>, pcs: seq<Pc>, t: nat, pc: Pc)
    requires t < |pcs| && OwnersInv(busy, pcs) && Owned(pc) == Owned(pcs[t])
    ensures OwnersInv(busy, pcs[t := pc])
  {
    var pcs' := pcs[t := pc];
    forall id | id in busy
      ensures exists i :: 0 <= i < |pcs'| && Owned(pcs'[i]) == Some(id)
    {
      var i :| 0 <= i < |pcs| && Owned(pcs[i]) == Some(id);
      assert Owned(pcs'[i]) == Some(id);
    }
  }

  lemma OwnerAdded(busy: set<string>, pcs: seq<Pc>, t: nat, pc: Pc)
    requires t < |pcs| && OwnersInv(busy, pcs) && Owned(pcs[t]).None?
    requires Owned(pc).Some? && Owned(pc).value !in busy
    ensures OwnersInv(busy + {Owned(pc).value}, pcs[t := pc])
  {
    var pcs' := pcs[t := pc];
    forall id | id in busy + {Owned(pc).value}
      ensures exists i :: 0 <= i < |pcs'| && Owned(pcs'[i]) == Some(id)
    {
      if id in busy {
        var i :| 0 <= i < |pcs| && Owned(pcs[i]) == Some(id);
        assert Owned(pcs'[i]) == Some(id);
      } else {
        assert Owned(pcs'[t]) == Some(id);
      }
    }
  }

  lemma OwnerRemoved(busy: set<string>, pcs: seq<Pc>, t: nat, pc: Pc)
    requires t < |pcs| && OwnersInv(busy, pcs) && Owned(pcs[t]).Some? && Owned(pc).None?
    ensures OwnersInv(busy - {Owned(pcs[t]).value}, pcs[t := pc])
  {
    var pcs' := pcs[t := pc];
    forall id | id in busy - {Owned(pcs[t]).value}
      ensures exists i :: 0 <= i < |pcs'| && Owned(pcs'[i]) == Some(id)
    {
      var i :| 0 <= i < |pcs| && Owned(pcs[i]) == Some(id);
      assert Owned(pcs'[i]) == Some(id);
    }
  }

  lemma OwnersStep(s: State, a: Act)
    requires Inv(s) && Enabled(s, a)
    ensures Valid(Step(s, a).q) && OwnersInv(Busy(Step(s, a).q), Step(s, a).pcs)
  {
    var pc' := Step(s, a).pcs[a.t];
    match a {
      case Take(t) =>
        TakeRefines(s.q);
        if Taken(s.q).1.Some? {
          OwnerAdded(Busy(s.q), s.pcs, t, pc');
        } else {
          OwnersKept(Busy(s.q), s.pcs, t, pc');
        }
      case Done(t) =>
        DoneRefines(s.q, s.pcs[t].id);
        OwnerRemoved(Busy(s.q), s.pcs, t, pc');
      case Wake(t, id) =>
        WakeRefines(s.q, id);
        OwnersKept(Busy(s.q), s.pcs, t, pc');
      case _ =>
        assert Busy(Step(s, a).q) == Busy(s.q) && Dirty(Step(s, a).q) == Dirty(s.q);
        OwnersKept(Busy(s.q), s.pcs, a.t, pc');
    }
  }

  lemma AnnouncedStep(s: State, a: Act)
    requires Inv(s) && Enabled(s, a)
    ensures AnnouncedInv(Step(s, a))
  {
    var s' := Step(s, a);
    match a {
      case Wake(_, id) => WakeRefines(s.q, id);
      case Take(_) => TakeRefines(s.q);
      case Done(t) => DoneRefines(s.q, s.pcs[t].id);
      case _ =>
    }
    if Committed(s'.pcs[a.t]) {
      assert AnnouncedInv(s');
    } else if !a.Take? && !a.Notify? && exists t :: 0 <= t < |s.pcs| && Committed(s.pcs[t]) {
      var t :| 0 <= t < |s.pcs| && Committed(s.pcs[t]);
      assert s'.pcs[t] == s.pcs[t] || t == a.t;
    }
  }

  lemma StepInv(s: State, a: Act)
    requires Inv(s) && Enabled(s, a)
    ensures Inv(Step(s, a))
  {
    OwnersStep(s, a);
    AnnouncedStep(s, a);
  }

  // ---------- Runs ----------

  predicate Runs(s: State, acts: seq<Act>)
    decreases acts
  {
    acts != [] ==> Enabled(s, acts[0]) && Runs(Step(s, acts[0]), acts[1..])
  }

  function After(s: State, acts: seq<Act>): State
    requires Runs(s, acts)
    decreases acts
  {
    if acts == [] then s else After(Step(s, acts[0]), acts[1..])
  }

  /** The ID a step hands to a worker, if any. */
  function Dispatched(s: State, a: Act): Option<string> {
    if a.Take? then Taken(s.q).1 else None
  }

  /** The IDs a run hands to workers, in order. */
  function Dispatches(s: State, acts: seq<Act>): seq<string>
    requires Runs(s, acts)
    decreases acts
  {
    if acts == [] then []
    else
      var d := Dispatched(s, acts[0]);
      (if d.Some? then [d.value] else []) + Dispatches(Step(s, acts[0]), acts[1..])
  }

  lemma {:induction false} RunInv(s: State, acts: seq<Act>)
    requires Inv(s) && Runs(s, acts)
    ensures Inv(After(s, acts))
    decreases acts
  {
    if acts != [] {
      StepInv(s, acts[0]);
      RunInv(Step(s, acts[0]), acts[1..]);
    }
  }

  /** In every reachable state: one owner per ID, nobody owns an ID that is still queued, and no
      wakeup is lost. */
  lemma EveryInterleavingIsSafe(s: State, acts: seq<Act>)
    requires Init(s) && Runs(s, acts)
    ensures var s' := After(s, acts);
            && Valid(s'.q)
            && (forall i, j :: 0 <= i < j < |s'.pcs| && Owned(s'.pcs[i]).Some? ==> Owned(s'.pcs[i]) != Owned(s'.pcs[j]))
            && (forall i :: 0 <= i < |s'.pcs| && Owned(s'.pcs[i]).Some? ==> Owned(s'.pcs[i]).value !in s'.q.order)
            && (!s'.q.isClosed && s'.q.order != [] ==>
                  s'.token || exists t :: 0 <= t < |s'.pcs| && Committed(s'.pcs[t]))
  {
    InitInv(s);
    RunInv(s, acts);
    var s' := After(s, acts);
    forall i | 0 <= i < |s'.pcs| && Owned(s'.pcs[i]).Some?
      ensures Owned(s'.pcs[i]).value !in s'.q.order
    {
      assert Owned(s'.pcs[i]).value !in Elements(s'.q.order);
    }
  }

  /** One step on the abstract queue: what becomes dirty and what is answered. */
  lemma StepDirty(s: State, a: Act)
    requires Inv(s) && Enabled(s, a)
    ensures var q := s.q; var q' := Step(s, a).q;
            && (a.Wake? && a.id != "" && !q.isClosed ==> a.id in Dirty(q'))
            && (forall id :: id in Dirty(q) && Dispatched(s, a) != Some(id) ==> id in Dirty(q'))
            && (forall id :: Dispatched(s, a) == Some(id) ==> id in Dirty(q) && id !in Dirty(q') && id in Busy(q'))
  {
    match a {
      case Wake(_, id) => WakeRefines(s.q, id);
      case Take(_) => TakeRefines(s.q);
      case Done(t) => DoneRefines(s.q, s.pcs[t].id);
      case _ =>
    }
  }

  /** A dirty ID stays dirty for as long as a run does not dispatch it. */
  lemma {:induction false} DirtyUntilDispatched(s: State, acts: seq<Act>, id: string)
    requires Inv(s) && Runs(s, acts) && id in Dirty(s.q) && id !in Dispatches(s, acts)
    ensures id in Dirty(After(s, acts).q)
    decreases acts
  {
    if acts != [] {
      var d := Dispatched(s, acts[0]);
      var first := if d.Some? then [d.value] else [];
      assert Dispatches(s, acts) == first + Dispatches(Step(s, acts[0]), acts[1..]);
      assert d == Some(id) ==> id in first;
      StepDirty(s, acts[0]);
      StepInv(s, acts[0]);
      DirtyUntilDispatched(Step(s, acts[0]), acts[1..], id);
    }
  }

  /** A wake of an open queue is never lost: until a later take dispatches the ID, it stays dirty.
      It is then either queued, and announced while the queue is open, or held by exactly one worker
      whose Done puts it back into the queue. */
  lemma WakeIsAnswered(s: State, past: seq<Act>, wake: Act, future: seq<Act>)
    requires Init(s) && Runs(s, past) && Enabled(After(s, past), wake)
    requires wake.Wake? && wake.id != "" && !After(s, past).q.isClosed
    requires Runs(Step(After(s, past), wake), future)
    requires wake.id !in Dispatches(Step(After(s, past), wake), future)
    ensures var s' := After(Step(After(s, past), wake), future);
            && wake.id in Dirty(s'.q)
            && (|| wake.id in s'.q.order
                || exists t :: 0 <= t < |s'.pcs| && Owned(s'.pcs[t]) == Some(wake.id)
                               && wake.id in Finished(s'.q, wake.id).0.order)
  {
    InitInv(s);
    RunInv(s, past);
    var s1 := Step(After(s, past), wake);
    StepInv(After(s, past), wake);
    StepDirty(After(s, past), wake);
    DirtyUntilDispatched(s1, future, wake.id);
    RunInv(s1, future);
    var s' := After(s1, future);
    if wake.id !in s'.q.order {
      assert wake.id !in Elements(s'.q.order);
      assert wake.id in Busy(s'.q);
      var t :| 0 <= t < |s'.pcs| && Owned(s'.pcs[t]) == Some(wake.id);
      var after := Finished(s'.q, wake.id).0.order;
      assert after[|after|-1] == wake.id;
    }
  }

  // ---------- Fairness ----------

  /** How a step changes the queue: it drops the head exactly when it dispatches it, and otherwise
      only appends. */
  lemma StepOrder(s: State, a: Act)
    requires Inv(s) && Enabled(s, a)
    ensures var d := Dispatched(s, a);
            if d.Some? then s.q.order == [d.value] + Step(s, a).q.order else s.q.order <= Step(s, a).q.order
  {
    match a {
      case Wake(_, id) => WakeRefines(s.q, id);
      case Take(_) => TakeRefines(s.q);
      case Done(t) => DoneRefines(s.q, s.pcs[t].id);
      case _ =>
    }
  }

  /** Dispatch is first-in first-out: over any run, what was handed out followed by what is still
      queued begins with the queue the run started from. An ID at position k is therefore dispatched by
      the k+1-st take, however many wakes arrive meanwhile. */
  lemma {:induction false} DispatchIsFifo(s: State, acts: seq<Act>)
    requires Inv(s) && Runs(s, acts)
    ensures s.q.order <= Dispatches(s, acts) + After(s, acts).q.order
    decreases acts
  {
    if acts != [] {
      var s' := Step(s, acts[0]);
      StepOrder(s, acts[0]);
      StepInv(s, acts[0]);
      DispatchIsFifo(s', acts[1..]);
      var d := Dispatched(s, acts[0]);
      QueueBefore(if d.Some? then [d.value] else [], s.q.order, s'.q.order,
                  Dispatches(s', acts[1..]), After(s', acts[1..]).q.order);
    }
  }

  lemma QueueBefore(taken: seq<string>, order: seq<string>, order': seq<string>, later: seq<string>, last: seq<string>)
    requires order == taken + order' || (taken == [] && order <= order')
    requires order' <= later + last
    ensures order <= (taken + later) + last
  {
    assert (taken + later) + last == taken + (later + last);
  }

  /** No starvation: after k+1 dispatches the ID that was at position k has been handed out. */
  lemma NoStarvation(s: State, acts: seq<Act>, k: nat)
    requires Inv(s) && Runs(s, acts) && k < |s.q.order| && |Dispatches(s, acts)| > k
    ensures Dispatches(s, acts)[k] == s.q.order[k]
  {
    DispatchIsFifo(s, acts);
  }
}
