/** The runner's registry of executions: concurrency slots, the hand-off of cancellations, status snapshots
    and shutdown (internal/runner/manager.go). */
module Manager {
  import opened Wrappers
  import opened ExecutionModel

  /** `managedExecution`. `descriptor` is what the execution itself says now, `published` whether its event
      store ends in a terminal event; both change outside the manager. `runs` lists the reasons with which
      the cancellation handler has been called. */
  datatype Entry = Entry(
    descriptor: Descriptor, visible: Descriptor, attached: bool, published: bool, active: bool,
    handler: bool, requested: Option<Reason>, started: bool, runs: seq<Reason>, completedAt: Option<int>)

  const REGISTERED := Entry(FRESH, FRESH, false, false, true, false, None, false, [], None)

  datatype Registry = Registry(max: int, entries: map<string, Entry>, active: int, accepting: bool)

  datatype Error = ShuttingDown | LimitReached | FactoryFailed | AlreadyRegistered | NotFound | StillActive | AlreadySet | Unsupported

  datatype Status = Status(descriptor: Descriptor, terminal: bool)

  // ---------- The critical sections ----------

  /** `CreateExecution`; the factory gives a fresh ID, or none. */
  function Created(r: Registry, id: Option<string>): (Registry, Option<Error>) {
    if !r.accepting then (r, Some(ShuttingDown))
    else if r.active >= r.max then (r, Some(LimitReached))
    else if id.None? || id.value == "" then (r, Some(FactoryFailed))
    else if id.value in r.entries then (r, Some(AlreadyRegistered))
    else (r.(entries := r.entries[id.value := REGISTERED], active := r.active + 1), None)
  }

  /** `completeAt`. */
  function Completed(r: Registry, id: string, at: int): (Registry, Option<Error>) {
    if id !in r.entries then (r, Some(NotFound))
    else
      var e := r.entries[id];
      if !e.descriptor.state.Terminal() then (r, Some(StillActive))
      else if !e.active then (r, None)
      else (r.(entries := r.entries[id := e.(active := false, completedAt := Some(at))], active := r.active - 1), None)
  }

  /** `beginCancellation` together with the call of the handler it decides on. */
  function Begun(e: Entry): Entry {
    if e.requested.None? || !e.handler || e.started then e
    else e.(started := true, runs := e.runs + [e.requested.value])
  }

  function HandlerSet(r: Registry, id: string): (Registry, Option<Error>) {
    if id !in r.entries then (r, Some(NotFound))
    else if r.entries[id].handler then (r, Some(AlreadySet))
    else (r.(entries := r.entries[id := Begun(r.entries[id].(handler := true))]), None)
  }

  /** `requestCancellation` and `CancelAsync`. */
  function Requested(r: Registry, id: string, reason: Reason): (Registry, Option<Error>) {
    if !reason.Cancels() then (r, Some(Unsupported))
    else if id !in r.entries then (r, Some(NotFound))
    else
      var e := r.entries[id];
      if e.descriptor.state.Terminal() then (r, None)
      else (r.(entries := r.entries[id := Begun(if e.requested.Some? then e else e.(requested := Some(reason)))]), None)
  }

  /** What `StatusSnapshot` reports and keeps as the last visible descriptor. */
  function Snapped(e: Entry): (Entry, Status) {
    if !e.descriptor.state.Terminal() then (e.(visible := e.descriptor), Status(e.descriptor, false))
    else if e.attached && e.published then (e.(visible := e.descriptor), Status(e.descriptor, true))
    else (e, Status(e.visible, false))
  }

  /** Decides whether the caller has to run the handler, and with which reason. */
  method BeginCancellation(e: Entry) returns (e': Entry, run: Option<Reason>)
    ensures e' == Begun(e)
    ensures run.Some? <==> e' != e
    ensures run.Some? ==> e'.runs == e.runs + [run.value] && run.value in e'.runs
  {
    if e.requested.None? || !e.handler {
      return e, None;
    }
    if e.started {
      return e, None;
    }
    return e.(started := true, runs := e.runs + [e.requested.value]), e.requested;
  }

  class Manager {
    const max: int
    var executions: map<string, Entry>
    var active: int
    var accepting: bool

    function View(): Registry
      reads this
    {
      Registry(max, executions, active, accepting)
    }

    constructor (max: int)
      requires max > 0
      ensures View() == Registry(max, map[], 0, true)
    {
      this.max := max;
      executions, active, accepting := map[], 0, true;
    }

    /** Takes the slot before it asks the factory, and gives it back on every error. */
    method CreateExecution(id: Option<string>) returns (error: Option<Error>)
      modifies this
      ensures (View(), error) == Created(old(View()), id)
    {
      if !accepting {
        return Some(ShuttingDown);
      }
      if active >= max {
        return Some(LimitReached);
      }
      active := active + 1;
      if id.None? || id.value == "" {
        active := active - 1;
        return Some(FactoryFailed);
      }
      if id.value in executions {
        active := active - 1;
        return Some(AlreadyRegistered);
      }
      executions := executions[id.value := REGISTERED];
      return None;
    }

    method CompleteAt(id: string, at: int) returns (error: Option<Error>)
      modifies this
      ensures (View(), error) == Completed(old(View()), id, at)
    {
      if id !in executions {
        return Some(NotFound);
      }
      var e := executions[id];
      if !e.descriptor.state.Terminal() {
        return Some(StillActive);
      }
      if e.active {
        executions := executions[id := e.(active := false, completedAt := Some(at))];
        active := active - 1;
      }
      return None;
    }

    method SetCancellationHandler(id: string) returns (error: Option<Error>, run: Option<Reason>)
      modifies this
      ensures (View(), error) == HandlerSet(old(View()), id)
      ensures id in executions && run.Some? ==> run.value in executions[id].runs
    {
      if id !in executions {
        return Some(NotFound), None;
      }
      if executions[id].handler {
        return Some(AlreadySet), None;
      }
      var e;
      e, run := BeginCancellation(executions[id].(handler := true));
      executions := executions[id := e];
      error := None;
    }

    method RequestCancellation(id: string, reason: Reason) returns (error: Option<Error>, run: Option<Reason>)
      modifies this
      ensures (View(), error) == Requested(old(View()), id, reason)
      ensures id in executions && run.Some? ==> run.value in executions[id].runs
    {
      if !reason.Cancels() {
        return Some(Unsupported), None;
      }
      if id !in executions {
        return Some(NotFound), None;
      }
      var e := executions[id];
      if e.descriptor.state.Terminal() {
        return None, None;
      }
      if e.requested.None? {
        e := e.(requested := Some(reason));
      }
      e, run := BeginCancellation(e);
      executions := executions[id := e];
      error := None;
    }

    method StatusSnapshot(id: string) returns (status: Option<Status>)
      modifies this`executions
      ensures status.None? <==> id !in old(executions)
      ensures status.None? ==> executions == old(executions)
      ensures status.Some? ==>
                && executions == old(executions)[id := Snapped(old(executions[id])).0]
                && status.value == Snapped(old(executions[id])).1
    {
      if id !in executions {
        return None;
      }
      var e := executions[id];
      if !e.descriptor.state.Terminal() {
        executions := executions[id := e.(visible := e.descriptor)];
        return Some(Status(e.descriptor, false));
      }
      if e.attached && e.published {
        executions := executions[id := e.(visible := e.descriptor)];
        return Some(Status(e.descriptor, true));
      }
      assert executions == executions[id := e];
      return Some(Status(e.visible, false));
    }

    /** The first half of `Shutdown`: closes admission and collects the active executions. */
    method BeginShutdown() returns (ids: set<string>)
      modifies this`accepting
      ensures View() == old(View()).(accepting := false)
      ensures ids == ActiveIds(executions)
    {
      accepting := false;
      ids := {};
      var left := executions.Keys;
      while left != {}
        invariant left <= executions.Keys
        invariant ids == set id | id in executions && id !in left && executions[id].active
        decreases |left|
      {
        var id :| id in left;
        left := left - {id};
        if executions[id].active {
          ids := ids + {id};
        }
      }
    }
  }

  function ActiveIds(entries: map<string, Entry>): set<string> {
    set id | id in entries && entries[id].active
  }

  // ---------- Histories ----------

  datatype Act =
    | Create(newId: Option<string>)
    | Complete(id: string, at: int)
    | SetHandler(id: string)
    | Request(id: string, reason: Reason)
    | Snapshot(id: string)
    | CloseAdmission
    | Attach(id: string)                                                              // SetEventStore
    | Advance(id: string, next: ExecutionState, why: Reason, code: Option<int>)      // the execution itself
    | Publish(id: string)                                                             // its event store
    | Evict(ids: set<string>)                                                         // retention

  /** Retention only takes completed executions. */
  predicate Enabled(r: Registry, a: Act) {
    a.Evict? ==> forall id :: id in a.ids && id in r.entries ==> !r.entries[id].active
  }

  function Changed(r: Registry, id: string, e: Entry): Registry {
    r.(entries := r.entries[id := e])
  }

  function Step(r: Registry, a: Act): Registry {
    match a
    case Create(id) => Created(r, id).0
    case Complete(id, at) => Completed(r, id, at).0
    case SetHandler(id) => HandlerSet(r, id).0
    case Request(id, reason) => Requested(r, id, reason).0
    case CloseAdmission => r.(accepting := false)
    case Evict(ids) => r.(entries := r.entries - ids)
    case Snapshot(id) => if id !in r.entries then r else Changed(r, id, Snapped(r.entries[id]).0)
    case Attach(id) => if id !in r.entries then r else Changed(r, id, r.entries[id].(attached := true))
    case Advance(id, next, why, code) =>
      if id !in r.entries then r
      else Changed(r, id, r.entries[id].(descriptor := Transitioned(r.entries[id].descriptor, next, why, code)))
    case Publish(id) => if id !in r.entries then r else Changed(r, id, r.entries[id].(published := true))
  }

  /** One entry on its own. */
  predicate EntryInv(e: Entry) {
    && Coherent(e.descriptor)
    && (e.visible.state.Terminal() ==> e.visible == e.descriptor && e.attached && e.published)
    && (e.visible.state.Running? ==> !e.descriptor.state.Pending?)
    && (!e.active ==> e.descriptor.state.Terminal() && e.completedAt.Some?)
    && (e.active ==> e.completedAt.None?)
    && (e.started <==> e.requested.Some? && e.handler)
    && e.runs == (if e.started then [e.requested.value] else [])
  }

  predicate Inv(r: Registry) {
    && r.max > 0
    && r.active == |ActiveIds(r.entries)| <= r.max
    && forall id :: id in r.entries ==> EntryInv(r.entries[id])
  }

  /** The set of active IDs follows the one entry that changed. */
  lemma ActiveChanged(entries: map<string, Entry>, id: string, e: Entry)
    ensures var was := ActiveIds(entries); var now := ActiveIds(entries[id := e]);
            && now == (if e.active then was + {id} else was - {id})
            && |now| == |was| + (if e.active && id !in was then 1 else if !e.active && id in was then -1 else 0)
  {
    var was, now := ActiveIds(entries), ActiveIds(entries[id := e]);
    assert now == if e.active then was + {id} else was - {id};
  }

  lemma ChangedInv(r: Registry, id: string, e: Entry)
    requires Inv(r) && id in r.entries && EntryInv(e) && e.active == r.entries[id].active
    ensures Inv(Changed(r, id, e))
  {
    ActiveChanged(r.entries, id, e);
  }

  lemma CreateInv(r: Registry, id: Option<string>)
    requires Inv(r)
    ensures Inv(Created(r, id).0)
  {
    if id.Some? && id.value !in r.entries {
      ActiveChanged(r.entries, id.value, REGISTERED);
      assert EntryInv(REGISTERED);
    }
  }

  lemma CompleteInv(r: Registry, id: string, at: int)
    requires Inv(r)
    ensures Inv(Completed(r, id, at).0)
  {
    if id in r.entries && r.entries[id].active {
      var e := r.entries[id].(active := false, completedAt := Some(at));
      ActiveChanged(r.entries, id, e);
      assert EntryInv(r.entries[id]);
    }
  }

  /** The entry after an act that concerns one entry and leaves its slot alone. */
  function EntryAfter(e: Entry, a: Act): Entry {
    match a
    case SetHandler(_) => if e.handler then e else Begun(e.(handler := true))
    case Request(_, reason) =>
      if !reason.Cancels() || e.descriptor.state.Terminal() then e
      else Begun(if e.requested.Some? then e else e.(requested := Some(reason)))
    case Snapshot(_) => Snapped(e).0
    case Attach(_) => e.(attached := true)
    case Advance(_, next, why, code) => e.(descriptor := Transitioned(e.descriptor, next, why, code))
    case Publish(_) => e.(published := true)
    case _ => e
  }

  predicate Concerns(a: Act, id: string) {
    match a
    case SetHandler(x) => x == id
    case Request(x, _) => x == id
    case Snapshot(x) => x == id
    case Attach(x) => x == id
    case Advance(x, _, _, _) => x == id
    case Publish(x) => x == id
    case _ => false
  }

  lemma StepIsEntryAfter(r: Registry, a: Act, id: string)
    requires id in r.entries && Concerns(a, id)
    ensures Step(r, a) == Changed(r, id, EntryAfter(r.entries[id], a))
  {
    assert r.entries == r.entries[id := r.entries[id]];
  }

  lemma EntryAfterInv(e: Entry, a: Act)
    requires EntryInv(e)
    ensures EntryInv(EntryAfter(e, a)) && EntryAfter(e, a).active == e.active
  {
  }

  lemma EvictInv(r: Registry, ids: set<string>)
    requires Inv(r) && Enabled(r, Evict(ids))
    ensures Inv(Step(r, Evict(ids)))
  {
    assert ActiveIds(r.entries - ids) == ActiveIds(r.entries);
  }

  lemma StepInv(r: Registry, a: Act)
    requires Inv(r) && Enabled(r, a)
    ensures Inv(Step(r, a))
  {
    if a.Create? {
      CreateInv(r, a.newId);
    } else if a.Complete? {
      CompleteInv(r, a.id, a.at);
    } else if a.Evict? {
      EvictInv(r, a.ids);
    } else if a.CloseAdmission? {
    } else if a.id in r.entries {
      StepIsEntryAfter(r, a, a.id);
      EntryAfterInv(r.entries[a.id], a);
      ChangedInv(r, a.id, EntryAfter(r.entries[a.id], a));
    }
  }

  predicate Runs(r: Registry, acts: seq<Act>)
    decreases acts
  {
    acts != [] ==> Enabled(r, acts[0]) && Runs(Step(r, acts[0]), acts[1..])
  }

  function After(r: Registry, acts: seq<Act>): Registry
    decreases acts
  {
    if acts == [] then r else After(Step(r, acts[0]), acts[1..])
  }

  function Phase(s: ExecutionState): nat {
    if s.Pending? then 0 else if s.Running? then 1 else 2
  }

  /** What one entry never takes back: it may be evicted, but as long as it is there its slot is only given
      back once, with a time that stands, its first cancel reason stands, its handler does not run again, and what a status has
      shown only moves on. */
  predicate EntryKept(e: Entry, e': Entry) {
    && (!e.active ==> !e'.active && e'.completedAt == e.completedAt)
    && (e.handler ==> e'.handler)
    && (e.requested.Some? ==> e'.requested == e.requested)
    && e.runs <= e'.runs
    && Phase(e.visible.state) <= Phase(e'.visible.state)
    && (e.visible.state.Terminal() ==> e'.visible == e.visible)
    && (e.descriptor.state.Terminal() ==> e'.descriptor == e.descriptor)
    && (e.descriptor.state.Running? ==> !e'.descriptor.state.Pending?)
    && (e.attached ==> e'.attached) && (e.published ==> e'.published)
  }

  lemma EntryAfterKept(e: Entry, a: Act)
    requires EntryInv(e)
    ensures EntryKept(e, EntryAfter(e, a))
  {
  }

  lemma CompleteKept(r: Registry, a: Act, id: string)
    requires Inv(r) && id in r.entries && !Concerns(a, id) && !a.Evict?
    ensures id in Step(r, a).entries
    ensures var e := Step(r, a).entries[id];
            e == r.entries[id] || (r.entries[id].active && e == r.entries[id].(active := false, completedAt := e.completedAt))
  {
  }

  lemma StepEntryKept(r: Registry, a: Act, id: string)
    requires Inv(r) && Enabled(r, a) && id in r.entries && !(a.Evict? && id in a.ids)
    ensures id in Step(r, a).entries && EntryKept(r.entries[id], Step(r, a).entries[id])
  {
    if Concerns(a, id) {
      StepIsEntryAfter(r, a, id);
      EntryAfterKept(r.entries[id], a);
    } else if !a.Evict? {
      CompleteKept(r, a, id);
    }
  }

  predicate Init(r: Registry) {
    r.max > 0 && r.entries == map[] && r.active == 0 && r.accepting
  }

  lemma {:induction false} RunInv(r: Registry, acts: seq<Act>)
    requires Inv(r) && Runs(r, acts)
    ensures Inv(After(r, acts))
    decreases acts
  {
    if acts != [] {
      StepInv(r, acts[0]);
      RunInv(Step(r, acts[0]), acts[1..]);
    }
  }

  /** Slot accounting over every history: the counter is the number of active executions, it never passes
      the limit, and every cancellation handler has run at most once, with the first recorded reason. */
  lemma SlotsAreExact(r: Registry, acts: seq<Act>)
    requires Init(r) && Runs(r, acts)
    ensures var r' := After(r, acts);
            && r'.active == |ActiveIds(r'.entries)| <= r'.max
            && forall id :: id in r'.entries ==>
                 var e := r'.entries[id];
                 e.runs == if e.handler && e.requested.Some? then [e.requested.value] else []
  {
    assert ActiveIds(r.entries) == {};
    RunInv(r, acts);
    assert forall id :: id in After(r, acts).entries ==> EntryInv(After(r, acts).entries[id]);
  }

  /** Retention leaves this execution alone. */
  predicate Stays(acts: seq<Act>, id: string) {
    forall i :: 0 <= i < |acts| && acts[i].Evict? ==> id !in acts[i].ids
  }

  /** Follows one execution for as long as retention leaves it in the registry. */
  lemma {:induction false} EntryHistory(r: Registry, acts: seq<Act>, id: string)
    requires Inv(r) && Runs(r, acts) && id in r.entries
    requires Stays(acts, id)
    ensures id in After(r, acts).entries && EntryKept(r.entries[id], After(r, acts).entries[id])
    decreases acts
  {
    if acts != [] {
      StepEntryKept(r, acts[0], id);
      StepInv(r, acts[0]);
      EntryHistory(Step(r, acts[0]), acts[1..], id);
      KeptIsTransitive(r.entries[id], Step(r, acts[0]).entries[id], After(r, acts).entries[id]);
    }
  }

  lemma KeptIsTransitive(a: Entry, b: Entry, c: Entry)
    requires EntryKept(a, b) && EntryKept(b, c)
    ensures EntryKept(a, c)
  {
  }

  /** A status shows a terminal state exactly when the execution has one and its terminal event can be
      attached; it shows what the execution says now, unless that has to wait for the event: then what was shown last. */
  lemma TerminalReportedExactly(e: Entry)
    requires EntryInv(e)
    ensures var s := Snapped(e).1;
            && (s.terminal <==> e.descriptor.state.Terminal() && e.attached && e.published)
            && (s.terminal <==> s.descriptor.state.Terminal())
            && s.descriptor == (if s.terminal || !e.descriptor.state.Terminal() then e.descriptor else e.visible)
            && Snapped(e).0.visible == s.descriptor
  {
  }

  /** Who gets a slot: as long as admission is open, exactly those who find fewer active executions than the limit
      and a fresh ID; everybody else leaves the registry as it is. */
  lemma AdmittedExactly(r: Registry, id: Option<string>)
    requires Inv(r)
    ensures var (r', error) := Created(r, id);
            && (error.None? <==> r.accepting && |ActiveIds(r.entries)| < r.max
                                 && id.Some? && id.value != "" && id.value !in r.entries)
            && (error.Some? ==> r' == r)
            && (error.None? ==> ActiveIds(r'.entries) == ActiveIds(r.entries) + {id.value}
                                && r'.entries == r.entries[id.value := r'.entries[id.value]]
                                && r'.entries[id.value].descriptor == FRESH && !r'.entries[id.value].handler
                                && r'.entries[id.value].requested.None?)
  {
    if Created(r, id).1.None? {
      ActiveChanged(r.entries, id.value, REGISTERED);
    }
  }

  /** The first reason that reaches an execution which has not ended is recorded and stands, and the handler runs
      for it exactly once: at once if there is one, and otherwise as soon as one is set, whatever happens before,
      in between and later. */
  lemma FirstReasonStands(r: Registry, id: string, reason: Reason, acts: seq<Act>)
    requires Inv(r) && id in r.entries && reason.Cancels()
    requires !r.entries[id].descriptor.state.Terminal() && r.entries[id].requested.None?
    requires Runs(Step(r, Act.Request(id, reason)), acts) && Stays(acts, id)
    ensures var last := After(Step(r, Act.Request(id, reason)), acts);
            && id in last.entries && last.entries[id].requested == Some(reason)
            && last.entries[id].runs == (if last.entries[id].handler then [reason] else [])
            && (r.entries[id].handler || SetHandler(id) in acts ==> last.entries[id].handler)
  {
    var asked := Step(r, Act.Request(id, reason));
    StepInv(r, Act.Request(id, reason));
    StepIsEntryAfter(r, Act.Request(id, reason), id);
    RunInv(asked, acts);
    EntryHistory(asked, acts, id);
    assert EntryInv(After(asked, acts).entries[id]);
    if SetHandler(id) in acts {
      HandlerIsSet(asked, acts, id);
    }
  }

  /** A cancellation is refused only for a reason that is none or an execution that is not registered, and it changes
      nothing then, nor for an execution that has ended or has been asked already. */
  lemma OtherRequestsChangeNothing(r: Registry, id: string, reason: Reason)
    requires Inv(r)
    ensures Requested(r, id, reason).1.Some? <==> id !in r.entries || !reason.Cancels()
    ensures Requested(r, id, reason).1.Some? || r.entries[id].descriptor.state.Terminal() || r.entries[id].requested.Some?
            ==> Requested(r, id, reason).0 == r
  {
    if id in r.entries {
      assert EntryInv(r.entries[id]) && r.entries[id := r.entries[id]] == r.entries;
    }
  }

  lemma {:induction false} HandlerIsSet(r: Registry, acts: seq<Act>, id: string)
    requires Inv(r) && Runs(r, acts) && id in r.entries && Stays(acts, id) && SetHandler(id) in acts
    ensures id in After(r, acts).entries && After(r, acts).entries[id].handler
    decreases acts
  {
    var m := Step(r, acts[0]);
    StepInv(r, acts[0]);
    StepEntryKept(r, acts[0], id);
    EntryHistory(m, acts[1..], id);
    if acts[0] == SetHandler(id) {
      StepIsEntryAfter(r, acts[0], id);
    } else {
      assert SetHandler(id) in acts[1..];
      HandlerIsSet(m, acts[1..], id);
    }
  }

  /** An execution that has ended gives its slot back when it is completed, and is stamped with that time for good;
      one that has not ended cannot be completed. */
  lemma CompletionStands(r: Registry, id: string, at: int, acts: seq<Act>)
    requires Inv(r) && id in r.entries && r.entries[id].active
    requires Runs(Step(r, Complete(id, at)), acts) && Stays(acts, id)
    ensures !r.entries[id].descriptor.state.Terminal() ==> Completed(r, id, at) == (r, Some(StillActive))
    ensures r.entries[id].descriptor.state.Terminal() ==>
              var done, last := Step(r, Complete(id, at)), After(Step(r, Complete(id, at)), acts);
              && ActiveIds(done.entries) == ActiveIds(r.entries) - {id} && done.active == r.active - 1
              && id in last.entries && !last.entries[id].active && last.entries[id].completedAt == Some(at)
  {
    var done := Step(r, Complete(id, at));
    StepInv(r, Complete(id, at));
    EntryHistory(done, acts, id);
    if r.entries[id].descriptor.state.Terminal() {
      ActiveChanged(r.entries, id, r.entries[id].(active := false, completedAt := Some(at)));
    }
  }

  /** Successive statuses of one execution only move on, and a terminal one is repeated for ever. */
  lemma StatusesAreMonotone(r: Registry, acts: seq<Act>, id: string)
    requires Inv(r) && id in r.entries && Runs(Step(r, Snapshot(id)), acts)
    requires Stays(acts, id)
    ensures id in After(Step(r, Snapshot(id)), acts).entries
    ensures var first := Snapped(r.entries[id]).1;
            var later := Snapped(After(Step(r, Snapshot(id)), acts).entries[id]).1;
            Phase(first.descriptor.state) <= Phase(later.descriptor.state) && (first.terminal ==> later == first)
  {
    var r1 := Step(r, Snapshot(id));
    StepInv(r, Snapshot(id));
    RunInv(r1, acts);
    EntryHistory(r1, acts, id);
    TerminalReportedExactly(r.entries[id]);
    TerminalReportedExactly(After(r1, acts).entries[id]);
  }

  lemma {:induction false} ClosedKeeps(r: Registry, acts: seq<Act>)
    requires Inv(r) && !r.accepting && Runs(r, acts)
    ensures !After(r, acts).accepting && ActiveIds(After(r, acts).entries) <= ActiveIds(r.entries)
    decreases acts
  {
    if acts != [] {
      ClosedStep(r, acts[0]);
      StepInv(r, acts[0]);
      ClosedKeeps(Step(r, acts[0]), acts[1..]);
    }
  }

  lemma ClosedStep(r: Registry, a: Act)
    requires Inv(r) && !r.accepting && Enabled(r, a)
    ensures !Step(r, a).accepting && ActiveIds(Step(r, a).entries) <= ActiveIds(r.entries)
  {
    forall id | id in ActiveIds(Step(r, a).entries)
      ensures id in ActiveIds(r.entries)
    {
      if Concerns(a, id) && id in r.entries {
        StepIsEntryAfter(r, a, id);
        EntryAfterInv(r.entries[id], a);
      }
    }
  }

  /** With admission closed, an execution that is active in the end has been active, and in the registry, all along. */
  lemma {:induction false} ActiveThroughout(r: Registry, acts: seq<Act>, id: string)
    requires Inv(r) && !r.accepting && Runs(r, acts) && id in ActiveIds(After(r, acts).entries)
    ensures id in ActiveIds(r.entries) && EntryKept(r.entries[id], After(r, acts).entries[id])
    decreases acts
  {
    if acts != [] {
      StepInv(r, acts[0]);
      ClosedStep(r, acts[0]);
      ActiveThroughout(Step(r, acts[0]), acts[1..], id);
      StepEntryKept(r, acts[0], id);
      KeptIsTransitive(r.entries[id], Step(r, acts[0]).entries[id], After(r, acts).entries[id]);
    }
  }

  /** The execution has ended, or it has been asked to and its handler, if it has one, has run for it. */
  predicate Answered(e: Entry) {
    || e.descriptor.state.Terminal()
    || (e.requested.Some? && e.runs == if e.handler then [e.requested.value] else [])
  }

  lemma {:induction false} AskedIsAnswered(r: Registry, acts: seq<Act>, id: string)
    requires Inv(r) && !r.accepting && Runs(r, acts) && Act.Request(id, RunnerShutdown) in acts
    requires id in ActiveIds(After(r, acts).entries)
    ensures Answered(After(r, acts).entries[id])
    decreases acts
  {
    StepInv(r, acts[0]);
    ClosedStep(r, acts[0]);
    RunInv(r, acts);
    ActiveThroughout(r, acts, id);
    ActiveThroughout(Step(r, acts[0]), acts[1..], id);
    if acts[0] != Act.Request(id, RunnerShutdown) {
      assert Act.Request(id, RunnerShutdown) in acts[1..];
      AskedIsAnswered(Step(r, acts[0]), acts[1..], id);
    } else {
      StepIsEntryAfter(r, acts[0], id);
    }
  }

  /** The fan-out of `Shutdown`: once it has closed admission and every execution that was active then has been
      asked to stop, whatever else happens in between, each execution that is still active has ended or has
      been cancelled, so the wait that follows is for executions on their way out only. */
  lemma ShutdownAsksEveryone(r: Registry, before: seq<Act>, closing: seq<Act>, id: string)
    requires Init(r) && Runs(r, before) && Runs(Step(After(r, before), CloseAdmission), closing)
    requires forall x :: x in ActiveIds(After(r, before).entries) ==> Act.Request(x, RunnerShutdown) in closing
    ensures var last := After(Step(After(r, before), CloseAdmission), closing);
            id in ActiveIds(last.entries) ==> id in ActiveIds(After(r, before).entries) && Answered(last.entries[id])
  {
    assert ActiveIds(r.entries) == {};
    RunInv(r, before);
    var closed := Step(After(r, before), CloseAdmission);
    StepInv(After(r, before), CloseAdmission);
    if id in ActiveIds(After(closed, closing).entries) {
      ActiveThroughout(closed, closing, id);
      AskedIsAnswered(closed, closing, id);
    }
  }

  /** `Shutdown` returns nil only after it has closed admission and then found no active execution: from
      that moment on no execution is active in any continuation, and none can be created. */
  lemma ShutdownIsFinal(r: Registry, before: seq<Act>, closing: seq<Act>, later: seq<Act>, newId: Option<string>)
    requires Init(r) && Runs(r, before)
    requires var closed := Step(After(r, before), CloseAdmission);
             Runs(closed, closing) && After(closed, closing).active == 0 && Runs(After(closed, closing), later)
    ensures var last := After(After(Step(After(r, before), CloseAdmission), closing), later);
            && last.active == 0 && (forall id :: id in last.entries ==> !last.entries[id].active)
            && Created(last, newId) == (last, Some(ShuttingDown))
  {
    assert ActiveIds(r.entries) == {};
    RunInv(r, before);
    var closed := Step(After(r, before), CloseAdmission);
    StepInv(After(r, before), CloseAdmission);
    RunInv(closed, closing);
    ClosedKeeps(closed, closing);
    var quiet := After(closed, closing);
    assert ActiveIds(quiet.entries) == {};
    RunInv(quiet, later);
    ClosedKeeps(quiet, later);
    assert forall id :: id in After(quiet, later).entries && After(quiet, later).entries[id].active ==>
        id in ActiveIds(After(quiet, later).entries);
  }
}
