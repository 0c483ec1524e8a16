/** What each way through `Reconcile` leaves behind, when nobody interferes or when a delete does
    (internal/reconcile/reconciler.go:156-488, internal/reconcile/running_recovery.go). */
module ReconcilePaths {
  import opened Wrappers
  import opened TimeText
  import opened SandboxStore
  import opened Lifecycle

  /** These steps of thread t lead from one state to the other. */
  predicate Leads(s: State, t: nat, acts: seq<ReconcileAct>, s': State) {
    var run := seq(|acts|, i requires 0 <= i < |acts| => Reconcile(t, acts[i]));
    Runs(s, run) && After(s, run) == s'
  }

  lemma LeadsNowhere(s: State, t: nat)
    ensures Leads(s, t, [], s)
  {
  }

  lemma LeadsOn(s: State, t: nat, acts: seq<ReconcileAct>, m: State, a: ReconcileAct, s': State)
    requires Leads(s, t, acts, m) && t < |m.pcs| && ReconcileEnabled(m, m.pcs[t], a) && ReconcileStep(m, t, a) == s'
    ensures Leads(s, t, acts + [a], s')
  {
    var run := seq(|acts|, i requires 0 <= i < |acts| => Reconcile(t, acts[i]));
    RunsOn(s, run, Reconcile(t, a));
    var longer := seq(|acts + [a]|, i requires 0 <= i < |acts + [a]| => Reconcile(t, (acts + [a])[i]));
    assert longer == run + [Reconcile(t, a)];
  }

  /** Thread t may begin, and the lease is not due. */
  predicate MayBegin(s: State, t: nat) {
    t < |s.pcs| && s.pcs[t].Idle? && s.lock.None? && !(s.rec.desired.WantRunning? && s.rec.expiry <= s.clock)
  }

  lemma Begins(s: State, t: nat)
    requires MayBegin(s, t)
    ensures Leads(s, t, [Begin, CheckDue], Held(s, t, s.rec, s.runtime, Routed(s.rec)))
  {
    LeadsNowhere(s, t);
    var m := Held(s, t, s.rec, s.runtime, Got(s.rec));
    LeadsOn(s, t, [], s, Begin, m);
    LeadsOn(s, t, [Begin], m, CheckDue, Held(s, t, s.rec, s.runtime, Routed(s.rec)));
    assert [] + [Begin] == [Begin] && [Begin] + [CheckDue] == [Begin, CheckDue];
  }

  // ---------- Bringing a sandbox up ----------

  function Bringing(r: Record): Record {
    r.(revision := r.revision + 1, observed := Creating)
  }

  lemma MarksCreating(s: State, t: nat)
    requires MayBegin(s, t) && s.rec.desired.WantRunning? && !s.rec.observed.Running?
    ensures Leads(s, t, [Begin, CheckDue, MarkCreating], Held(s, t, Bringing(s.rec), s.runtime, Ensuring(Bringing(s.rec))))
  {
    Begins(s, t);
    LeadsOn(s, t, [Begin, CheckDue], Held(s, t, s.rec, s.runtime, Routed(s.rec)), MarkCreating,
            Held(s, t, Bringing(s.rec), s.runtime, Ensuring(Bringing(s.rec))));
    assert [Begin, CheckDue] + [MarkCreating] == [Begin, CheckDue, MarkCreating];
  }

  function Waited(r: Record, id: string): Record {
    r.(revision := r.revision + 2, observed := Creating, runtimeId := id)
  }

  lemma Waits(s: State, t: nat, id: string)
    requires MayBegin(s, t) && s.rec.desired.WantRunning? && !s.rec.observed.Running?
    ensures Leads(s, t, [Begin, CheckDue, MarkCreating, Ensure(true, true, id), MarkWaiting],
                  Held(s, t, Waited(s.rec, id), true, Probing(Waited(s.rec, id))))
  {
    MarksCreating(s, t);
    var acts := [Begin, CheckDue, MarkCreating];
    var m := Held(s, t, Bringing(s.rec), true, Ensured(Bringing(s.rec), id));
    LeadsOn(s, t, acts, Held(s, t, Bringing(s.rec), s.runtime, Ensuring(Bringing(s.rec))), Ensure(true, true, id), m);
    LeadsOn(s, t, acts + [Ensure(true, true, id)], m, MarkWaiting, Held(s, t, Waited(s.rec, id), true, Probing(Waited(s.rec, id))));
    assert acts + [Ensure(true, true, id)] + [MarkWaiting] == [Begin, CheckDue, MarkCreating, Ensure(true, true, id), MarkWaiting];
  }

  /** A sandbox that comes up is Running with its new container, its retries are forgotten, and the lock is free. */
  lemma BringUpSucceeds(s: State, t: nat, id: string)
    requires MayBegin(s, t) && s.rec.desired.WantRunning? && !s.rec.observed.Running?
    ensures Leads(s, t, [Begin, CheckDue, MarkCreating, Ensure(true, true, id), MarkWaiting, MarkRunning(true)],
                  Held(s, t, s.rec.(revision := s.rec.revision + 3, observed := Running, runtimeId := id,
                                    retryAttempt := 0, nextReconcile := None), true, Idle))
  {
    Waits(s, t, id);
    var acts := [Begin, CheckDue, MarkCreating, Ensure(true, true, id), MarkWaiting];
    LeadsOn(s, t, acts, Held(s, t, Waited(s.rec, id), true, Probing(Waited(s.rec, id))), MarkRunning(true),
            Held(s, t, s.rec.(revision := s.rec.revision + 3, observed := Running, runtimeId := id,
                              retryAttempt := 0, nextReconcile := None), true, Idle));
    assert acts + [MarkRunning(true)] == [Begin, CheckDue, MarkCreating, Ensure(true, true, id), MarkWaiting, MarkRunning(true)];
  }

  /** The retry that is scheduled for a failed attempt, if it is one that can be repeated. */
  datatype Failure = Failure(retry: bool, attempted: Instant, next: Instant)

  predicate Countable(r: Record, f: Failure) {
    f.retry ==> 0 < f.attempted < f.next && r.retryAttempt < 4_294_967_295
  }

  /** The record of a failure: Failed, with the container that is left, and one more attempt scheduled. */
  function FailedWith(r: Record, runtimeId: string, f: Failure): Record {
    r.(revision := r.revision + 1, observed := Failed, runtimeId := runtimeId,
       retryAttempt := if f.retry then r.retryAttempt + 1 else r.retryAttempt,
       nextReconcile := if f.retry then Some(f.next) else r.nextReconcile)
  }

  lemma Fails(s: State, t: nat, acts: seq<ReconcileAct>, r: Record, up: bool, runtimeId: string, f: Failure)
    requires t < |s.pcs| && Leads(s, t, acts, Held(s, t, r, up, Recording(r, runtimeId)))
    requires !r.observed.Terminated? && Countable(r, f)
    ensures Leads(s, t, acts + [RecordFailure(f.retry, f.attempted, f.next)], Held(s, t, FailedWith(r, runtimeId, f), up, Idle))
  {
    LeadsOn(s, t, acts, Held(s, t, r, up, Recording(r, runtimeId)), RecordFailure(f.retry, f.attempted, f.next),
            Held(s, t, FailedWith(r, runtimeId, f), up, Idle));
  }

  /** A container that could not be started is removed, and the record forgets it exactly if that succeeded. */
  lemma StartFails(s: State, t: nat, left: bool, cleaned: bool, f: Failure)
    requires MayBegin(s, t) && s.rec.desired.WantRunning? && !s.rec.observed.Running? && Countable(s.rec, f)
    ensures Leads(s, t, [Begin, CheckDue, MarkCreating, Ensure(false, left, ""), Clean(cleaned),
                         RecordFailure(f.retry, f.attempted, f.next)],
                  Held(s, t, FailedWith(Bringing(s.rec), if cleaned then "" else s.rec.runtimeId, f), left && !cleaned, Idle))
  {
    MarksCreating(s, t);
    var acts := [Begin, CheckDue, MarkCreating];
    var r := Bringing(s.rec);
    var runtimeId := if cleaned then "" else s.rec.runtimeId;
    LeadsOn(s, t, acts, Held(s, t, r, s.runtime, Ensuring(r)), Ensure(false, left, ""), Held(s, t, r, left, Cleaning(r)));
    LeadsOn(s, t, acts + [Ensure(false, left, "")], Held(s, t, r, left, Cleaning(r)), Clean(cleaned),
            Held(s, t, r, left && !cleaned, Recording(r, runtimeId)));
    Fails(s, t, acts + [Ensure(false, left, "")] + [Clean(cleaned)], r, left && !cleaned, runtimeId, f);
    assert acts + [Ensure(false, left, "")] + [Clean(cleaned)] + [RecordFailure(f.retry, f.attempted, f.next)] ==
           [Begin, CheckDue, MarkCreating, Ensure(false, left, ""), Clean(cleaned), RecordFailure(f.retry, f.attempted, f.next)];
  }

  /** The same for one that was started and did not become ready. */
  lemma ProbeFailsPath(s: State, t: nat, id: string, cleaned: bool, f: Failure)
    requires MayBegin(s, t) && s.rec.desired.WantRunning? && !s.rec.observed.Running? && Countable(s.rec, f)
    ensures Leads(s, t, [Begin, CheckDue, MarkCreating, Ensure(true, true, id), MarkWaiting, ProbeFails, Clean(cleaned),
                         RecordFailure(f.retry, f.attempted, f.next)],
                  Held(s, t, FailedWith(Waited(s.rec, id), if cleaned then "" else id, f), !cleaned, Idle))
  {
    Waits(s, t, id);
    var acts := [Begin, CheckDue, MarkCreating, Ensure(true, true, id), MarkWaiting];
    var r := Waited(s.rec, id);
    var runtimeId := if cleaned then "" else id;
    LeadsOn(s, t, acts, Held(s, t, r, true, Probing(r)), ProbeFails, Held(s, t, r, true, Cleaning(r)));
    LeadsOn(s, t, acts + [ProbeFails], Held(s, t, r, true, Cleaning(r)), Clean(cleaned), Held(s, t, r, !cleaned, Recording(r, runtimeId)));
    Fails(s, t, acts + [ProbeFails] + [Clean(cleaned)], r, !cleaned, runtimeId, f);
    assert acts + [ProbeFails] + [Clean(cleaned)] + [RecordFailure(f.retry, f.attempted, f.next)] ==
           [Begin, CheckDue, MarkCreating, Ensure(true, true, id), MarkWaiting, ProbeFails, Clean(cleaned),
            RecordFailure(f.retry, f.attempted, f.next)];
  }

  /** A sandbox that is up but whose lease could not be passed on is recorded as failed, with its container. */
  lemma ProjectionFails(s: State, t: nat, id: string, f: Failure)
    requires MayBegin(s, t) && s.rec.desired.WantRunning? && !s.rec.observed.Running? && (f.retry ==> 0 < f.attempted < f.next)
    ensures Leads(s, t, [Begin, CheckDue, MarkCreating, Ensure(true, true, id), MarkWaiting, MarkRunning(false),
                         RecordFailure(f.retry, f.attempted, f.next)],
                  Held(s, t, FailedWith(s.rec.(revision := s.rec.revision + 3, observed := Running, runtimeId := id,
                                               retryAttempt := 0, nextReconcile := None), id, f), true, Idle))
  {
    Waits(s, t, id);
    var acts := [Begin, CheckDue, MarkCreating, Ensure(true, true, id), MarkWaiting];
    var r := s.rec.(revision := s.rec.revision + 3, observed := Running, runtimeId := id, retryAttempt := 0, nextReconcile := None);
    LeadsOn(s, t, acts, Held(s, t, Waited(s.rec, id), true, Probing(Waited(s.rec, id))), MarkRunning(false),
            Held(s, t, r, true, Recording(r, id)));
    Fails(s, t, acts + [MarkRunning(false)], r, true, id, f);
    assert acts + [MarkRunning(false)] + [RecordFailure(f.retry, f.attempted, f.next)] ==
           [Begin, CheckDue, MarkCreating, Ensure(true, true, id), MarkWaiting, MarkRunning(false),
            RecordFailure(f.retry, f.attempted, f.next)];
  }

  // ---------- Checking a running sandbox ----------

  lemma StartsChecking(s: State, t: nat)
    requires MayBegin(s, t) && s.rec.desired.WantRunning? && s.rec.observed.Running?
    ensures Leads(s, t, [Begin, CheckDue, Recover], Held(s, t, s.rec, s.runtime, Checking(s.rec)))
  {
    Begins(s, t);
    LeadsOn(s, t, [Begin, CheckDue], Held(s, t, s.rec, s.runtime, Routed(s.rec)), Recover,
            Held(s, t, s.rec, s.runtime, Checking(s.rec)));
    assert [Begin, CheckDue] + [Recover] == [Begin, CheckDue, Recover];
  }

  /** One that is up, or could be started again, and answers its check only has its failures cleared. */
  lemma HealthyIsRecorded(s: State, t: nat)
    requires MayBegin(s, t) && s.rec.desired.WantRunning? && s.rec.observed.Running?
    ensures var r := s.rec.(revision := s.rec.revision + 1, healthFailures := 0);
            && Leads(s, t, [Begin, CheckDue, Recover, Health(true)], Held(s, t, r, s.runtime, Idle))
            && Leads(s, t, [Begin, CheckDue, Recover, EnsureAgain(true, true), Health(true)], Held(s, t, r, true, Idle))
  {
    StartsChecking(s, t);
    var acts := [Begin, CheckDue, Recover];
    var r := s.rec.(revision := s.rec.revision + 1, healthFailures := 0);
    var up := Held(s, t, s.rec, true, Checking(s.rec));
    LeadsOn(s, t, acts, Held(s, t, s.rec, s.runtime, Checking(s.rec)), Health(true), Held(s, t, r, s.runtime, Idle));
    LeadsOn(s, t, acts, Held(s, t, s.rec, s.runtime, Checking(s.rec)), EnsureAgain(true, true), up);
    LeadsOn(s, t, acts + [EnsureAgain(true, true)], up, Health(true), Held(s, t, r, true, Idle));
    assert acts + [Health(true)] == [Begin, CheckDue, Recover, Health(true)];
    assert acts + [EnsureAgain(true, true)] + [Health(true)] == [Begin, CheckDue, Recover, EnsureAgain(true, true), Health(true)];
  }

  /** A container that has another spec than the record is left alone and reported: Failed, without a retry. */
  lemma DriftIsReported(s: State, t: nat)
    requires MayBegin(s, t) && s.rec.desired.WantRunning? && s.rec.observed.Running?
    ensures Leads(s, t, [Begin, CheckDue, Recover, Drift],
                  Held(s, t, s.rec.(revision := s.rec.revision + 1, observed := Failed), s.runtime, Idle))
  {
    StartsChecking(s, t);
    LeadsOn(s, t, [Begin, CheckDue, Recover], Held(s, t, s.rec, s.runtime, Checking(s.rec)), Drift,
            Held(s, t, s.rec.(revision := s.rec.revision + 1, observed := Failed), s.runtime, Idle));
    assert [Begin, CheckDue, Recover] + [Drift] == [Begin, CheckDue, Recover, Drift];
  }

  /** A container that cannot be inspected, or cannot be started again, is a failure that keeps its ID. */
  lemma CheckFailsPath(s: State, t: nat, f: Failure)
    requires MayBegin(s, t) && s.rec.desired.WantRunning? && s.rec.observed.Running? && Countable(s.rec, f)
    ensures Leads(s, t, [Begin, CheckDue, Recover, CheckFails, RecordFailure(f.retry, f.attempted, f.next)],
                  Held(s, t, FailedWith(s.rec, s.rec.runtimeId, f), s.runtime, Idle))
    ensures Leads(s, t, [Begin, CheckDue, Recover, EnsureAgain(false, false), RecordFailure(f.retry, f.attempted, f.next)],
                  Held(s, t, FailedWith(s.rec, s.rec.runtimeId, f), false, Idle))
  {
    StartsChecking(s, t);
    var acts := [Begin, CheckDue, Recover];
    var m := Held(s, t, s.rec, s.runtime, Checking(s.rec));
    LeadsOn(s, t, acts, m, CheckFails, Held(s, t, s.rec, s.runtime, Recording(s.rec, s.rec.runtimeId)));
    Fails(s, t, acts + [CheckFails], s.rec, s.runtime, s.rec.runtimeId, f);
    LeadsOn(s, t, acts, m, EnsureAgain(false, false), Held(s, t, s.rec, false, Recording(s.rec, s.rec.runtimeId)));
    Fails(s, t, acts + [EnsureAgain(false, false)], s.rec, false, s.rec.runtimeId, f);
    var last := RecordFailure(f.retry, f.attempted, f.next);
    assert acts + [CheckFails] + [last] == [Begin, CheckDue, Recover, CheckFails, last];
    assert acts + [EnsureAgain(false, false)] + [last] == [Begin, CheckDue, Recover, EnsureAgain(false, false), last];
  }

  /** What is settled has its retries forgotten, if there are any, and is left alone otherwise. */
  function Settled(r: Record): Record {
    if r.retryAttempt == 0 && r.nextReconcile.None? then r
    else r.(revision := r.revision + 1, retryAttempt := 0, nextReconcile := None,
            runtimeId := if r.observed.Terminated? then "" else r.runtimeId)
  }

  lemma SettledIsLeftAlone(s: State, t: nat)
    requires MayBegin(s, t) && (if s.rec.desired.WantRunning? then s.rec.observed.Running? else s.rec.observed.Terminated?)
    ensures Leads(s, t, [Begin, CheckDue, Settle], Held(s, t, Settled(s.rec), s.runtime, Idle))
  {
    Begins(s, t);
    LeadsOn(s, t, [Begin, CheckDue], Held(s, t, s.rec, s.runtime, Routed(s.rec)), Settle, Held(s, t, Settled(s.rec), s.runtime, Idle));
    assert [Begin, CheckDue] + [Settle] == [Begin, CheckDue, Settle];
  }

  // ---------- Replacing a container ----------

  /** A replaced container that answers its check clears the failures and frees the lock; one that cannot be
      replaced is recorded as failed. */
  lemma ReplacementRecovers(s: State, t: nat)
    requires t < |s.pcs| && s.pcs[t].Replacing? && s.lock == Some(t)
    requires s.rec.desired.WantRunning? && s.rec.observed.Running?
    ensures Leads(s, t, [Reread, Substitute(true, true), Health(true)],
                  Held(s, t, s.rec.(revision := s.rec.revision + 1, healthFailures := 0), true, Idle))
  {
    LeadsNowhere(s, t);
    var m1 := Held(s, t, s.rec, s.runtime, Substituting(s.rec));
    var m2 := Held(s, t, s.rec, true, Checking(s.rec));
    LeadsOn(s, t, [], s, Reread, m1);
    LeadsOn(s, t, [] + [Reread], m1, Substitute(true, true), m2);
    LeadsOn(s, t, [] + [Reread] + [Substitute(true, true)], m2, Health(true),
            Held(s, t, s.rec.(revision := s.rec.revision + 1, healthFailures := 0), true, Idle));
    assert [] + [Reread] + [Substitute(true, true)] + [Health(true)] == [Reread, Substitute(true, true), Health(true)];
  }

  lemma ReplacementFails(s: State, t: nat, left: bool, f: Failure)
    requires t < |s.pcs| && s.pcs[t].Replacing? && s.lock == Some(t)
    requires s.rec.desired.WantRunning? && s.rec.observed.Running? && Countable(s.rec, f)
    ensures Leads(s, t, [Reread, Substitute(false, left), RecordFailure(f.retry, f.attempted, f.next)],
                  Held(s, t, FailedWith(s.rec, s.rec.runtimeId, f), left, Idle))
  {
    LeadsNowhere(s, t);
    var m1 := Held(s, t, s.rec, s.runtime, Substituting(s.rec));
    LeadsOn(s, t, [], s, Reread, m1);
    LeadsOn(s, t, [] + [Reread], m1, Substitute(false, left), Held(s, t, s.rec, left, Recording(s.rec, s.rec.runtimeId)));
    Fails(s, t, [] + [Reread] + [Substitute(false, left)], s.rec, left, s.rec.runtimeId, f);
    assert [] + [Reread] + [Substitute(false, left)] + [RecordFailure(f.retry, f.attempted, f.next)] ==
           [Reread, Substitute(false, left), RecordFailure(f.retry, f.attempted, f.next)];
  }

  // ---------- Taking a sandbox down ----------

  function Gone(r: Record): Record {
    r.(revision := r.revision + 2, observed := Terminated, runtimeId := "", retryAttempt := 0, nextReconcile := None)
  }

  function Stopped(r: Record): Record {
    r.(revision := r.revision + 1, observed := Stopping)
  }

  /** The three steps of taking down. */
  predicate TakesStep(s: State, t: nat, a: ReconcileAct, s': State) {
    t < |s.pcs| && ReconcileEnabled(s, s.pcs[t], a) && ReconcileStep(s, t, a) == s'
  }

  lemma StopsFirst(s: State, t: nat, r: Record)
    requires t < |s.pcs| && r.desired.WantTerminated? && !r.observed.Terminated?
    ensures TakesStep(Held(s, t, r, s.runtime, Routed(r)), t, MarkStopping, Held(s, t, Stopped(r), s.runtime, StoppingRuntime(Stopped(r))))
    ensures TakesStep(Held(s, t, Stopped(r), s.runtime, StoppingRuntime(Stopped(r))), t, DeleteRuntime(true, false),
                      Held(s, t, Stopped(r), false, RuntimeGone(Stopped(r))))
  {
  }

  lemma TerminatesLast(s: State, t: nat, r: Record)
    requires t < |s.pcs| && r.desired.WantTerminated?
    ensures TakesStep(Held(s, t, Stopped(r), false, RuntimeGone(Stopped(r))), t, MarkTerminated, Held(s, t, Gone(r), false, Idle))
  {
  }

  /** From wherever the intent to terminate is noticed: Stopping, the runtime is deleted, Terminated. */
  lemma TakesDown(s: State, t: nat, acts: seq<ReconcileAct>, r: Record)
    requires t < |s.pcs| && Leads(s, t, acts, Held(s, t, r, s.runtime, Routed(r)))
    requires r.desired.WantTerminated? && !r.observed.Terminated?
    ensures Leads(s, t, acts + [MarkStopping, DeleteRuntime(true, false), MarkTerminated], Held(s, t, Gone(r), false, Idle))
  {
    StopsFirst(s, t, r);
    TerminatesLast(s, t, r);
    LeadsThrice(s, t, acts, Held(s, t, r, s.runtime, Routed(r)), MarkStopping,
                Held(s, t, Stopped(r), s.runtime, StoppingRuntime(Stopped(r))), DeleteRuntime(true, false),
                Held(s, t, Stopped(r), false, RuntimeGone(Stopped(r))), MarkTerminated, Held(s, t, Gone(r), false, Idle));
  }

  lemma LeadsThrice(s: State, t: nat, acts: seq<ReconcileAct>, s1: State, a1: ReconcileAct, s2: State, a2: ReconcileAct,
                    s3: State, a3: ReconcileAct, s4: State)
    requires Leads(s, t, acts, s1) && TakesStep(s1, t, a1, s2) && TakesStep(s2, t, a2, s3) && TakesStep(s3, t, a3, s4)
    ensures Leads(s, t, acts + [a1, a2, a3], s4)
  {
    LeadsOn(s, t, acts, s1, a1, s2);
    LeadsOn(s, t, acts + [a1], s2, a2, s3);
    LeadsOn(s, t, acts + [a1] + [a2], s3, a3, s4);
    assert acts + [a1] + [a2] + [a3] == acts + [a1, a2, a3];
  }

  lemma DeletedSandboxIsTakenDown(s: State, t: nat)
    requires MayBegin(s, t) && s.rec.desired.WantTerminated? && !s.rec.observed.Terminated?
    ensures Leads(s, t, [Begin, CheckDue, MarkStopping, DeleteRuntime(true, false), MarkTerminated],
                  Held(s, t, Gone(s.rec), false, Idle))
  {
    Begins(s, t);
    TakesDown(s, t, [Begin, CheckDue], s.rec);
    assert [Begin, CheckDue] + [MarkStopping, DeleteRuntime(true, false), MarkTerminated] ==
           [Begin, CheckDue, MarkStopping, DeleteRuntime(true, false), MarkTerminated];
  }

  /** A runtime that cannot be deleted is a failure, too: the sandbox stays on its way out, with its container. */
  lemma DeletionFails(s: State, t: nat, left: bool, f: Failure)
    requires MayBegin(s, t) && s.rec.desired.WantTerminated? && !s.rec.observed.Terminated? && Countable(s.rec, f)
    requires left ==> s.runtime
    ensures Leads(s, t, [Begin, CheckDue, MarkStopping, DeleteRuntime(false, left), RecordFailure(f.retry, f.attempted, f.next)],
                  Held(s, t, FailedWith(Stopped(s.rec), s.rec.runtimeId, f), left, Idle))
  {
    Begins(s, t);
    StopsFirst(s, t, s.rec);
    var acts := [Begin, CheckDue];
    var m := Held(s, t, Stopped(s.rec), s.runtime, StoppingRuntime(Stopped(s.rec)));
    LeadsOn(s, t, acts, Held(s, t, s.rec, s.runtime, Routed(s.rec)), MarkStopping, m);
    LeadsOn(s, t, acts + [MarkStopping], m, DeleteRuntime(false, left),
            Held(s, t, Stopped(s.rec), left, Recording(Stopped(s.rec), s.rec.runtimeId)));
    Fails(s, t, acts + [MarkStopping] + [DeleteRuntime(false, left)], Stopped(s.rec), left, s.rec.runtimeId, f);
    assert acts + [MarkStopping] + [DeleteRuntime(false, left)] + [RecordFailure(f.retry, f.attempted, f.next)] ==
           [Begin, CheckDue, MarkStopping, DeleteRuntime(false, left), RecordFailure(f.retry, f.attempted, f.next)];
  }

  function Expired(r: Record, now: Instant): Record {
    r.(revision := r.revision + 1, desired := WantTerminated, observed := Stopping, nextReconcile := Some(now))
  }

  predicate FindsDue(s: State, t: nat) {
    && t < |s.pcs| && s.pcs[t].Idle? && s.lock.None?
    && s.rec.desired.WantRunning? && !s.rec.observed.Terminated? && s.rec.expiry <= s.clock
  }

  /** The store takes the expiry of the record it holds. */
  predicate TakesExpiry(r: Record, now: Instant) {
    Applied(r, r.revision, ExpireIntent(r.expiry, now)) == (Expired(r, now), Updated(Expired(r, now)))
  }

  lemma LooksAtDue(s: State, t: nat)
    requires FindsDue(s, t)
    ensures TakesStep(s, t, Begin, Held(s, t, s.rec, s.runtime, Got(s.rec)))
    ensures TakesStep(Held(s, t, s.rec, s.runtime, Got(s.rec)), t, CheckDue, Held(s, t, s.rec, s.runtime, Due(s.rec, s.clock)))
  {
  }

  lemma ExpiresDue(s: State, t: nat)
    requires FindsDue(s, t) && TakesExpiry(s.rec, s.clock)
    ensures TakesStep(Held(s, t, s.rec, s.runtime, Due(s.rec, s.clock)), t, CommitDue,
                      Held(s, t, Expired(s.rec, s.clock), s.runtime, Routed(Expired(s.rec, s.clock))))
  {
    var m := Held(s, t, s.rec, s.runtime, Due(s.rec, s.clock));
    AfterUpdate(s, t, s.rec, s.runtime, Due(s.rec, s.clock), Expired(s.rec, s.clock), ToRouted, false);
    assert ReconcileStep(m, t, CommitDue) == CommitHeld(m, t, s.rec.revision, ExpireIntent(s.rec.expiry, s.clock), ToRouted, false);
  }

  lemma RoutesDue(s: State, t: nat)
    requires FindsDue(s, t) && TakesExpiry(s.rec, s.clock)
    ensures var r := Expired(s.rec, s.clock); Leads(s, t, [Begin, CheckDue, CommitDue], Held(s, t, r, s.runtime, Routed(r)))
  {
    LeadsNowhere(s, t);
    LooksAtDue(s, t);
    ExpiresDue(s, t);
    var r := Expired(s.rec, s.clock);
    LeadsThrice(s, t, [], s, Begin, Held(s, t, s.rec, s.runtime, Got(s.rec)), CheckDue,
                Held(s, t, s.rec, s.runtime, Due(s.rec, s.clock)), CommitDue, Held(s, t, r, s.runtime, Routed(r)));
    assert [] + [Begin, CheckDue, CommitDue] == [Begin, CheckDue, CommitDue];
  }

  lemma RoutedIsTakenDown(s: State, t: nat, r: Record)
    requires t < |s.pcs| && r.desired.WantTerminated? && !r.observed.Terminated?
    requires Leads(s, t, [Begin, CheckDue, CommitDue], Held(s, t, r, s.runtime, Routed(r)))
    ensures Leads(s, t, [Begin, CheckDue, CommitDue, MarkStopping, DeleteRuntime(true, false), MarkTerminated],
                  Held(s, t, Gone(r), false, Idle))
  {
    TakesDown(s, t, [Begin, CheckDue, CommitDue], r);
    assert [Begin, CheckDue, CommitDue] + [MarkStopping, DeleteRuntime(true, false), MarkTerminated] ==
           [Begin, CheckDue, CommitDue, MarkStopping, DeleteRuntime(true, false), MarkTerminated];
  }

  lemma ExpiryIsTaken(r: Record, now: Instant)
    requires LeaseDue(r, now) && r.expiry > 0 && !Inverted(r.expiry, now)
    ensures TakesExpiry(r, now)
  {
    DueExpires(r, now);
    assert Written(r, ExpireIntent(r.expiry, now)) == Expired(r, now);
  }

  /** The scanner itself takes down a sandbox whose lease it finds run out, with times that are not inverted. */
  lemma DueSandboxIsTakenDown(s: State, t: nat)
    requires FindsDue(s, t) && s.rec.expiry > 0 && !Inverted(s.rec.expiry, s.clock)
    ensures Leads(s, t, [Begin, CheckDue, CommitDue, MarkStopping, DeleteRuntime(true, false), MarkTerminated],
                  Held(s, t, Gone(Expired(s.rec, s.clock)), false, Idle))
  {
    ExpiryIsTaken(s.rec, s.clock);
    RoutesDue(s, t);
    RoutedIsTakenDown(s, t, Expired(s.rec, s.clock));
  }

  /** The results that a running sandbox's check may have to store. */
  predicate Stores(a: ReconcileAct) {
    a.Health? || a.Drift?
  }

  lemma Conflicts(s: State, t: nat, a: ReconcileAct)
    requires t < |s.pcs| && s.pcs[t].Checking? && s.lock == Some(t) && Stores(a)
    requires s.pcs[t].snap.revision != s.rec.revision
    ensures Leads(s, t, [a], Held(s, t, s.rec, s.runtime, Honoring))
  {
    LeadsNowhere(s, t);
    LeadsOn(s, t, [], s, a, Held(s, t, s.rec, s.runtime, Honoring));
    assert [] + [a] == [a];
  }

  /** A delete that comes in between the look at a running sandbox and the result of its check is honored by the
      very reconcile that lost the race; if the record has changed for another reason, nothing is done. */
  lemma ConcurrentDeleteIsHonored(s: State, t: nat, a: ReconcileAct)
    requires t < |s.pcs| && s.pcs[t].Checking? && s.lock == Some(t) && Stores(a)
    requires s.pcs[t].snap.revision != s.rec.revision
    ensures s.rec.desired.WantRunning? ==> Leads(s, t, [a, Honor], Held(s, t, s.rec, s.runtime, Idle))
    ensures s.rec.desired.WantTerminated? && !s.rec.observed.Terminated? ==>
              Leads(s, t, [a, Honor, MarkStopping, DeleteRuntime(true, false), MarkTerminated],
                    Held(s, t, Gone(s.rec), false, Idle))
  {
    Conflicts(s, t, a);
    var m := Held(s, t, s.rec, s.runtime, Honoring);
    assert [a] + [Honor] == [a, Honor];
    if s.rec.desired.WantRunning? {
      LeadsOn(s, t, [a], m, Honor, Held(s, t, s.rec, s.runtime, Idle));
    } else {
      LeadsOn(s, t, [a], m, Honor, Held(s, t, s.rec, s.runtime, Routed(s.rec)));
      if !s.rec.observed.Terminated? {
        TakesDown(s, t, [a, Honor], s.rec);
        assert [a, Honor] + [MarkStopping, DeleteRuntime(true, false), MarkTerminated] ==
               [a, Honor, MarkStopping, DeleteRuntime(true, false), MarkTerminated];
      }
    }
  }
}
