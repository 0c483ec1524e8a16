/** One sandbox under every interleaving of renewals, deletes, TTL timers, the periodic scanner, metadata
    repairs, drift records and reconciles, all of them compare-and-swap clients of its record
    (internal/application/renew.go, internal/application/renew_validator.go,
    internal/application/sandbox_service.go:160-202, internal/reconcile/ttl_expiration.go:47-81,
    internal/reconcile/reconciler.go, internal/reconcile/running_recovery.go). */
module Lifecycle {
  import opened Wrappers
  import opened TimeText
  import opened SandboxStore

  /** `MinimumTTL` and `MaximumTTL`. */
  datatype Policy = Policy(minimum: nat, maximum: nat)

  /** Where a thread is, with the record it has read and the clock reading it goes by. The second group
      is `Reconcile`, which holds the keyed lock of the sandbox throughout. */
  datatype Pc =
    | Idle
    | Renewing(requested: Instant, snap: Record, left: nat)
    | RenewChecked(requested: Instant, snap: Record, now: Instant, left: nat)
    | RenewLost(requested: Instant, left: nat)
    | Deleting(snap: Record, left: nat)
    | DeleteLost(left: nat)
    | Timing(expected: Instant, left: nat)
    | TimerRead(expected: Instant, snap: Record, left: nat)
    | TimerChecked(expected: Instant, snap: Record, now: Instant, left: nat)
    | Keeping(snap: Record)                       // metadata repair and recovery
    | Drifting(snap: Record)                      // RecordSpecDrift and FailEgress
    | Got(snap: Record)
    | Due(snap: Record, now: Instant)
    | Routed(snap: Record)
    | Ensuring(snap: Record)                      // Creating is stored, Runtime.Ensure is next
    | Ensured(snap: Record, newId: string)
    | Probing(snap: Record)
    | Cleaning(snap: Record)                      // failRunning
    | Recording(snap: Record, newId: string)      // recordFailure
    | Checking(snap: Record)                      // recoverRunning
    | Replacing                                   // replaceRunningCompute, before it reads again
    | Substituting(snap: Record)                  // ReplaceCompute is next
    | Honoring                                    // honorConcurrentDelete
    | StoppingRuntime(snap: Record)               // Stopping is stored, Runtime.Delete is next
    | RuntimeGone(snap: Record)                   // Runtime.Delete succeeded or reported absence
  {
    predicate Reconciles() {
      !Idle? && !Renewing? && !RenewChecked? && !RenewLost? && !Deleting? && !DeleteLost?
      && !Timing? && !TimerRead? && !TimerChecked? && !Keeping? && !Drifting?
    }

    /** Stages in which the runtime may be asked to create something. */
    predicate Creates() {
      Ensuring? || Checking? || Substituting?
    }
  }

  datatype State = State(
    policy: Policy, rec: Record, clock: Instant, lock: Option<nat>, runtime: bool, pcs: seq<Pc>)

  /** One store call of thread t: the new record and what the thread does next. */
  function Commit(s: State, t: nat, revision: nat, op: Op, updated: Pc, conflict: Pc): State
    requires t < |s.pcs|
  {
    var (rec, reply) := Applied(s.rec, revision, op);
    s.(rec := rec, pcs := s.pcs[t := if reply.Conflict? then conflict else updated])
  }

  function Go(s: State, t: nat, pc: Pc): State
    requires t < |s.pcs|
  {
    s.(pcs := s.pcs[t := pc])
  }

  /** Leaves `Reconcile` and releases the keyed lock. */
  function Exit(s: State, t: nat): State
    requires t < |s.pcs|
  {
    s.(pcs := s.pcs[t := Idle], lock := None)
  }

  /** Where a successful store call inside `Reconcile` leads. */
  datatype Onward = ToRouted | ToEnsuring | ToProbing | ToRecording | ToHealth(healthy: bool) | ToStopping | ToExit

  const HEALTH_FAILURE_THRESHOLD := 3

  function Next(onward: Onward, r: Record): Pc {
    match onward
    case ToRouted => Routed(r)
    case ToEnsuring => Ensuring(r)
    case ToProbing => Probing(r)
    case ToRecording => Recording(r, r.runtimeId)
    case ToHealth(healthy) => if !healthy && r.healthFailures >= HEALTH_FAILURE_THRESHOLD then Replacing else Idle
    case ToStopping => StoppingRuntime(r)
    case ToExit => Idle
  }

  /** Where thread t goes with the reply to a store call inside `Reconcile`; `honors` says that a conflict leads
      to honorConcurrentDelete. */
  function AfterReply(s: State, t: nat, rec: Record, reply: Reply, onward: Onward, honors: bool): State
    requires t < |s.pcs|
  {
    var pc := if reply.Updated? then Next(onward, rec) else if reply.Conflict? && honors then Honoring else Idle;
    s.(rec := rec, pcs := s.pcs[t := pc], lock := if pc.Idle? then None else s.lock)
  }

  function CommitHeld(s: State, t: nat, revision: nat, op: Op, onward: Onward, honors: bool): State
    requires t < |s.pcs|
  {
    var (rec, reply) := Applied(s.rec, revision, op);
    AfterReply(s, t, rec, reply, onward, honors)
  }

  /** `sandboxLeaseDue`. */
  predicate LeaseDue(r: Record, now: Instant) {
    r.desired.WantRunning? && !r.observed.Terminated? && now >= r.expiry
  }

  /** How `validateRenew` ends: the lease is to be extended, is already as requested, or an error. */
  datatype RenewCheck = Extend | Same | InvalidExpiration | Expiring | LeaseConflict

  /** `validateRenew`. */
  function ValidateRenew(p: Policy, r: Record, requested: Instant, now: Instant): RenewCheck {
    if p.minimum == 0 || p.maximum < p.minimum || requested == ZERO then InvalidExpiration
    else if !r.desired.WantRunning? || r.observed.Terminated? || now >= r.expiry then Expiring
    else if requested == r.expiry then Same
    else if requested < r.expiry then LeaseConflict
    else if now + p.minimum >= YEAR_10000 || now + p.maximum >= YEAR_10000 then InvalidExpiration
    else if requested < now + p.minimum || requested > now + p.maximum then InvalidExpiration
    else Extend
  }

  /** What a renewal is meant to need: an active lease that has not run out, and a later end within the policy's
      bounds from now, which the calendar can express. */
  predicate RenewAllowed(p: Policy, r: Record, requested: Instant, now: Instant) {
    && 0 < p.minimum <= p.maximum && now + p.maximum < YEAR_10000
    && r.desired.WantRunning? && !r.observed.Terminated? && now < r.expiry
    && r.expiry < requested && now + p.minimum <= requested <= now + p.maximum
  }

  /** The checks accept exactly the allowed renewals, and each error has one cause. */
  lemma ValidatedExactly(p: Policy, r: Record, requested: Instant, now: Instant)
    ensures var active := r.desired.WantRunning? && !r.observed.Terminated? && now < r.expiry;
            var usable := 0 < p.minimum <= p.maximum && requested != ZERO;
            match ValidateRenew(p, r, requested, now)
            case Extend => RenewAllowed(p, r, requested, now)
            case Same => active && usable && requested == r.expiry
            case Expiring => usable && !active
            case LeaseConflict => active && usable && requested < r.expiry
            case InvalidExpiration =>
              || !usable
              || (active && r.expiry < requested
                  && (now + p.maximum >= YEAR_10000 || requested < now + p.minimum || now + p.maximum < requested))
    ensures RenewAllowed(p, r, requested, now) ==> ValidateRenew(p, r, requested, now).Extend?
  {
  }

  // ---------- Steps of the clients without the lock ----------

  datatype ClientAct =
    | StartRenew(requested: Instant)
    | CheckRenew
    | CommitRenew
    | RereadRenew
    | StartDelete
    | CommitDelete
    | RereadDelete
    | StartTimer(expected: Instant)
    | ReadTimer
    | CheckTimer
    | CommitTimer
    | ReadKeep
    | CommitKeep(newId: string, at: Option<Instant>)
    | ReadDrift
    | CommitDrift

  predicate ClientEnabled(pc: Pc, a: ClientAct) {
    match a
    case StartRenew(_) => pc.Idle?
    case CheckRenew => pc.Renewing?
    case CommitRenew => pc.RenewChecked?
    case RereadRenew => pc.RenewLost?
    case StartDelete => pc.Idle?
    case CommitDelete => pc.Deleting?
    case RereadDelete => pc.DeleteLost?
    case StartTimer(_) => pc.Idle?
    case ReadTimer => pc.Timing?
    case CheckTimer => pc.TimerRead?
    case CommitTimer => pc.TimerChecked?
    case ReadKeep => pc.Idle?
    case CommitKeep(_, _) => pc.Keeping?
    case ReadDrift => pc.Idle?
    case CommitDrift => pc.Drifting?
  }

  const RENEW_ATTEMPTS := 3
  const DELETE_ATTEMPTS := 2
  const EXPIRE_ATTEMPTS := 3

  function ClientStep(s: State, t: nat, a: ClientAct): State
    requires t < |s.pcs| && ClientEnabled(s.pcs[t], a)
  {
    var pc := s.pcs[t];
    match a
    case StartRenew(requested) => Go(s, t, Renewing(requested, s.rec, RENEW_ATTEMPTS))
    case CheckRenew =>
      Go(s, t, if ValidateRenew(s.policy, pc.snap, pc.requested, s.clock).Extend?
               then RenewChecked(pc.requested, pc.snap, s.clock, pc.left) else Idle)
    case CommitRenew =>
      Commit(s, t, pc.snap.revision, Renew(pc.now, pc.requested), Idle,
             if pc.left > 1 then RenewLost(pc.requested, pc.left - 1) else Idle)
    case RereadRenew => Go(s, t, Renewing(pc.requested, s.rec, pc.left))
    case StartDelete => Go(s, t, Deleting(s.rec, DELETE_ATTEMPTS))
    case CommitDelete =>
      if pc.snap.observed.Terminated? then Go(s, t, Idle)
      else Commit(s, t, pc.snap.revision, UpdateDesired(s.clock), Idle, if pc.left > 1 then DeleteLost(pc.left - 1) else Idle)
    case RereadDelete => Go(s, t, Deleting(s.rec, pc.left))
    case StartTimer(expected) => Go(s, t, Timing(expected, EXPIRE_ATTEMPTS))
    case ReadTimer => Go(s, t, TimerRead(pc.expected, s.rec, pc.left))
    case CheckTimer =>
      Go(s, t, if LeaseDue(pc.snap, s.clock) && pc.snap.expiry == pc.expected
               then TimerChecked(pc.expected, pc.snap, s.clock, pc.left) else Idle)
    case CommitTimer =>
      Commit(s, t, pc.snap.revision, ExpireIntent(pc.expected, pc.now), Idle,
             if pc.left > 1 then Timing(pc.expected, pc.left - 1) else Idle)
    case ReadKeep => Go(s, t, Keeping(s.rec))
    case CommitKeep(newId, at) => Commit(s, t, pc.snap.revision, UpdateObserved(pc.snap.observed, newId, at), Idle, Idle)
    case ReadDrift => Go(s, t, if s.rec.desired.WantRunning? then Drifting(s.rec) else Idle)
    case CommitDrift => Commit(s, t, pc.snap.revision, UpdateObserved(Failed, pc.snap.runtimeId, None), Idle, Idle)
  }

  // ---------- Steps of Reconcile ----------

  /** `present` is what a runtime call leaves behind. */
  datatype ReconcileAct =
    | Begin
    | CheckDue
    | CommitDue
    | Settle                              // resetSettledRetry
    | MarkCreating
    | Ensure(ok: bool, present: bool, id: string)
    | MarkWaiting
    | ProbeFails
    | MarkRunning(projected: bool)
    | Clean(ok: bool)
    | RecordFailure(retry: bool, attempted: Instant, next: Instant)
    | Recover                             // a Running record goes to recoverRunning
    | EnsureAgain(ok: bool, present: bool)
    | CheckFails
    | Health(healthy: bool)
    | Drift
    | Replace
    | Reread
    | Substitute(ok: bool, present: bool)
    | Honor
    | MarkStopping
    | DeleteRuntime(ok: bool, present: bool)
    | MarkTerminated
    | Abort                               // an error, a panic or the end of the context

  predicate ReconcileEnabled(s: State, pc: Pc, a: ReconcileAct) {
    match a
    case Begin => pc.Idle? && s.lock.None?
    case CheckDue => pc.Got?
    case CommitDue => pc.Due?
    case Settle => pc.Routed? && (pc.snap.desired.WantTerminated? <==> pc.snap.observed.Terminated?)
                   && (pc.snap.observed.Running? || pc.snap.observed.Terminated?)
    case MarkCreating => pc.Routed? && pc.snap.desired.WantRunning? && !pc.snap.observed.Running?
    case Ensure(ok, present, _) => pc.Ensuring? && (ok ==> present)
    case MarkWaiting => pc.Ensured?
    case ProbeFails => pc.Probing?
    case MarkRunning(_) => pc.Probing?
    case Clean(_) => pc.Cleaning?
    case RecordFailure(_, _, _) => pc.Recording?
    case Recover => pc.Routed? && pc.snap.desired.WantRunning? && pc.snap.observed.Running?
    case EnsureAgain(ok, present) => pc.Checking? && (ok ==> present)
    case CheckFails => pc.Checking?
    case Health(_) => pc.Checking?
    case Drift => pc.Checking?
    case Replace => pc.Checking?
    case Reread => pc.Replacing?
    case Substitute(ok, present) => pc.Substituting? && (ok ==> present)
    case Honor => pc.Honoring?
    case MarkStopping => pc.Routed? && pc.snap.desired.WantTerminated? && !pc.snap.observed.Terminated?
    case DeleteRuntime(ok, present) => pc.StoppingRuntime? && (present ==> s.runtime) && (ok ==> !present)
    case MarkTerminated => pc.RuntimeGone?
    case Abort => pc.Reconciles()
  }

  function ReconcileStep(s: State, t: nat, a: ReconcileAct): State
    requires t < |s.pcs| && ReconcileEnabled(s, s.pcs[t], a)
  {
    var pc := s.pcs[t];
    match a
    case Begin => Go(s, t, Got(s.rec)).(lock := Some(t))
    case CheckDue => Go(s, t, if LeaseDue(pc.snap, s.clock) then Due(pc.snap, s.clock) else Routed(pc.snap))
    case CommitDue => CommitHeld(s, t, pc.snap.revision, ExpireIntent(pc.snap.expiry, pc.now), ToRouted, false)
    case Settle =>
      if pc.snap.retryAttempt == 0 && pc.snap.nextReconcile.None? then Exit(s, t)
      else CommitHeld(s, t, pc.snap.revision,
                      ResetRetry(pc.snap.observed, if pc.snap.observed.Terminated? then "" else pc.snap.runtimeId), ToExit, false)
    case MarkCreating =>
      CommitHeld(s, t, pc.snap.revision, UpdateObserved(Creating, pc.snap.runtimeId, None), ToEnsuring, false)
    case Ensure(ok, present, id) => Go(s, t, if ok then Ensured(pc.snap, id) else Cleaning(pc.snap)).(runtime := present)
    case MarkWaiting => CommitHeld(s, t, pc.snap.revision, UpdateObserved(Creating, pc.newId, None), ToProbing, false)
    case ProbeFails => Go(s, t, Cleaning(pc.snap))
    case MarkRunning(projected) =>
      CommitHeld(s, t, pc.snap.revision, ResetRetry(Running, pc.snap.runtimeId), if projected then ToExit else ToRecording, false)
    case Clean(ok) =>
      Go(s, t, Recording(pc.snap, if ok then "" else pc.snap.runtimeId)).(runtime := s.runtime && !ok)
    case RecordFailure(retry, attempted, next) =>
      CommitHeld(s, t, pc.snap.revision,
                 if retry then ScheduleRetry(attempted, next, pc.newId) else UpdateObserved(Failed, pc.newId, None),
                 ToExit, false)
    case Recover => Go(s, t, Checking(pc.snap))
    case EnsureAgain(ok, present) =>
      Go(s, t, if ok then pc else Recording(pc.snap, pc.snap.runtimeId)).(runtime := present)
    case CheckFails => Go(s, t, Recording(pc.snap, pc.snap.runtimeId))
    case Health(healthy) => CommitHeld(s, t, pc.snap.revision, RecordHealth(healthy), ToHealth(healthy), true)
    case Drift =>
      CommitHeld(s, t, pc.snap.revision, UpdateObserved(Failed, pc.snap.runtimeId, None), ToExit, true)
    case Replace => Go(s, t, Replacing)
    case Reread => Go(s, t, if s.rec.desired.WantTerminated? then Routed(s.rec) else Substituting(s.rec))
    case Substitute(ok, present) =>
      Go(s, t, if ok then Checking(pc.snap) else Recording(pc.snap, pc.snap.runtimeId)).(runtime := present)
    case Honor => if s.rec.desired.WantTerminated? then Go(s, t, Routed(s.rec)) else Exit(s, t)
    case MarkStopping =>
      CommitHeld(s, t, pc.snap.revision, UpdateObserved(Stopping, pc.snap.runtimeId, None), ToStopping, false)
    case DeleteRuntime(ok, present) =>
      Go(s, t, if ok then RuntimeGone(pc.snap) else Recording(pc.snap, pc.snap.runtimeId)).(runtime := present)
    case MarkTerminated => CommitHeld(s, t, pc.snap.revision, ResetRetry(Terminated, ""), ToExit, false)
    case Abort => Exit(s, t)
  }

  // ---------- The whole system ----------

  datatype Act = Tick(now: Instant) | Client(t: nat, client: ClientAct) | Reconcile(t: nat, reconcile: ReconcileAct)

  predicate Enabled(s: State, a: Act) {
    match a
    case Tick(now) => now >= s.clock
    case Client(t, c) => t < |s.pcs| && ClientEnabled(s.pcs[t], c)
    case Reconcile(t, r) => t < |s.pcs| && ReconcileEnabled(s, s.pcs[t], r)
  }

  function Step(s: State, a: Act): State
    requires Enabled(s, a)
  {
    match a
    case Tick(now) => s.(clock := now)
    case Client(t, c) => ClientStep(s, t, c)
    case Reconcile(t, r) => ReconcileStep(s, t, r)
  }

  /** A record as `resolveCreateLease` and the create transaction store it. */
  predicate Init(s: State) {
    && s.rec.desired.WantRunning? && s.rec.observed.Pending? && !s.runtime && s.lock.None?
    && s.policy.minimum <= s.policy.maximum
    && s.clock < s.rec.expiry <= s.clock + s.policy.maximum
    && forall t :: 0 <= t < |s.pcs| ==> s.pcs[t].Idle?
  }

  // ---------- Invariant ----------

  /** The record was `snap` once, or still is: a revision is one record, and nothing final is undone. */
  predicate Past(snap: Record, rec: Record) {
    && snap.revision <= rec.revision && (snap.revision == rec.revision ==> snap == rec)
    && (snap.desired.WantTerminated? ==> rec.desired.WantTerminated?)
    && (snap.observed.Terminated? ==> rec.observed.Terminated?)
    && snap.expiry <= rec.expiry
  }

  predicate Sane(r: Record) {
    r.observed.Terminated? ==> r.desired.WantTerminated?
  }

  /** What a thread may rely on about the record it has read. */
  predicate SnapInv(s: State, snap: Record) {
    Past(snap, s.rec) && Sane(snap)
  }

  predicate PcInv(s: State, t: nat, pc: Pc) {
    && (pc.Reconciles() ==> s.lock == Some(t))
    && (pc.Creates() ==> !s.rec.observed.Terminated?)
    && match pc
       case Idle => true
       case RenewLost(_, _) => true
       case DeleteLost(_) => true
       case Timing(_, _) => true
       case Replacing => !s.rec.observed.Terminated?
       case Honoring => true
       case Renewing(_, snap, _) => SnapInv(s, snap)
       case Deleting(snap, _) => SnapInv(s, snap)
       case TimerRead(_, snap, _) => SnapInv(s, snap)
       case Keeping(snap) => SnapInv(s, snap)
       case RenewChecked(requested, snap, now, _) =>
         SnapInv(s, snap) && now <= s.clock && RenewAllowed(s.policy, snap, requested, now)
       case TimerChecked(expected, snap, now, _) =>
         SnapInv(s, snap) && now <= s.clock && LeaseDue(snap, now) && snap.expiry == expected
       case Drifting(snap) => SnapInv(s, snap) && snap.desired.WantRunning?
       case Got(snap) => SnapInv(s, snap) && (!snap.observed.Terminated? ==> !s.rec.observed.Terminated?)
       case Due(snap, now) => SnapInv(s, snap) && now <= s.clock && LeaseDue(snap, now)
       case Routed(snap) => SnapInv(s, snap) && (!snap.observed.Terminated? ==> !s.rec.observed.Terminated?)
       case Ensuring(snap) => SnapInv(s, snap) && snap.desired.WantRunning?
       case Ensured(snap, _) => SnapInv(s, snap) && snap.desired.WantRunning?
       case Probing(snap) => SnapInv(s, snap) && snap.desired.WantRunning?
       case Cleaning(snap) => SnapInv(s, snap) && !snap.observed.Terminated?
       case Recording(snap, _) => SnapInv(s, snap) && !snap.observed.Terminated?
       case Checking(snap) => SnapInv(s, snap) && snap.desired.WantRunning?
       case Substituting(snap) => SnapInv(s, snap) && snap.desired.WantRunning?
       case StoppingRuntime(snap) => SnapInv(s, snap) && snap.desired.WantTerminated? && snap.observed.Stopping?
       case RuntimeGone(snap) => SnapInv(s, snap) && snap.desired.WantTerminated? && snap.observed.Stopping? && !s.runtime
  }

  predicate RecInv(s: State) {
    && Sane(s.rec) && (s.rec.observed.Terminated? ==> !s.runtime)
    && s.rec.expiry <= s.clock + s.policy.maximum
  }

  predicate Inv(s: State) {
    RecInv(s) && forall t :: 0 <= t < |s.pcs| ==> PcInv(s, t, s.pcs[t])
  }

  /** What a step of thread t may do to what the others rely on. */
  predicate Around(s: State, s': State, t: nat) {
    && s'.policy == s.policy && s.clock <= s'.clock && Past(s.rec, s'.rec)
    && (s.lock.Some? && s.lock.value != t ==>
          s'.lock == s.lock && s'.runtime == s.runtime && (s'.rec.observed.Terminated? ==> s.rec.observed.Terminated?))
  }

  lemma OthersKept(s: State, s': State, t: nat, u: nat, pc: Pc)
    requires Around(s, s', t) && u != t && PcInv(s, u, pc)
    ensures PcInv(s', u, pc)
  {
  }

  /** The steps decide the record and their own thread; everybody else is covered by `Around`. */
  lemma StepKeeps(s: State, s': State, t: nat)
    requires Inv(s) && t < |s.pcs| == |s'.pcs| && Around(s, s', t)
    requires forall u :: 0 <= u < |s.pcs| && u != t ==> s'.pcs[u] == s.pcs[u]
    requires RecInv(s') && PcInv(s', t, s'.pcs[t])
    ensures Inv(s')
  {
    forall u: nat | u < |s'.pcs|
      ensures PcInv(s', u, s'.pcs[u])
    {
      if u != t {
        OthersKept(s, s', t, u, s.pcs[u]);
      }
    }
  }

  /** One store call, whatever the texts say: what it needs from the caller to keep the past. */
  lemma AppliedKeepsPast(r: Record, revision: nat, op: Op)
    requires op.Renew? && r.revision == revision ==> r.expiry <= op.expiry
    requires op.UpdateObserved? && r.revision == revision && r.observed.Terminated? ==> op.state.Terminated?
    requires Sane(r)
    ensures Past(r, Applied(r, revision, op).0)
    ensures Applied(r, revision, op).1.Updated? ==> Applied(r, revision, op).0 == Written(r, op) && r.revision == revision
    ensures !Applied(r, revision, op).1.Updated? ==> Applied(r, revision, op).0 == r
  {
  }

  /** What no step of anybody may do to the record. */
  predicate Legal(s: State, s': State) {
    && s.clock <= s'.clock && s'.policy == s.policy
    // the lease only gets longer, only before termination was asked for, and never past the maximum
    && s.rec.expiry <= s'.rec.expiry
    && (s'.rec.expiry != s.rec.expiry ==> s.rec.desired.WantRunning? && s.rec.expiry < s'.rec.expiry)
    && s'.rec.expiry <= s'.clock + s'.policy.maximum
    // termination is final, and nothing is brought up again after it was asked for
    && (s.rec.desired.WantTerminated? ==> s'.rec.desired.WantTerminated?)
    && (s.rec.desired.WantTerminated? && s'.rec.observed != s.rec.observed ==>
          s'.rec.observed.Stopping? || s'.rec.observed.Failed? || s'.rec.observed.Terminated?)
    // Terminated is only written on request, after the runtime is gone, and never left
    && (s'.rec.observed.Terminated? && !s.rec.observed.Terminated? ==> s.rec.desired.WantTerminated? && !s.runtime)
    && (s.rec.observed.Terminated? ==> s'.rec.observed.Terminated?)
    && (s'.rec.observed.Terminated? ==> !s'.runtime)
  }

  lemma GoKeeps(s: State, s': State, t: nat)
    requires Inv(s) && t < |s.pcs| && |s'.pcs| == |s.pcs| && s'.rec == s.rec && s'.clock == s.clock && s'.policy == s.policy
    requires s.lock.Some? && s.lock.value != t ==> s'.lock == s.lock && s'.runtime == s.runtime
    requires s'.rec.observed.Terminated? ==> !s'.runtime
    requires forall u :: 0 <= u < |s.pcs| && u != t ==> s'.pcs[u] == s.pcs[u]
    requires PcInv(s', t, s'.pcs[t])
    ensures Inv(s') && Legal(s, s')
  {
    StepKeeps(s, s', t);
  }

  /** A store call of a client without the lock, which ends idle or starts over. */
  lemma CommitKeeps(s: State, t: nat, revision: nat, op: Op, conflict: Pc)
    requires Inv(s) && t < |s.pcs| && !s.pcs[t].Reconciles()
    requires conflict.Idle? || conflict.RenewLost? || conflict.DeleteLost? || conflict.Timing?
    requires op.Renew? ==> op.expiry <= s.clock + s.policy.maximum && (s.rec.revision == revision ==> s.rec.expiry < op.expiry)
    requires op.UpdateObserved? && s.rec.revision == revision ==>
               op.state == s.rec.observed || (op.state.Failed? && !s.rec.observed.Terminated?)
    requires op.UpdateDesired? || op.UpdateObserved? || op.Renew? || op.ExpireIntent?
    ensures var s' := Commit(s, t, revision, op, Idle, conflict); Inv(s') && Legal(s, s')
  {
    AppliedKeepsPast(s.rec, revision, op);
    StepKeeps(s, Commit(s, t, revision, op, Idle, conflict), t);
  }

  predicate ClientCommits(a: ClientAct) {
    a.CommitRenew? || a.CommitDelete? || a.CommitTimer? || a.CommitKeep? || a.CommitDrift?
  }

  lemma ClientReadKeeps(s: State, t: nat, a: ClientAct)
    requires Inv(s) && t < |s.pcs| && ClientEnabled(s.pcs[t], a) && !ClientCommits(a)
    ensures Inv(ClientStep(s, t, a)) && Legal(s, ClientStep(s, t, a))
  {
    assert PcInv(s, t, s.pcs[t]);
    GoKeeps(s, ClientStep(s, t, a), t);
  }

  lemma RenewKeeps(s: State, t: nat)
    requires Inv(s) && t < |s.pcs| && s.pcs[t].RenewChecked?
    ensures Inv(ClientStep(s, t, CommitRenew)) && Legal(s, ClientStep(s, t, CommitRenew))
  {
    var pc := s.pcs[t];
    assert PcInv(s, t, pc);
    CommitKeeps(s, t, pc.snap.revision, Renew(pc.now, pc.requested),
                if pc.left > 1 then RenewLost(pc.requested, pc.left - 1) else Idle);
  }

  lemma DeleteKeeps(s: State, t: nat)
    requires Inv(s) && t < |s.pcs| && s.pcs[t].Deleting?
    ensures Inv(ClientStep(s, t, CommitDelete)) && Legal(s, ClientStep(s, t, CommitDelete))
  {
    var pc := s.pcs[t];
    assert PcInv(s, t, pc);
    if pc.snap.observed.Terminated? {
      GoKeeps(s, ClientStep(s, t, CommitDelete), t);
    } else {
      CommitKeeps(s, t, pc.snap.revision, UpdateDesired(s.clock), if pc.left > 1 then DeleteLost(pc.left - 1) else Idle);
    }
  }

  lemma TimerKeeps(s: State, t: nat)
    requires Inv(s) && t < |s.pcs| && s.pcs[t].TimerChecked?
    ensures Inv(ClientStep(s, t, CommitTimer)) && Legal(s, ClientStep(s, t, CommitTimer))
  {
    var pc := s.pcs[t];
    assert PcInv(s, t, pc);
    CommitKeeps(s, t, pc.snap.revision, ExpireIntent(pc.expected, pc.now),
                if pc.left > 1 then Timing(pc.expected, pc.left - 1) else Idle);
  }

  lemma ObservedKeeps(s: State, t: nat, a: ClientAct)
    requires Inv(s) && t < |s.pcs| && ClientEnabled(s.pcs[t], a) && (a.CommitKeep? || a.CommitDrift?)
    ensures Inv(ClientStep(s, t, a)) && Legal(s, ClientStep(s, t, a))
  {
    var pc := s.pcs[t];
    assert PcInv(s, t, pc);
    CommitKeeps(s, t, pc.snap.revision,
                if a.CommitKeep? then UpdateObserved(pc.snap.observed, a.newId, a.at)
                else UpdateObserved(Failed, pc.snap.runtimeId, None), Idle);
  }

  lemma ClientKeeps(s: State, t: nat, a: ClientAct)
    requires Inv(s) && t < |s.pcs| && ClientEnabled(s.pcs[t], a)
    ensures Inv(ClientStep(s, t, a)) && Legal(s, ClientStep(s, t, a))
  {
    match a {
      case CommitRenew => RenewKeeps(s, t);
      case CommitDelete => DeleteKeeps(s, t);
      case CommitTimer => TimerKeeps(s, t);
      case CommitKeep(_, _) => ObservedKeeps(s, t, a);
      case CommitDrift => ObservedKeeps(s, t, a);
      case _ => ClientReadKeeps(s, t, a);
    }
  }

  /** A store call of the thread that holds the lock. */
  lemma CommitHeldKeeps(s: State, t: nat, revision: nat, op: Op, onward: Onward, honors: bool)
    requires Inv(s) && t < |s.pcs| && s.lock == Some(t) && !op.Renew?
    requires op.UpdateObserved? && s.rec.revision == revision && s.rec.observed.Terminated? ==> op.state.Terminated?
    requires op.UpdateObserved? ==> !op.state.Terminated? || s.rec.observed.Terminated?
    requires op.UpdateObserved? && s.rec.revision == revision && s.rec.desired.WantTerminated? ==>
               op.state.Stopping? || op.state.Failed?
    requires op.ResetRetry? && op.state.Terminated? && s.rec.revision == revision ==> !s.runtime
    requires var s' := CommitHeld(s, t, revision, op, onward, honors);
             Applied(s.rec, revision, op).1.Updated? && !s'.pcs[t].Idle? ==> PcInv(s', t, s'.pcs[t])
    ensures var s' := CommitHeld(s, t, revision, op, onward, honors); Inv(s') && Legal(s, s')
  {
    AppliedKeepsPast(s.rec, revision, op);
    StepKeeps(s, CommitHeld(s, t, revision, op, onward, honors), t);
  }

  predicate ReconcileCommits(a: ReconcileAct) {
    a.CommitDue? || a.Settle? || a.MarkCreating? || a.MarkWaiting? || a.MarkRunning? || a.RecordFailure? || a.Health? || a.Drift?
    || a.MarkStopping? || a.MarkTerminated?
  }

  predicate AsksToCreate(a: ReconcileAct) {
    a.Ensure? || a.EnsureAgain? || a.Substitute?
  }

  lemma CreateKeeps(s: State, t: nat, a: ReconcileAct)
    requires Inv(s) && t < |s.pcs| && ReconcileEnabled(s, s.pcs[t], a) && AsksToCreate(a)
    ensures Inv(ReconcileStep(s, t, a)) && Legal(s, ReconcileStep(s, t, a))
  {
    assert PcInv(s, t, s.pcs[t]);
    GoKeeps(s, ReconcileStep(s, t, a), t);
  }

  lemma RemoveKeeps(s: State, t: nat, a: ReconcileAct)
    requires Inv(s) && t < |s.pcs| && ReconcileEnabled(s, s.pcs[t], a) && (a.Clean? || a.DeleteRuntime?)
    ensures Inv(ReconcileStep(s, t, a)) && Legal(s, ReconcileStep(s, t, a))
  {
    assert PcInv(s, t, s.pcs[t]);
    GoKeeps(s, ReconcileStep(s, t, a), t);
  }

  lemma HeldReadKeeps(s: State, t: nat, a: ReconcileAct)
    requires Inv(s) && t < |s.pcs| && ReconcileEnabled(s, s.pcs[t], a) 
    requires !ReconcileCommits(a) && !AsksToCreate(a) && !a.Clean? && !a.DeleteRuntime?
    ensures Inv(ReconcileStep(s, t, a)) && Legal(s, ReconcileStep(s, t, a))
  {
    assert PcInv(s, t, s.pcs[t]);
    GoKeeps(s, ReconcileStep(s, t, a), t);
  }

  lemma HeldLeads(s: State, t: nat, revision: nat, op: Op, onward: Onward, honors: bool)
    requires t < |s.pcs| && Applied(s.rec, revision, op).1.Updated?
    ensures var s' := CommitHeld(s, t, revision, op, onward, honors);
            && s'.rec == Written(s.rec, op) && s'.pcs[t] == Next(onward, s'.rec)
            && (s'.pcs[t].Idle? || s'.lock == s.lock)
  {
  }

  lemma RoutedFresh(s: State, t: nat)
    requires Sane(s.rec) && s.lock == Some(t)
    ensures PcInv(s, t, Routed(s.rec))
  {
  }

  /** A store call after which the thread routes the record it has written. */
  lemma HeldRouted(s: State, t: nat, revision: nat, op: Op)
    requires Inv(s) && t < |s.pcs| && s.lock == Some(t) && !op.Renew? && !op.UpdateObserved? && !op.ResetRetry?
    requires Sane(Written(s.rec, op))
    ensures var s' := CommitHeld(s, t, revision, op, ToRouted, false); Inv(s') && Legal(s, s')
  {
    if Applied(s.rec, revision, op).1.Updated? {
      HeldLeads(s, t, revision, op, ToRouted, false);
      RoutedFresh(CommitHeld(s, t, revision, op, ToRouted, false), t);
    }
    CommitHeldKeeps(s, t, revision, op, ToRouted, false);
  }

  /** A lease that has run out is taken into the delete path by the thread that scanned it. */
  lemma DueKeeps(s: State, t: nat)
    requires Inv(s) && t < |s.pcs| && s.pcs[t].Due?
    ensures Inv(ReconcileStep(s, t, CommitDue)) && Legal(s, ReconcileStep(s, t, CommitDue))
  {
    assert PcInv(s, t, s.pcs[t]);
    HeldRouted(s, t, s.pcs[t].snap.revision, ExpireIntent(s.pcs[t].snap.expiry, s.pcs[t].now));
  }

  /** Creating, Waiting and Running are only written over a record that still wants to run. */
  lemma MarkRunsKeeps(s: State, t: nat, a: ReconcileAct)
    requires Inv(s) && t < |s.pcs| && ReconcileEnabled(s, s.pcs[t], a)
    requires a.MarkCreating? || a.MarkWaiting? || a.MarkRunning?
    ensures Inv(ReconcileStep(s, t, a)) && Legal(s, ReconcileStep(s, t, a))
  {
    var pc := s.pcs[t];
    assert PcInv(s, t, pc);
    var op := if a.MarkCreating? then UpdateObserved(Creating, pc.snap.runtimeId, None)
              else if a.MarkWaiting? then UpdateObserved(Creating, pc.newId, None)
              else ResetRetry(Running, pc.snap.runtimeId);
    AppliedKeepsPast(s.rec, pc.snap.revision, op);
    CommitHeldKeeps(s, t, pc.snap.revision, op,
                    if a.MarkCreating? then ToEnsuring else if a.MarkWaiting? then ToProbing
                    else if a.projected then ToExit else ToRecording, false);
  }

  /** A failure is recorded over a record that is not Terminated. */
  lemma RecordKeeps(s: State, t: nat, a: ReconcileAct)
    requires Inv(s) && t < |s.pcs| && ReconcileEnabled(s, s.pcs[t], a) && (a.RecordFailure? || a.Drift?)
    ensures Inv(ReconcileStep(s, t, a)) && Legal(s, ReconcileStep(s, t, a))
  {
    var pc := s.pcs[t];
    assert PcInv(s, t, pc);
    if a.Drift? {
      CommitHeldKeeps(s, t, pc.snap.revision, UpdateObserved(Failed, pc.snap.runtimeId, None), ToExit, true);
    } else {
      CommitHeldKeeps(s, t, pc.snap.revision,
                      if a.retry then ScheduleRetry(a.attempted, a.next, pc.newId) else UpdateObserved(Failed, pc.newId, None),
                      ToExit, false);
    }
  }

  lemma HealthKeeps(s: State, t: nat, a: ReconcileAct)
    requires Inv(s) && t < |s.pcs| && s.pcs[t].Checking? && a.Health?
    ensures Inv(ReconcileStep(s, t, a)) && Legal(s, ReconcileStep(s, t, a))
  {
    var pc := s.pcs[t];
    assert PcInv(s, t, pc);
    CommitHeldKeeps(s, t, pc.snap.revision, RecordHealth(a.healthy), ToHealth(a.healthy), true);
  }

  lemma SettleKeeps(s: State, t: nat)
    requires Inv(s) && t < |s.pcs| && ReconcileEnabled(s, s.pcs[t], Settle)
    ensures Inv(ReconcileStep(s, t, Settle)) && Legal(s, ReconcileStep(s, t, Settle))
  {
    var pc := s.pcs[t];
    assert PcInv(s, t, pc);
    if pc.snap.retryAttempt == 0 && pc.snap.nextReconcile.None? {
      GoKeeps(s, Exit(s, t), t);
    } else {
      CommitHeldKeeps(s, t, pc.snap.revision,
                      ResetRetry(pc.snap.observed, if pc.snap.observed.Terminated? then "" else pc.snap.runtimeId), ToExit, false);
    }
  }

  lemma MarkStoppingKeeps(s: State, t: nat)
    requires Inv(s) && t < |s.pcs| && ReconcileEnabled(s, s.pcs[t], MarkStopping)
    ensures Inv(ReconcileStep(s, t, MarkStopping)) && Legal(s, ReconcileStep(s, t, MarkStopping))
  {
    var pc := s.pcs[t];
    assert PcInv(s, t, pc);
    var op := UpdateObserved(Stopping, pc.snap.runtimeId, None);
    AppliedKeepsPast(s.rec, pc.snap.revision, op);
    CommitHeldKeeps(s, t, pc.snap.revision, op, ToStopping, false);
  }

  lemma MarkTerminatedKeeps(s: State, t: nat)
    requires Inv(s) && t < |s.pcs| && s.pcs[t].RuntimeGone?
    ensures Inv(ReconcileStep(s, t, MarkTerminated)) && Legal(s, ReconcileStep(s, t, MarkTerminated))
  {
    var pc := s.pcs[t];
    assert PcInv(s, t, pc);
    CommitHeldKeeps(s, t, pc.snap.revision, ResetRetry(Terminated, ""), ToExit, false);
  }

  lemma ReconcileKeeps(s: State, t: nat, a: ReconcileAct)
    requires Inv(s) && t < |s.pcs| && ReconcileEnabled(s, s.pcs[t], a)
    ensures Inv(ReconcileStep(s, t, a)) && Legal(s, ReconcileStep(s, t, a))
  {
    match a {
      case CommitDue => DueKeeps(s, t);
      case Settle => SettleKeeps(s, t);
      case MarkCreating => MarkRunsKeeps(s, t, a);
      case MarkWaiting => MarkRunsKeeps(s, t, a);
      case MarkRunning(_) => MarkRunsKeeps(s, t, a);
      case RecordFailure(_, _, _) => RecordKeeps(s, t, a);
      case Drift => RecordKeeps(s, t, a);
      case Health(_) => HealthKeeps(s, t, a);
      case MarkStopping => MarkStoppingKeeps(s, t);
      case MarkTerminated => MarkTerminatedKeeps(s, t);
      case Ensure(_, _, _) => CreateKeeps(s, t, a);
      case Clean(_) => RemoveKeeps(s, t, a);
      case EnsureAgain(_, _) => CreateKeeps(s, t, a);
      case Substitute(_, _) => CreateKeeps(s, t, a);
      case DeleteRuntime(_, _) => RemoveKeeps(s, t, a);
      case _ => HeldReadKeeps(s, t, a);
    }
  }

  lemma TickKeeps(s: State, now: Instant)
    requires Inv(s) && now >= s.clock
    ensures Inv(s.(clock := now)) && Legal(s, s.(clock := now))
  {
    var s' := s.(clock := now);
    forall t: nat | t < |s.pcs|
      ensures PcInv(s', t, s.pcs[t])
    {
      assert PcInv(s, t, s.pcs[t]);
    }
  }

  lemma StepInv(s: State, a: Act)
    requires Inv(s) && Enabled(s, a)
    ensures Inv(Step(s, a)) && Legal(s, Step(s, a))
  {
    match a {
      case Tick(now) => TickKeeps(s, now);
      case Client(t, c) => ClientKeeps(s, t, c);
      case Reconcile(t, r) => ReconcileKeeps(s, t, r);
    }
  }

  // ---------- Runs ----------

  predicate Runs(s: State, acts: seq<Act>)
    decreases acts
  {
    acts != [] ==> Enabled(s, acts[0]) && Runs(Step(s, acts[0]), acts[1..])
  }

  function After(s: State, acts: seq<Act>): State
    requires Runs(s, acts)
    decreases acts
  {
    if acts == [] then s else After(Step(s, acts[0]), acts[1..])
  }

  predicate BroughtDown(o: Observed) {
    o.Stopping? || o.Failed? || o.Terminated?
  }

  /** What the rest of a run keeps of everything before it. */
  predicate Kept(s: State, s': State) {
    && s'.policy == s.policy && s.clock <= s'.clock
    && s.rec.expiry <= s'.rec.expiry
    && (s.rec.desired.WantTerminated? ==>
          && s'.rec.desired.WantTerminated? && s'.rec.expiry == s.rec.expiry
          && (s'.rec.observed == s.rec.observed || BroughtDown(s'.rec.observed)))
    && (s.rec.observed.Terminated? ==> s'.rec.observed.Terminated? && !s'.runtime)
  }

  lemma {:induction false} RunInv(s: State, acts: seq<Act>)
    requires Inv(s) && Runs(s, acts)
    ensures Inv(After(s, acts)) && Kept(s, After(s, acts))
    decreases acts
  {
    if acts != [] {
      StepInv(s, acts[0]);
      RunInv(Step(s, acts[0]), acts[1..]);
    }
  }

  lemma InitInv(s: State)
    requires Init(s)
    ensures Inv(s)
  {
  }

  /** Lease and reconcile safety over every run: at every point the lease ends within the maximum from
      now, Terminated means that termination was asked for and the runtime is gone, every step is legal,
      and nothing that the past of the run has decided is taken back. */
  lemma EveryInterleavingIsSafe(s: State, past: seq<Act>, future: seq<Act>, next: Act)
    requires Init(s) && Runs(s, past) && Runs(After(s, past), future) && Enabled(After(s, past), next)
    ensures RecInv(After(s, past)) && RecInv(After(After(s, past), future))
    ensures Kept(After(s, past), After(After(s, past), future))
    ensures Legal(After(s, past), Step(After(s, past), next))
  {
    InitInv(s);
    RunInv(s, past);
    RunInv(After(s, past), future);
    StepInv(After(s, past), next);
  }

  /** The steps by which a timer or the scanner asks for termination. */
  predicate Expires(a: Act) {
    (a.Client? && a.client.CommitTimer?) || (a.Reconcile? && a.reconcile.CommitDue?)
  }

  /** A store call that changes the record found the very record its caller had read. */
  lemma SnapIsCurrent(s: State, snap: Record, op: Op)
    requires Past(snap, s.rec) && Applied(s.rec, snap.revision, op).0 != s.rec
    ensures snap == s.rec
  {
  }

  lemma TimerOnlyDue(s: State, t: nat)
    requires Inv(s) && t < |s.pcs| && s.pcs[t].TimerChecked? && ClientStep(s, t, CommitTimer).rec != s.rec
    ensures s.rec.expiry <= s.pcs[t].now <= s.clock
  {
    assert PcInv(s, t, s.pcs[t]);
    SnapIsCurrent(s, s.pcs[t].snap, ExpireIntent(s.pcs[t].expected, s.pcs[t].now));
  }

  lemma ScannerOnlyDue(s: State, t: nat)
    requires Inv(s) && t < |s.pcs| && s.pcs[t].Due? && ReconcileStep(s, t, CommitDue).rec != s.rec
    ensures s.rec.expiry <= s.pcs[t].now <= s.clock
  {
    assert PcInv(s, t, s.pcs[t]);
    SnapIsCurrent(s, s.pcs[t].snap, ExpireIntent(s.pcs[t].snap.expiry, s.pcs[t].now));
  }

  /** A TTL termination only commits over a lease that had run out at the clock reading it used, even when
      the lease was renewed after that reading. */
  lemma TtlTerminatesOnlyDue(s: State, a: Act)
    requires Inv(s) && Enabled(s, a) && Expires(a) && Step(s, a).rec != s.rec
    ensures s.rec.expiry <= s.pcs[a.t].now <= s.clock
  {
    if a.Client? {
      TimerOnlyDue(s, a.t);
    } else {
      ScannerOnlyDue(s, a.t);
    }
  }

  /** A renewal that commits was validated against the very record it replaces: termination had not been
      asked for, the lease had not run out at the clock reading used, and it becomes longer. */
  lemma RenewalIsValid(s: State, t: nat)
    requires Inv(s) && t < |s.pcs| && s.pcs[t].RenewChecked? && ClientStep(s, t, CommitRenew).rec != s.rec
    ensures RenewAllowed(s.policy, s.rec, s.pcs[t].requested, s.pcs[t].now) && s.pcs[t].now <= s.clock
    ensures ClientStep(s, t, CommitRenew).rec.expiry == s.pcs[t].requested
  {
    assert PcInv(s, t, s.pcs[t]);
    SnapIsCurrent(s, s.pcs[t].snap, Renew(s.pcs[t].now, s.pcs[t].requested));
    AppliedKeepsPast(s.rec, s.pcs[t].snap.revision, Renew(s.pcs[t].now, s.pcs[t].requested));
  }

  /** A step of thread t that neither moves the end of the lease nor brings anyone to the commit of a renewal. */
  predicate LeavesLease(s: State, s': State, t: nat) {
    && s'.rec.expiry == s.rec.expiry && |s'.pcs| == |s.pcs|
    && forall u :: 0 <= u < |s.pcs| ==> s'.pcs[u] == s.pcs[u] || (u == t && !s'.pcs[u].RenewChecked?)
  }

  lemma CommitHeldLeavesLease(s: State, t: nat)
    requires t < |s.pcs|
    ensures forall revision, op: Op, onward, honors :: !op.Renew? ==> LeavesLease(s, CommitHeld(s, t, revision, op, onward, honors), t)
  {
  }

  lemma ReconcileLeavesLease(s: State, t: nat, a: ReconcileAct)
    requires t < |s.pcs| && ReconcileEnabled(s, s.pcs[t], a)
    ensures LeavesLease(s, ReconcileStep(s, t, a), t)
  {
    if ReconcileCommits(a) {
      CommitHeldLeavesLease(s, t);
    }
  }

  lemma CommitLeavesLease(s: State, t: nat, revision: nat, op: Op, conflict: Pc)
    requires t < |s.pcs| && !op.Renew? && !conflict.RenewChecked?
    ensures LeavesLease(s, Commit(s, t, revision, op, Idle, conflict), t)
  {
  }

  /** Only the renewal's own check brings a thread to where it may commit one, and only that commit moves the end
      of the lease. */
  lemma ClientsLease(s: State, t: nat, a: ClientAct)
    requires t < |s.pcs| && ClientEnabled(s.pcs[t], a)
    ensures !a.CheckRenew? && !a.CommitRenew? ==> LeavesLease(s, ClientStep(s, t, a), t)
    ensures a.CheckRenew? ==> ClientStep(s, t, a).pcs[t].RenewChecked? ==> ClientStep(s, t, a).pcs[t].now == s.clock
    ensures a.CheckRenew? ==> ClientStep(s, t, a).rec == s.rec
    ensures a.CommitRenew? ==> !ClientStep(s, t, a).pcs[t].RenewChecked?
    ensures |ClientStep(s, t, a).pcs| == |s.pcs| && forall u :: 0 <= u < |s.pcs| && u != t ==> ClientStep(s, t, a).pcs[u] == s.pcs[u]
  {
  }

  lemma OnlyChecked(s: State, a: Act, t: nat)
    requires Enabled(s, a) && t < |s.pcs| && t < |Step(s, a).pcs| && Step(s, a).pcs[t].RenewChecked?
    ensures Step(s, a).pcs[t] == s.pcs[t] || (a == Client(t, CheckRenew) && Step(s, a).pcs[t].now == s.clock)
  {
    match a {
      case Tick(_) =>
      case Client(u, c) => ClientsLease(s, u, c);
      case Reconcile(u, r) => ReconcileLeavesLease(s, u, r);
    }
  }

  lemma OnlyRenewalsExtend(s: State, a: Act)
    requires Enabled(s, a) && Step(s, a).rec.expiry != s.rec.expiry
    ensures a.Client? && a.client.CommitRenew?
  {
    match a {
      case Tick(_) =>
      case Client(u, c) => ClientsLease(s, u, c);
      case Reconcile(u, r) => ReconcileLeavesLease(s, u, r);
    }
  }

  /** Step i of the run was this thread's check of a renewal, when the clock said `now`. */
  predicate CheckedAt(s: State, past: seq<Act>, t: nat, i: nat, now: Instant) {
    && i < |past| && past[i] == Client(t, CheckRenew) && Runs(s, past[..i]) && After(s, past[..i]).clock == now
  }

  lemma {:induction false} RunsBack(s: State, acts: seq<Act>, a: Act)
    requires Runs(s, acts + [a])
    ensures Runs(s, acts) && Enabled(After(s, acts), a) && After(s, acts + [a]) == Step(After(s, acts), a)
    ensures |After(s, acts + [a]).pcs| == |After(s, acts).pcs|
    decreases acts
  {
    if acts == [] {
      assert [a][1..] == [] && acts + [a] == [a];
    } else {
      assert (acts + [a])[1..] == acts[1..] + [a];
      RunsBack(Step(s, acts[0]), acts[1..], a);
    }
  }

  /** The reading a thread commits a renewal by is one that the clock gave it earlier in the run. */
  lemma {:induction false} ReadingIsFromTheRun(s: State, past: seq<Act>, t: nat)
    requires Init(s) && Runs(s, past) && t < |After(s, past).pcs| && After(s, past).pcs[t].RenewChecked?
    ensures exists i: nat :: CheckedAt(s, past, t, i, After(s, past).pcs[t].now)
    decreases |past|
  {
    if past != [] {
      var before, a := past[..|past|-1], past[|past|-1];
      assert past == before + [a];
      RunsBack(s, before, a);
      var m := After(s, before);
      OnlyChecked(m, a, t);
      if a == Client(t, CheckRenew) && After(s, past).pcs[t].now == m.clock {
        assert CheckedAt(s, past, t, |before|, m.clock);
      } else {
        ReadingIsFromTheRun(s, before, t);
        var i: nat :| CheckedAt(s, before, t, i, m.pcs[t].now);
        assert past[..i] == before[..i];
        assert CheckedAt(s, past, t, i, m.pcs[t].now);
      }
    }
  }

  /** The bounds of a renewal as its caller knows them: it found an active lease that had not run out, and the new
      end is later and lies between the least and the greatest TTL from the time of the check. */
  predicate Measured(s: State, s': State, now: Instant) {
    && s.rec.desired.WantRunning? && !s.rec.observed.Terminated?
    && now <= s.clock && now < s.rec.expiry < s'.rec.expiry
    && now + s.policy.minimum <= s'.rec.expiry <= now + s.policy.maximum && 0 < s.policy.minimum
  }

  /** In every run, whatever moves the end of a lease is a renewal that was measured against the clock at an
      earlier step of the run. */
  lemma ExtensionsAreMeasured(s: State, past: seq<Act>, a: Act)
    requires Init(s) && Runs(s, past) && Enabled(After(s, past), a)
    requires Step(After(s, past), a).rec.expiry != After(s, past).rec.expiry
    ensures a.Client? && exists i: nat, now :: CheckedAt(s, past, a.t, i, now) && Measured(After(s, past), Step(After(s, past), a), now)
  {
    InitInv(s);
    RunInv(s, past);
    var m := After(s, past);
    OnlyRenewalsExtend(m, a);
    RenewalIsValid(m, a.t);
    ReadingIsFromTheRun(s, past, a.t);
    var i: nat :| CheckedAt(s, past, a.t, i, m.pcs[a.t].now);
    assert Measured(m, Step(m, a), m.pcs[a.t].now);
  }

  // ---------- What a reconcile can always bring about ----------

  ghost predicate Reaches(s: State, s': State) {
    exists acts :: Runs(s, acts) && After(s, acts) == s'
  }

  lemma {:induction false} RunsOn(s: State, acts: seq<Act>, a: Act)
    requires Runs(s, acts) && Enabled(After(s, acts), a)
    ensures Runs(s, acts + [a]) && After(s, acts + [a]) == Step(After(s, acts), a)
    decreases acts
  {
    if acts == [] {
      assert [a][1..] == [];
    } else {
      assert (acts + [a])[1..] == acts[1..] + [a];
      RunsOn(Step(s, acts[0]), acts[1..], a);
    }
  }

  lemma ReachesItself(s: State)
    ensures Reaches(s, s)
  {
    assert Runs(s, []) && After(s, []) == s;
  }

  lemma ReachesNext(s: State, m: State, a: Act)
    requires Reaches(s, m) && Enabled(m, a)
    ensures Reaches(s, Step(m, a))
  {
    var acts :| Runs(s, acts) && After(s, acts) == m;
    RunsOn(s, acts, a);
  }

  /** Thread t inside `Reconcile`. */
  function Held(s: State, t: nat, rec: Record, runtime: bool, pc: Pc): State
    requires t < |s.pcs|
  {
    s.(rec := rec, runtime := runtime, pcs := s.pcs[t := pc], lock := if pc.Idle? then None else Some(t))
  }

  lemma HeldNext(s: State, t: nat, r: Record, up: bool, pc: Pc, a: ReconcileAct, r': Record, up': bool, pc': Pc)
    requires t < |s.pcs| && Reaches(s, Held(s, t, r, up, pc)) && !pc.Idle?
    requires ReconcileEnabled(Held(s, t, r, up, pc), pc, a)
    requires ReconcileStep(Held(s, t, r, up, pc), t, a) == Held(s, t, r', up', pc')
    ensures Reaches(s, Held(s, t, r', up', pc'))
  {
    ReachesNext(s, Held(s, t, r, up, pc), Reconcile(t, a));
  }

  lemma AfterUpdate(s: State, t: nat, r: Record, up: bool, pc: Pc, r': Record, onward: Onward, honors: bool)
    requires t < |s.pcs| && !pc.Idle?
    ensures AfterReply(Held(s, t, r, up, pc), t, r', Updated(r'), onward, honors) == Held(s, t, r', up, Next(onward, r'))
  {
  }

  /** A store call on the very record the store holds. */
  lemma HeldCommits(s: State, t: nat, r: Record, up: bool, pc: Pc, a: ReconcileAct, op: Op, onward: Onward, honors: bool)
    requires t < |s.pcs| && Reaches(s, Held(s, t, r, up, pc)) && !pc.Idle?
    requires ReconcileEnabled(Held(s, t, r, up, pc), pc, a)
    requires ReconcileStep(Held(s, t, r, up, pc), t, a) == CommitHeld(Held(s, t, r, up, pc), t, r.revision, op, onward, honors)
    requires Applied(r, r.revision, op) == (Written(r, op), Updated(Written(r, op)))
    ensures Reaches(s, Held(s, t, Written(r, op), up, Next(onward, Written(r, op))))
  {
    var r' := Written(r, op);
    AfterUpdate(s, t, r, up, pc, r', onward, honors);
    HeldNext(s, t, r, up, pc, a, r', up, Next(onward, r'));
  }

  /** These two calls only ask for the revision, and for a state that fits the request. */
  lemma ObservedApplies(r: Record, op: Op)
    requires (op.UpdateObserved? && op.at.None?)
             || (op.ResetRetry? && if r.desired.WantRunning? then op.state.Running? else op.state.Terminated?)
    ensures Applied(r, r.revision, op) == (Written(r, op), Updated(Written(r, op)))
  {
  }

  /** The store expires the record it holds exactly when the texts are not inverted. */
  lemma DueExpires(r: Record, now: Instant)
    requires LeaseDue(r, now) && r.expiry != ZERO
    ensures Applied(r, r.revision, ExpireIntent(r.expiry, now)) ==
            if !Inverted(r.expiry, now) then (Written(r, ExpireIntent(r.expiry, now)), Updated(Written(r, ExpireIntent(r.expiry, now))))
            else (r, Conflict)
  {
    ExpireExactly(r, r.revision, r.expiry, now);
  }

  /** Read the record and look at the clock. */
  lemma CanRoute(s: State, t: nat)
    requires t < |s.pcs| && s.pcs[t].Idle? && s.lock.None?
    ensures Reaches(s, Held(s, t, s.rec, s.runtime, if LeaseDue(s.rec, s.clock) then Due(s.rec, s.clock) else Routed(s.rec)))
  {
    ReachesItself(s);
    ReachesNext(s, s, Reconcile(t, Begin));
    assert Step(s, Reconcile(t, Begin)) == Held(s, t, s.rec, s.runtime, Got(s.rec));
    HeldNext(s, t, s.rec, s.runtime, Got(s.rec), CheckDue, s.rec, s.runtime,
             if LeaseDue(s.rec, s.clock) then Due(s.rec, s.clock) else Routed(s.rec));
  }

  lemma CanStop(s: State, t: nat, r: Record)
    requires t < |s.pcs| && r.desired.WantTerminated? && !r.observed.Terminated?
    requires Reaches(s, Held(s, t, r, s.runtime, Routed(r)))
    ensures var r1 := Written(r, UpdateObserved(Stopping, r.runtimeId, None)); Reaches(s, Held(s, t, r1, false, RuntimeGone(r1)))
  {
    var op := UpdateObserved(Stopping, r.runtimeId, None);
    var r1 := Written(r, op);
    ObservedApplies(r, op);
    HeldCommits(s, t, r, s.runtime, Routed(r), MarkStopping, op, ToStopping, false);
    HeldNext(s, t, r1, s.runtime, StoppingRuntime(r1), DeleteRuntime(true, false), r1, false, RuntimeGone(r1));
  }

  lemma CanFinish(s: State, t: nat, r: Record)
    requires t < |s.pcs| && r.desired.WantTerminated? && Reaches(s, Held(s, t, r, false, RuntimeGone(r)))
    ensures exists last :: Reaches(s, last) && last.rec.observed.Terminated? && !last.runtime && last.lock.None?
  {
    var op := ResetRetry(Terminated, "");
    ObservedApplies(r, op);
    HeldCommits(s, t, r, false, RuntimeGone(r), MarkTerminated, op, ToExit, false);
    assert Held(s, t, Written(r, op), false, Idle).rec.observed.Terminated?;
  }

  lemma CanExpire(s: State, t: nat)
    requires t < |s.pcs| && LeaseDue(s.rec, s.clock) && s.rec.expiry != ZERO && !Inverted(s.rec.expiry, s.clock)
    requires Reaches(s, Held(s, t, s.rec, s.runtime, Due(s.rec, s.clock)))
    ensures var r := Written(s.rec, ExpireIntent(s.rec.expiry, s.clock)); Reaches(s, Held(s, t, r, s.runtime, Routed(r)))
  {
    DueExpires(s.rec, s.clock);
    HeldCommits(s, t, s.rec, s.runtime, Due(s.rec, s.clock), CommitDue, ExpireIntent(s.rec.expiry, s.clock), ToRouted, false);
  }

  /** Whenever the lock is free and a thread is idle, a sandbox whose termination was asked for can be brought
      to Terminated, and one whose lease has run out can be, too, unless the times are inverted. */
  lemma TerminationIsPossible(s: State, t: nat)
    requires t < |s.pcs| && s.pcs[t].Idle? && s.lock.None? && !s.rec.observed.Terminated?
    requires s.rec.desired.WantTerminated? || (s.clock >= s.rec.expiry != ZERO && !Inverted(s.rec.expiry, s.clock))
    ensures exists last :: Reaches(s, last) && last.rec.observed.Terminated? && !last.runtime && last.lock.None?
  {
    var r := s.rec;
    CanRoute(s, t);
    if s.rec.desired.WantRunning? {
      CanExpire(s, t);
      r := Written(s.rec, ExpireIntent(s.rec.expiry, s.clock));
    }
    CanStop(s, t, r);
    CanFinish(s, t, Written(r, UpdateObserved(Stopping, r.runtimeId, None)));
  }

  /** The lock is only held by a thread that is reconciling. */
  predicate LockInv(s: State) {
    s.lock.Some? ==> s.lock.value < |s.pcs| && s.pcs[s.lock.value].Reconciles()
  }

  /** A step of the lock's holder either keeps it and goes on, or lets go of it. */
  predicate HolderMoves(s: State, s': State, t: nat)
    requires t < |s.pcs|
  {
    && |s'.pcs| == |s.pcs|
    && if s'.pcs[t].Idle? then s'.lock.None? else s'.lock == Some(t) && s'.pcs[t].Reconciles()
  }

  lemma AfterReplyMoves(s: State, t: nat, rec: Record, reply: Reply, onward: Onward, honors: bool)
    requires t < |s.pcs| && s.lock == Some(t)
    ensures HolderMoves(s, AfterReply(s, t, rec, reply, onward, honors), t)
  {
  }

  lemma CommitHeldMoves(s: State, t: nat)
    requires t < |s.pcs| && s.lock == Some(t)
    ensures forall revision, op, onward, honors :: HolderMoves(s, CommitHeld(s, t, revision, op, onward, honors), t)
  {
    forall revision, op, onward, honors
      ensures HolderMoves(s, CommitHeld(s, t, revision, op, onward, honors), t)
    {
      AfterReplyMoves(s, t, Applied(s.rec, revision, op).0, Applied(s.rec, revision, op).1, onward, honors);
    }
  }

  lemma HolderStep(s: State, t: nat, a: ReconcileAct)
    requires t < |s.pcs| && ReconcileEnabled(s, s.pcs[t], a) && (s.lock == Some(t) || a.Begin?)
    ensures HolderMoves(s, ReconcileStep(s, t, a), t)
  {
    if ReconcileCommits(a) {
      CommitHeldMoves(s, t);
    }
  }

  lemma LockStep(s: State, a: Act)
    requires Inv(s) && LockInv(s) && Enabled(s, a)
    ensures LockInv(Step(s, a))
  {
    if a.Client? {
      ClientLeavesLock(s, a.t, a.client);
    } else if a.Reconcile? {
      assert PcInv(s, a.t, s.pcs[a.t]);
      HolderStep(s, a.t, a.reconcile);
    }
  }

  lemma ClientLeavesLock(s: State, t: nat, a: ClientAct)
    requires t < |s.pcs| && ClientEnabled(s.pcs[t], a)
    ensures !s.pcs[t].Reconciles() && ClientStep(s, t, a).lock == s.lock
    ensures |ClientStep(s, t, a).pcs| == |s.pcs| && forall u :: 0 <= u < |s.pcs| && u != t ==> ClientStep(s, t, a).pcs[u] == s.pcs[u]
  {
  }

  lemma {:induction false} RunLock(s: State, acts: seq<Act>)
    requires Inv(s) && LockInv(s) && Runs(s, acts)
    ensures LockInv(After(s, acts))
    decreases acts
  {
    if acts != [] {
      StepInv(s, acts[0]);
      LockStep(s, acts[0]);
      RunLock(Step(s, acts[0]), acts[1..]);
    }
  }

  lemma ReachesFirst(s: State, a: Act, last: State)
    requires Enabled(s, a) && Reaches(Step(s, a), last)
    ensures Reaches(s, last)
  {
    var acts :| Runs(Step(s, a), acts) && After(Step(s, a), acts) == last;
    assert ([a] + acts)[1..] == acts;
    assert Runs(s, [a] + acts) && After(s, [a] + acts) == last;
  }

  /** A delete can always be completed: after every run, as long as some thread is idle or reconciling, a
      sandbox whose termination was asked for can still be brought to Terminated. */
  lemma DeletesNeverGetStuck(s: State, past: seq<Act>, t: nat)
    requires Init(s) && Runs(s, past)
    requires var m := After(s, past);
             m.rec.desired.WantTerminated? && (m.lock.Some? || (t < |m.pcs| && m.pcs[t].Idle?))
    ensures exists last :: Reaches(After(s, past), last) && last.rec.observed.Terminated? && !last.runtime
  {
    InitInv(s);
    RunInv(s, past);
    RunLock(s, past);
    var m := After(s, past);
    if m.rec.observed.Terminated? {
      ReachesItself(m);
    } else if m.lock.None? {
      TerminationIsPossible(m, t);
    } else {
      var u := m.lock.value;
      var free := Step(m, Reconcile(u, Abort));
      TerminationIsPossible(free, u);
      var last :| Reaches(free, last) && last.rec.observed.Terminated? && !last.runtime;
      ReachesFirst(m, Reconcile(u, Abort), last);
    }
  }

  lemma CanCreate(s: State, t: nat, r: Record, id: string)
    requires t < |s.pcs| && r.desired.WantRunning? && !r.observed.Running?
    requires Reaches(s, Held(s, t, r, s.runtime, Routed(r)))
    ensures var r1 := Written(r, UpdateObserved(Creating, r.runtimeId, None)); Reaches(s, Held(s, t, r1, true, Ensured(r1, id)))
  {
    var op := UpdateObserved(Creating, r.runtimeId, None);
    var r1 := Written(r, op);
    ObservedApplies(r, op);
    HeldCommits(s, t, r, s.runtime, Routed(r), MarkCreating, op, ToEnsuring, false);
    HeldNext(s, t, r1, s.runtime, Ensuring(r1), Ensure(true, true, id), r1, true, Ensured(r1, id));
  }

  lemma CanBecomeReady(s: State, t: nat, r: Record, id: string)
    requires t < |s.pcs| && r.desired.WantRunning? && Reaches(s, Held(s, t, r, true, Ensured(r, id)))
    ensures exists last :: Reaches(s, last) && last.rec.observed.Running? && last.runtime && last.rec.runtimeId == id
  {
    var op := UpdateObserved(Creating, id, None);
    var r1 := Written(r, op);
    ObservedApplies(r, op);
    HeldCommits(s, t, r, true, Ensured(r, id), MarkWaiting, op, ToProbing, false);
    var ready := ResetRetry(Running, id);
    ObservedApplies(r1, ready);
    HeldCommits(s, t, r1, true, Probing(r1), MarkRunning(true), ready, ToExit, false);
    assert Held(s, t, Written(r1, ready), true, Idle).rec.observed.Running?;
  }

  /** Whenever the lock is free and a thread is idle, a sandbox that is not yet up and whose lease has not run
      out can be brought to Running with any container. */
  lemma RunningIsPossible(s: State, t: nat, id: string)
    requires t < |s.pcs| && s.pcs[t].Idle? && s.lock.None?
    requires s.rec.desired.WantRunning? && !s.rec.observed.Running? && !LeaseDue(s.rec, s.clock)
    ensures exists last :: Reaches(s, last) && last.rec.observed.Running? && last.runtime && last.rec.runtimeId == id
  {
    CanRoute(s, t);
    CanCreate(s, t, s.rec, id);
    CanBecomeReady(s, t, Written(s.rec, UpdateObserved(Creating, s.rec.runtimeId, None)), id);
  }

  // ---------- The lease of a new sandbox ----------

  /** `createPolicy`: the default, least and greatest TTL, in nanoseconds. */
  datatype CreatePolicy = CreatePolicy(ttl: int, minimum: int, maximum: int)

  const MAX_INT64 := 9_223_372_036_854_775_807

  /** `resolveCreateLease`: the TTL and the expiry, or ErrInvalidTTL. */
  function ResolvedLease(p: CreatePolicy, seconds: Option<int>, now: Instant): Option<(int, int)> {
    if seconds.Some? && (seconds.value <= 0 || seconds.value > MAX_INT64 / SECOND) then None
    else
      var ttl := if seconds.Some? then seconds.value * SECOND else p.ttl;
      if ttl < p.minimum || ttl > p.maximum || ttl % SECOND != 0 then None
      else if now + ttl <= now || now + ttl >= YEAR_10000 then None
      else Some((ttl, now + ttl))
  }

  /** The TTL is the requested one, or the default, and nothing else is refused than a TTL that is not positive, not of
      whole seconds, outside the policy or beyond the calendar. */
  lemma LeaseResolvedExactly(p: CreatePolicy, seconds: Option<int>, now: Instant, ttl: int, expiry: int)
    requires p.maximum <= MAX_INT64
    ensures ResolvedLease(p, seconds, now) == Some((ttl, expiry)) <==>
            && ttl == (if seconds.Some? then seconds.value * 1_000_000_000 else p.ttl)
            && ttl > 0 && ttl % 1_000_000_000 == 0 && p.minimum <= ttl <= p.maximum
            && expiry == now + ttl < YEAR_10000
  {
  }

  /** A sandbox starts with a lease of whole seconds within the policy, computed without overflow, so its
      record begins in the initial state of the protocol. */
  lemma CreatedLeaseIsWithinPolicy(p: CreatePolicy, seconds: Option<int>, now: Instant)
    requires ResolvedLease(p, seconds, now).Some? && p.maximum <= MAX_INT64
    ensures var (ttl, expiry) := ResolvedLease(p, seconds, now).value;
            && 0 < ttl <= MAX_INT64 && ttl % SECOND == 0 && p.minimum <= ttl <= p.maximum
            && now < expiry == now + ttl <= now + p.maximum
            && (p.minimum >= 0 ==>
                  Init(State(Policy(p.minimum, p.maximum),
                             Record(1, WantRunning, Pending, expiry, "", 0, None, 0), now, None, false, [])))
  {
  }
}
