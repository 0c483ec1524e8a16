/** The compare-and-swap operations on one sandbox record, with the conditions and the text comparisons of
    the SQLite statements (internal/store/store.go:196-234, internal/store/sqlite/store.go:772-1170). */
module SandboxStore {
  import opened Wrappers
  import opened TimeText

  datatype Desired = WantRunning | WantTerminated

  datatype Observed = Pending | Creating | Running | Stopping | Failed | Terminated

  /** `time.Time{}`. */
  const ZERO: Instant := 0

  const MAX_UINT32 := 4294967295

  datatype Record = Record(
    revision: nat, desired: Desired, observed: Observed, expiry: Instant, runtimeId: string,
    retryAttempt: nat, nextReconcile: Option<Instant>, healthFailures: nat)

  datatype Op =
    | UpdateDesired(now: Instant)
    | UpdateObserved(state: Observed, runtimeId: string, at: Option<Instant>)
    | Renew(now: Instant, expiry: Instant)
    | ExpireIntent(expected: Instant, now: Instant)
    | ScheduleRetry(attempted: Instant, next: Instant, runtimeId: string)
    | ResetRetry(state: Observed, runtimeId: string)
    | RecordHealth(healthy: bool)

  datatype Reply = Updated(record: Record) | NoChange(record: Record) | Conflict | Invalid

  /** `expires_at > now` and the like on texts; NULL compares as false. */
  predicate DueText(at: Option<Instant>, now: Instant) {
    at.Some? && !Earlier(now, at.value)
  }

  /** The argument checks before the statement. */
  predicate Admissible(op: Op) {
    match op
    case Renew(now, expiry) => now != ZERO && expiry != ZERO && expiry > now
    case ExpireIntent(expected, now) => now != ZERO && expected != ZERO && now >= expected
    case ScheduleRetry(attempted, next, _) => attempted != ZERO && next != ZERO && next > attempted
    case UpdateObserved(_, _, at) => at != Some(ZERO)
    case _ => true
  }

  /** The WHERE clause, apart from the ID. */
  predicate Matches(r: Record, revision: nat, op: Op) {
    && r.revision == revision
    && match op
       case UpdateDesired(now) => r.desired.WantRunning? || !DueText(r.nextReconcile, now)
       case UpdateObserved(_, _, _) => true
       case Renew(now, expiry) =>
         && r.desired.WantRunning? && !r.observed.Terminated?
         && Earlier(now, r.expiry) && Earlier(r.expiry, expiry)
       case ExpireIntent(expected, now) =>
         && r.desired.WantRunning? && !r.observed.Terminated?
         && Text(r.expiry) == Text(expected) && !Earlier(now, r.expiry)
       case ScheduleRetry(_, _, _) => !r.observed.Terminated? && r.retryAttempt < MAX_UINT32
       case ResetRetry(state, _) =>
         (r.desired.WantRunning? && state.Running?) || (r.desired.WantTerminated? && state.Terminated?)
       case RecordHealth(_) => r.desired.WantRunning? && r.observed.Running?
  }

  /** The SET clause. */
  function Written(r: Record, op: Op): Record {
    var next := r.(revision := r.revision + 1);
    match op
    case UpdateDesired(now) => next.(desired := WantTerminated, nextReconcile := Some(now))
    case UpdateObserved(state, runtimeId, at) =>
      next.(observed := state, runtimeId := runtimeId, nextReconcile := if at.Some? then at else r.nextReconcile)
    case Renew(now, expiry) => next.(expiry := expiry, nextReconcile := Some(now))
    case ExpireIntent(_, now) => next.(desired := WantTerminated, observed := Stopping, nextReconcile := Some(now))
    case ScheduleRetry(_, at, runtimeId) =>
      next.(observed := Failed, runtimeId := runtimeId, retryAttempt := r.retryAttempt + 1, nextReconcile := Some(at))
    case ResetRetry(state, runtimeId) =>
      next.(observed := state, runtimeId := runtimeId, retryAttempt := 0, nextReconcile := None)
    case RecordHealth(healthy) =>
      next.(healthFailures := if healthy then 0 else if r.healthFailures < MAX_UINT32 then r.healthFailures + 1 else r.healthFailures)
  }

  /** One operation against the record with an expected revision. */
  function Applied(r: Record, revision: nat, op: Op): (Record, Reply) {
    if !Admissible(op) then (r, Invalid)
    else if Matches(r, revision, op) then (Written(r, op), Updated(Written(r, op)))
    else if op.UpdateDesired? && r.desired.WantTerminated? && r.nextReconcile.Some? && r.nextReconcile.value <= op.now
    then (r, NoChange(r))
    else (r, Conflict)
  }

  class Store {
    var record: Record

    constructor (record: Record)
      ensures this.record == record
    {
      this.record := record;
    }

    method Get() returns (r: Record)
      ensures r == record
    {
      r := record;
    }

    /** The transaction all operations share: the conditional update, the affected rows, and the read back. */
    method Execute(revision: nat, op: Op) returns (reply: Reply)
      modifies this
      ensures (record, reply) == Applied(old(record), revision, op)
    {
      if !Admissible(op) {
        return Invalid;
      }
      var affected := Matches(record, revision, op);
      if affected {
        record := Written(record, op);
      }
      var current := Get();
      if affected {
        return Updated(current);
      }
      if op.UpdateDesired? {
        var needsAdvance := current.nextReconcile.None? || current.nextReconcile.value > op.now;
        if current.desired.WantTerminated? && !needsAdvance {
          return NoChange(current);
        }
      }
      return Conflict;
    }
  }

  // ---------- What a history of calls leaves behind ----------

  /** One store call of some writer; nothing is demanded of its arguments. */
  datatype Call = Call(revision: nat, op: Op)

  /** A store operation on values: what it makes of the record, and its reply. */
  type Db = (Record, nat, Op) -> (Record, Reply)

  function Raced(db: Db, r: Record, calls: seq<Call>): Record
    decreases calls
  {
    if calls == [] then r else Raced(db, db(r, calls[0].revision, calls[0].op).0, calls[1..])
  }

  /** The operations of the calls that were answered with an updated record. */
  function Took(db: Db, r: Record, calls: seq<Call>): seq<Op>
    decreases calls
  {
    if calls == [] then []
    else
      var (r', reply) := db(r, calls[0].revision, calls[0].op);
      (if reply.Updated? then [calls[0].op] else []) + Took(db, r', calls[1..])
  }

  lemma {:induction false} OneMore(db: Db, r: Record, calls: seq<Call>, c: Call)
    ensures var r' := Raced(db, r, calls);
            && Raced(db, r, calls + [c]) == db(r', c.revision, c.op).0
            && Took(db, r, calls + [c]) == Took(db, r, calls) + if db(r', c.revision, c.op).1.Updated? then [c.op] else []
    decreases calls
  {
    if calls == [] {
      assert [c][1..] == [] && calls + [c] == [c];
    } else {
      assert (calls + [c])[1..] == calls[1..] + [c];
      OneMore(db, db(r, calls[0].revision, calls[0].op).0, calls[1..], c);
    }
  }

  /** The last value that any of the operations names. */
  function Latest<T>(ops: seq<Op>, names: Op -> Option<T>, first: T): T {
    if ops == [] then first
    else
      var last := names(ops[|ops|-1]);
      if last.Some? then last.value else Latest(ops[..|ops|-1], names, first)
  }

  function NamesState(op: Op): Option<Observed> {
    match op
    case UpdateObserved(state, _, _) => Some(state)
    case ExpireIntent(_, _) => Some(Stopping)
    case ScheduleRetry(_, _, _) => Some(Failed)
    case ResetRetry(state, _) => Some(state)
    case _ => None
  }

  function NamesRuntime(op: Op): Option<string> {
    match op
    case UpdateObserved(_, id, _) => Some(id)
    case ScheduleRetry(_, _, id) => Some(id)
    case ResetRetry(_, id) => Some(id)
    case _ => None
  }

  function NamesExpiry(op: Op): Option<Instant> {
    if op.Renew? then Some(op.expiry) else None
  }

  /** Intents are due at once, a retry at its own time, and success clears what was scheduled. */
  function NamesSchedule(op: Op): Option<Option<Instant>> {
    match op
    case UpdateDesired(now) => Some(Some(now))
    case UpdateObserved(_, _, at) => if at.Some? then Some(at) else None
    case Renew(now, _) => Some(Some(now))
    case ExpireIntent(_, now) => Some(Some(now))
    case ScheduleRetry(_, next, _) => Some(Some(next))
    case ResetRetry(_, _) => Some(None)
    case RecordHealth(_) => None
  }

  /** The retries since the last success. */
  function Retries(ops: seq<Op>, first: nat): nat {
    if ops == [] then first
    else
      var last := ops[|ops|-1];
      if last.ResetRetry? then 0 else Retries(ops[..|ops|-1], first) + if last.ScheduleRetry? then 1 else 0
  }

  /** The failed health checks since the last one that succeeded. */
  function Failures(ops: seq<Op>, first: nat): nat {
    if ops == [] then first
    else
      var last := ops[|ops|-1];
      if last == RecordHealth(true) then 0 else Failures(ops[..|ops|-1], first) + if last.RecordHealth? then 1 else 0
  }

  predicate AsksToTerminate(op: Op) {
    op.UpdateDesired? || op.ExpireIntent?
  }

  function Capped(n: nat): nat {
    if n < MAX_UINT32 then n else MAX_UINT32
  }

  predicate Asked(ops: seq<Op>) {
    exists i :: 0 <= i < |ops| && AsksToTerminate(ops[i])
  }

  /** The record is what these operations, starting from `r`, say about each of its fields. */
  ghost predicate Tells(r: Record, ops: seq<Op>, r': Record) {
    && r'.revision == r.revision + |ops|
    && (r'.desired.WantTerminated? <==> r.desired.WantTerminated? || Asked(ops))
    && r'.observed == Latest(ops, NamesState, r.observed)
    && r'.runtimeId == Latest(ops, NamesRuntime, r.runtimeId)
    && r'.expiry == Latest(ops, NamesExpiry, r.expiry)
    && r'.nextReconcile == Latest(ops, NamesSchedule, r.nextReconcile)
    && r'.retryAttempt == Retries(ops, r.retryAttempt)
    && r'.healthFailures == Capped(Failures(ops, r.healthFailures))
  }

  lemma AskedOneMore(ops: seq<Op>, op: Op)
    ensures Asked(ops + [op]) <==> Asked(ops) || AsksToTerminate(op)
  {
    if Asked(ops) {
      var i :| 0 <= i < |ops| && AsksToTerminate(ops[i]);
      assert AsksToTerminate((ops + [op])[i]);
    }
    assert (ops + [op])[|ops|] == op;
  }

  /** An accepted call makes the record tell one operation more. */
  lemma TellsOneMore(r: Record, ops: seq<Op>, r': Record, op: Op)
    requires Tells(r, ops, r')
    ensures Tells(r, ops + [op], Written(r', op))
  {
    var ops' := ops + [op];
    assert ops'[..|ops'|-1] == ops && ops'[|ops|] == op;
    AskedOneMore(ops, op);
  }

  /** Over every history of calls, with any revisions and arguments, the record is told by the calls that were
      accepted: the intent once asked for stays, each other field has its last writer, the attempts are the retries
      since the last success, and the failures the failed checks since the last healthy one, up to the column's
      maximum. */
  lemma {:induction false} HistoryTellsRecord(r: Record, calls: seq<Call>)
    requires r.healthFailures <= MAX_UINT32
    ensures Tells(r, Took(Applied, r, calls), Raced(Applied, r, calls))
    decreases calls
  {
    if calls != [] {
      var before, c := calls[..|calls|-1], calls[|calls|-1];
      assert calls == before + [c];
      HistoryTellsRecord(r, before);
      OneMore(Applied, r, before, c);
      var r' := Raced(Applied, r, before);
      if Applied(r', c.revision, c.op).1.Updated? {
        TellsOneMore(r, Took(Applied, r, before), r', c.op);
      } else {
        assert Took(Applied, r, calls) == Took(Applied, r, before);
      }
    }
  }

  /** Retries of the record as it is, one after the other, each for a time after its attempt. */
  predicate RetriesOf(r: Record, calls: seq<Call>) {
    forall i :: 0 <= i < |calls| ==>
      && calls[i].revision == r.revision + i && calls[i].op.ScheduleRetry?
      && calls[i].op.attempted != ZERO && calls[i].op.next != ZERO && calls[i].op.attempted < calls[i].op.next
  }

  /** Every failed attempt at a sandbox that is not Terminated is counted and scheduled, until the column is full;
      then a retry is refused and the record stays as it is. */
  lemma {:induction false} RetriesAreCounted(r: Record, calls: seq<Call>)
    requires !r.observed.Terminated? && RetriesOf(r, calls) && calls != []
    ensures var r' := Raced(Applied, r, calls);
            && (r.retryAttempt + |calls| <= MAX_UINT32 ==>
                  && r'.retryAttempt == r.retryAttempt + |calls| && r'.observed.Failed?
                  && r'.nextReconcile == Some(calls[|calls|-1].op.next) && r'.runtimeId == calls[|calls|-1].op.runtimeId
                  && r'.desired == r.desired && r'.expiry == r.expiry && r'.healthFailures == r.healthFailures)
            && (r.retryAttempt >= MAX_UINT32 ==> r' == r)
    decreases calls
  {
    var r' := Applied(r, calls[0].revision, calls[0].op).0;
    if |calls| == 1 {
      assert Raced(Applied, r, calls) == r';
    } else if r.retryAttempt < MAX_UINT32 {
      assert RetriesOf(r', calls[1..]);
      RetriesAreCounted(r', calls[1..]);
    } else {
      RefusedWhenFull(r, calls);
    }
  }

  lemma {:induction false} RefusedWhenFull(r: Record, calls: seq<Call>)
    requires r.retryAttempt >= MAX_UINT32 && forall i :: 0 <= i < |calls| ==> calls[i].op.ScheduleRetry?
    ensures Raced(Applied, r, calls) == r
    decreases calls
  {
    if calls != [] {
      RefusedWhenFull(r, calls[1..]);
    }
  }

  // ---------- What the comparison of texts does to leases ----------

  /** A lease operation is chronological: what the caller means by it. */
  predicate RenewMeant(r: Record, revision: nat, now: Instant, expiry: Instant) {
    && r.revision == revision && r.desired.WantRunning? && !r.observed.Terminated?
    && now < r.expiry < expiry
  }

  predicate ExpireMeant(r: Record, revision: nat, expected: Instant, now: Instant) {
    && r.revision == revision && r.desired.WantRunning? && !r.observed.Terminated?
    && r.expiry == expected <= now
  }

  /** `ExpireIntent` commits a due lease exactly when the texts are not inverted, and it never commits a
      lease that is not due. */
  lemma ExpireExactly(r: Record, revision: nat, expected: Instant, now: Instant)
    requires Admissible(ExpireIntent(expected, now))
    ensures Applied(r, revision, ExpireIntent(expected, now)).1.Updated? <==>
            ExpireMeant(r, revision, expected, now) && !Inverted(r.expiry, now)
  {
    if r.expiry < now {
      TextOrder(r.expiry, now);
    } else if now < r.expiry {
      TextOrder(now, r.expiry);
    }
    if Text(r.expiry) == Text(expected) {
      TextIsInjective(r.expiry, expected);
    }
    Ordering.LessIrreflexive(Text(now));
  }

  /** How the store orders two instants: by time, except that an inverted pair is exchanged. */
  predicate Ordered(a: Instant, b: Instant) {
    if a < b then !Inverted(a, b) else b < a && Inverted(b, a)
  }

  lemma EarlierForward(a: Instant, b: Instant)
    requires a < b
    ensures Earlier(a, b) <==> Ordered(a, b)
  {
    TextOrder(a, b);
  }

  lemma EarlierBackward(a: Instant, b: Instant)
    requires b < a
    ensures Earlier(a, b) <==> Ordered(a, b)
  {
    TextOrder(b, a);
  }

  lemma EarlierExactly(a: Instant, b: Instant)
    ensures Earlier(a, b) <==> Ordered(a, b)
  {
    if a < b {
      EarlierForward(a, b);
    } else if b < a {
      EarlierBackward(a, b);
    } else {
      Ordering.LessIrreflexive(Text(a));
    }
  }

  /** When the store takes a delete: always the first one, and one of a record that is terminating already while its
      schedule is later by the texts; otherwise it answers that nothing is needed exactly if the schedule is due. */
  lemma DesiredAcceptedExactly(r: Record, revision: nat, now: Instant)
    ensures var (r', reply) := Applied(r, revision, UpdateDesired(now));
            && (reply.Updated? <==>
                  r.revision == revision
                  && (r.desired.WantRunning? || r.nextReconcile.None? || Ordered(now, r.nextReconcile.value)))
            && (reply.NoChange? <==>
                  !reply.Updated? && r.desired.WantTerminated? && r.nextReconcile.Some? && r.nextReconcile.value <= now)
            && (!reply.Updated? ==> r' == r)
  {
    if r.nextReconcile.Some? {
      EarlierExactly(now, r.nextReconcile.value);
    }
  }

  /** When it takes the operations of a reconcile, and that it leaves the record alone otherwise. */
  lemma OthersAcceptedExactly(r: Record, revision: nat, op: Op)
    requires !op.Renew? && !op.ExpireIntent? && !op.UpdateDesired?
    ensures var (r', reply) := Applied(r, revision, op);
            && (reply.Updated? <==>
                  && r.revision == revision
                  && match op
                     case UpdateObserved(_, _, at) => at.None? || at.value > 0
                     case ScheduleRetry(attempted, next, _) =>
                       0 < attempted < next && !r.observed.Terminated? && r.retryAttempt < 4_294_967_295
                     case ResetRetry(state, _) => state == if r.desired.WantRunning? then Running else Terminated
                     case RecordHealth(_) => r.desired.WantRunning? && r.observed.Running?
                     case _ => false)
            && !reply.NoChange? && (!reply.Updated? ==> r' == r)
  {
  }

  /** `Renew` commits exactly the renewals it is meant to, except for inverted pairs: it then refuses a
      legal renewal, accepts one of a lease that has just run out, or shortens the lease. */
  lemma RenewExactly(r: Record, revision: nat, now: Instant, expiry: Instant)
    requires Admissible(Renew(now, expiry))
    ensures Applied(r, revision, Renew(now, expiry)).1.Updated? <==>
            && r.revision == revision && r.desired.WantRunning? && !r.observed.Terminated?
            && Ordered(now, r.expiry) && Ordered(r.expiry, expiry)
    ensures !Inverted(now, r.expiry) && !Inverted(r.expiry, now) && !Inverted(r.expiry, expiry) && !Inverted(expiry, r.expiry)
            ==> (Applied(r, revision, Renew(now, expiry)).1.Updated? <==> RenewMeant(r, revision, now, expiry))
  {
    EarlierExactly(now, r.expiry);
    EarlierExactly(r.expiry, expiry);
  }

  lemma LaterIsInverted(a: Instant, b: Instant)
    requires Earlier(a, b)
    ensures b < a <==> Inverted(b, a)
  {
    EarlierExactly(a, b);
    if Inverted(b, a) {
      InvertedIsBefore(b, a);
    }
  }

  /** The exact condition under which a committed `Renew` shortens the lease. */
  lemma RenewShortensExactly(r: Record, revision: nat, now: Instant, expiry: Instant)
    requires Applied(r, revision, Renew(now, expiry)).1.Updated?
    ensures Applied(r, revision, Renew(now, expiry)).0.expiry < r.expiry <==> Inverted(expiry, r.expiry)
  {
    LaterIsInverted(r.expiry, expiry);
  }

  /** Both at once: a lease until half past is renewed, at the store, to the full second before it. */
  lemma RenewCanShorten()
    ensures var r := Record(1, WantRunning, Running, 2_500_000_000, "", 0, None, 0);
            var (r', reply) := Applied(r, 1, Renew(1_000_000_000, 2_000_000_000));
            reply.Updated? && r'.expiry < r.expiry
  {
    HalfPastSortsFirst();
    SecondsOrder(1_000_000_000, 2_500_000_000);
  }
}
