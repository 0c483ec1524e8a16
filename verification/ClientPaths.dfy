/** What the clients without the keyed lock do to the record when nobody interferes, and when somebody does
    (internal/application/renew.go, internal/application/sandbox_service.go:160-202,
    internal/reconcile/ttl_expiration.go:47-81, internal/reconcile/metadata_repair.go,
    internal/reconcile/reconciler.go:227-252). */
module ClientPaths {
  import opened Wrappers
  import opened TimeText
  import opened SandboxStore
  import opened Lifecycle

  /** These steps of thread t lead from one state to the other. */
  predicate Leads(s: State, t: nat, acts: seq<ClientAct>, s': State) {
    var run := seq(|acts|, i requires 0 <= i < |acts| => Client(t, acts[i]));
    Runs(s, run) && After(s, run) == s'
  }

  lemma LeadsOn(s: State, t: nat, acts: seq<ClientAct>, m: State, a: ClientAct, s': State)
    requires Leads(s, t, acts, m) && t < |m.pcs| && ClientEnabled(m.pcs[t], a) && ClientStep(m, t, a) == s'
    ensures Leads(s, t, acts + [a], s')
  {
    var run := seq(|acts|, i requires 0 <= i < |acts| => Client(t, acts[i]));
    RunsOn(s, run, Client(t, a));
    var longer := seq(|acts + [a]|, i requires 0 <= i < |acts + [a]| => Client(t, (acts + [a])[i]));
    assert longer == run + [Client(t, a)];
  }

  /** The state with thread t here and this record. */
  function With(s: State, t: nat, r: Record, pc: Pc): State
    requires t < |s.pcs|
  {
    s.(rec := r, pcs := s.pcs[t := pc])
  }

  predicate IsIdle(s: State, t: nat) {
    t < |s.pcs| && s.pcs[t].Idle?
  }

  /** One call of the store on the very record it holds, taken. */
  predicate Takes(r: Record, op: Op, r': Record) {
    Applied(r, r.revision, op) == (r', Updated(r'))
  }

  predicate TakesStep(s: State, t: nat, a: ClientAct, s': State) {
    t < |s.pcs| && ClientEnabled(s.pcs[t], a) && ClientStep(s, t, a) == s'
  }

  /** A store call that is taken ends idle with what the store made of the record. */
  lemma CommitTaken(m: State, t: nat, revision: nat, op: Op, conflict: Pc, r: Record)
    requires t < |m.pcs| && Applied(m.rec, revision, op) == (r, Updated(r))
    ensures Commit(m, t, revision, op, Idle, conflict) == With(m, t, r, Idle)
  {
  }

  lemma RenewalCommits(m: State, t: nat, requested: Instant, snap: Record, now: Instant, left: nat)
    requires t < |m.pcs| && m.pcs[t] == RenewChecked(requested, snap, now, left)
    ensures ClientStep(m, t, CommitRenew) ==
            Commit(m, t, snap.revision, Renew(now, requested), Idle, if left > 1 then RenewLost(requested, left - 1) else Idle)
  {
  }

  lemma RenewalTaken(m: State, t: nat, requested: Instant, snap: Record, now: Instant, left: nat, r: Record)
    requires t < |m.pcs| && m.pcs[t] == RenewChecked(requested, snap, now, left) && snap == m.rec
    requires Takes(m.rec, Renew(now, requested), r)
    ensures TakesStep(m, t, CommitRenew, With(m, t, r, Idle))
  {
    RenewalCommits(m, t, requested, snap, now, left);
    CommitTaken(m, t, snap.revision, Renew(now, requested), if left > 1 then RenewLost(requested, left - 1) else Idle, r);
  }

  lemma TimerCommits(m: State, t: nat, expected: Instant, snap: Record, now: Instant, left: nat)
    requires t < |m.pcs| && m.pcs[t] == TimerChecked(expected, snap, now, left)
    ensures ClientStep(m, t, CommitTimer) ==
            Commit(m, t, snap.revision, ExpireIntent(expected, now), Idle, if left > 1 then Timing(expected, left - 1) else Idle)
  {
  }

  lemma TimerTaken(m: State, t: nat, expected: Instant, snap: Record, now: Instant, left: nat, r: Record)
    requires t < |m.pcs| && m.pcs[t] == TimerChecked(expected, snap, now, left) && snap == m.rec
    requires Takes(m.rec, ExpireIntent(expected, now), r)
    ensures TakesStep(m, t, CommitTimer, With(m, t, r, Idle))
  {
    TimerCommits(m, t, expected, snap, now, left);
    assert ClientEnabled(m.pcs[t], CommitTimer);
    CommitTaken(m, t, snap.revision, ExpireIntent(expected, now), if left > 1 then Timing(expected, left - 1) else Idle, r);
  }

  lemma StepLeads(s: State, t: nat, acts: seq<ClientAct>, pc: Pc, a: ClientAct, r: Record)
    requires t < |s.pcs| && Leads(s, t, acts, With(s, t, s.rec, pc))
    requires TakesStep(With(s, t, s.rec, pc), t, a, With(With(s, t, s.rec, pc), t, r, Idle))
    ensures Leads(s, t, acts + [a], With(s, t, r, Idle))
  {
    LeadsOn(s, t, acts, With(s, t, s.rec, pc), a, With(With(s, t, s.rec, pc), t, r, Idle));
    assert With(With(s, t, s.rec, pc), t, r, Idle) == With(s, t, r, Idle);
  }

  function Renewed(s: State, requested: Instant): Record {
    s.rec.(revision := s.rec.revision + 1, expiry := requested, nextReconcile := Some(s.clock))
  }

  lemma ChecksRenewal(s: State, t: nat, requested: Instant)
    requires IsIdle(s, t)
    ensures Leads(s, t, [StartRenew(requested), CheckRenew],
                  if RenewAllowed(s.policy, s.rec, requested, s.clock)
                  then With(s, t, s.rec, RenewChecked(requested, s.rec, s.clock, 3)) else s)
  {
    ValidatedExactly(s.policy, s.rec, requested, s.clock);
    var m := With(s, t, s.rec, Renewing(requested, s.rec, 3));
    LeadsOn(s, t, [], s, StartRenew(requested), m);
    assert m.pcs[t := Idle] == s.pcs;
    LeadsOn(s, t, [] + [StartRenew(requested)], m, CheckRenew,
            if RenewAllowed(s.policy, s.rec, requested, s.clock)
            then With(s, t, s.rec, RenewChecked(requested, s.rec, s.clock, 3)) else s);
    assert [] + [StartRenew(requested)] + [CheckRenew] == [StartRenew(requested), CheckRenew];
  }

  /** A checked renewal that the store takes. */
  lemma CheckedIsWritten(s: State, t: nat, acts: seq<ClientAct>, requested: Instant, r: Record)
    requires IsIdle(s, t) && Leads(s, t, acts, With(s, t, s.rec, RenewChecked(requested, s.rec, s.clock, 3)))
    requires Takes(s.rec, Renew(s.clock, requested), r)
    ensures Leads(s, t, acts + [CommitRenew], With(s, t, r, Idle))
  {
    var pc := RenewChecked(requested, s.rec, s.clock, 3);
    RenewalTaken(With(s, t, s.rec, pc), t, requested, s.rec, s.clock, 3, r);
    StepLeads(s, t, acts, pc, CommitRenew, r);
  }

  /** A lone renewal that is allowed and that the store takes writes what was asked for, by the clock at its check; one
      that is not allowed, or asks for the end there is, writes nothing. */
  lemma RenewalWrites(s: State, t: nat, requested: Instant)
    requires IsIdle(s, t)
    ensures RenewAllowed(s.policy, s.rec, requested, s.clock) && Takes(s.rec, Renew(s.clock, requested), Renewed(s, requested)) ==>
              Leads(s, t, [StartRenew(requested), CheckRenew, CommitRenew], With(s, t, Renewed(s, requested), Idle))
    ensures !RenewAllowed(s.policy, s.rec, requested, s.clock) ==> Leads(s, t, [StartRenew(requested), CheckRenew], s)
  {
    ChecksRenewal(s, t, requested);
    if RenewAllowed(s.policy, s.rec, requested, s.clock) && Takes(s.rec, Renew(s.clock, requested), Renewed(s, requested)) {
      CheckedIsWritten(s, t, [StartRenew(requested), CheckRenew], requested, Renewed(s, requested));
      assert [StartRenew(requested), CheckRenew] + [CommitRenew] == [StartRenew(requested), CheckRenew, CommitRenew];
    }
  }

  /** A lone first delete asks for termination at once; one of a Terminated sandbox writes nothing. */
  lemma DeleteWrites(s: State, t: nat)
    requires IsIdle(s, t) && (s.rec.desired.WantRunning? || s.rec.observed.Terminated?)
    ensures Leads(s, t, [StartDelete, CommitDelete],
                  if s.rec.observed.Terminated? then s
                  else With(s, t, s.rec.(revision := s.rec.revision + 1, desired := WantTerminated, nextReconcile := Some(s.clock)), Idle))
  {
    var m := With(s, t, s.rec, Deleting(s.rec, 2));
    assert m.pcs[t := Idle] == s.pcs;
    LeadsOn(s, t, [], s, StartDelete, m);
    LeadsOn(s, t, [] + [StartDelete], m, CommitDelete,
            if s.rec.observed.Terminated? then s
            else With(s, t, s.rec.(revision := s.rec.revision + 1, desired := WantTerminated, nextReconcile := Some(s.clock)), Idle));
    assert [] + [StartDelete] + [CommitDelete] == [StartDelete, CommitDelete];
  }

  function Expired(s: State): Record {
    s.rec.(revision := s.rec.revision + 1, desired := WantTerminated, observed := Stopping, nextReconcile := Some(s.clock))
  }

  lemma ChecksTimer(s: State, t: nat, expected: Instant)
    requires IsIdle(s, t)
    ensures Leads(s, t, [StartTimer(expected), ReadTimer, CheckTimer],
                  if s.rec.desired.WantRunning? && !s.rec.observed.Terminated? && s.rec.expiry == expected <= s.clock
                  then With(s, t, s.rec, TimerChecked(expected, s.rec, s.clock, 3)) else s)
  {
    var m := With(s, t, s.rec, Timing(expected, 3));
    var m2 := With(s, t, s.rec, TimerRead(expected, s.rec, 3));
    assert m2.pcs[t := Idle] == s.pcs;
    LeadsOn(s, t, [], s, StartTimer(expected), m);
    LeadsOn(s, t, [] + [StartTimer(expected)], m, ReadTimer, m2);
    LeadsOn(s, t, [] + [StartTimer(expected)] + [ReadTimer], m2, CheckTimer,
            if s.rec.desired.WantRunning? && !s.rec.observed.Terminated? && s.rec.expiry == expected <= s.clock
            then With(s, t, s.rec, TimerChecked(expected, s.rec, s.clock, 3)) else s);
    assert [] + [StartTimer(expected)] + [ReadTimer] + [CheckTimer] == [StartTimer(expected), ReadTimer, CheckTimer];
  }

  lemma CheckedIsExpired(s: State, t: nat, acts: seq<ClientAct>, expected: Instant, r: Record)
    requires IsIdle(s, t) && Leads(s, t, acts, With(s, t, s.rec, TimerChecked(expected, s.rec, s.clock, 3)))
    requires Takes(s.rec, ExpireIntent(expected, s.clock), r)
    ensures Leads(s, t, acts + [CommitTimer], With(s, t, r, Idle))
  {
    var pc := TimerChecked(expected, s.rec, s.clock, 3);
    TimerTaken(With(s, t, s.rec, pc), t, expected, s.rec, s.clock, 3, r);
    StepLeads(s, t, acts, pc, CommitTimer, r);
  }

  predicate TimerIsDue(r: Record, expected: Instant, now: Instant) {
    r.desired.WantRunning? && !r.observed.Terminated? && r.expiry == expected <= now
  }

  /** A lone timer terminates its sandbox if the lease it was set for is the present one and has run out, and the store
      takes it; otherwise it writes nothing. */
  lemma TimerWrites(s: State, t: nat, expected: Instant)
    requires IsIdle(s, t)
    ensures TimerIsDue(s.rec, expected, s.clock) && Takes(s.rec, ExpireIntent(expected, s.clock), Expired(s)) ==>
              Leads(s, t, [StartTimer(expected), ReadTimer, CheckTimer, CommitTimer], With(s, t, Expired(s), Idle))
    ensures !TimerIsDue(s.rec, expected, s.clock) ==> Leads(s, t, [StartTimer(expected), ReadTimer, CheckTimer], s)
  {
    ChecksTimer(s, t, expected);
    if TimerIsDue(s.rec, expected, s.clock) && Takes(s.rec, ExpireIntent(expected, s.clock), Expired(s)) {
      CheckedIsExpired(s, t, [StartTimer(expected), ReadTimer, CheckTimer], expected, Expired(s));
      assert [StartTimer(expected), ReadTimer, CheckTimer] + [CommitTimer] ==
             [StartTimer(expected), ReadTimer, CheckTimer, CommitTimer];
    }
  }

  /** A lone repair writes the container's ID and its time; a lone report of drift writes Failed, and only over a
      sandbox that is to run. */
  lemma RepairsWrite(s: State, t: nat, newId: string, at: Option<Instant>)
    requires IsIdle(s, t) && at != Some(0)
    ensures Leads(s, t, [ReadKeep, CommitKeep(newId, at)],
                  With(s, t, s.rec.(revision := s.rec.revision + 1, runtimeId := newId,
                                    nextReconcile := if at.Some? then at else s.rec.nextReconcile), Idle))
    ensures s.rec.desired.WantRunning? ==>
              Leads(s, t, [ReadDrift, CommitDrift], With(s, t, s.rec.(revision := s.rec.revision + 1, observed := Failed), Idle))
    ensures s.rec.desired.WantTerminated? ==> Leads(s, t, [ReadDrift], s)
  {
    var m := With(s, t, s.rec, Keeping(s.rec));
    LeadsOn(s, t, [], s, ReadKeep, m);
    LeadsOn(s, t, [] + [ReadKeep], m, CommitKeep(newId, at),
            With(s, t, s.rec.(revision := s.rec.revision + 1, runtimeId := newId,
                              nextReconcile := if at.Some? then at else s.rec.nextReconcile), Idle));
    assert [] + [ReadKeep] + [CommitKeep(newId, at)] == [ReadKeep, CommitKeep(newId, at)];
    if s.rec.desired.WantRunning? {
      var d := With(s, t, s.rec, Drifting(s.rec));
      LeadsOn(s, t, [], s, ReadDrift, d);
      LeadsOn(s, t, [] + [ReadDrift], d, CommitDrift, With(s, t, s.rec.(revision := s.rec.revision + 1, observed := Failed), Idle));
      assert [] + [ReadDrift] + [CommitDrift] == [ReadDrift, CommitDrift];
    } else {
      assert s.pcs[t := Idle] == s.pcs;
      LeadsOn(s, t, [], s, ReadDrift, s);
      assert [] + [ReadDrift] == [ReadDrift];
    }
  }

  /** Whoever loses to another writer leaves the record alone and reads it again, as long as it has attempts left. */
  lemma LosersReadAgain(s: State, t: nat)
    requires t < |s.pcs|
    ensures var pc := s.pcs[t];
            && (pc.RenewChecked? && pc.snap.revision != s.rec.revision && 0 < pc.now < pc.requested ==>
                  if pc.left > 1
                  then Leads(s, t, [CommitRenew, RereadRenew], With(s, t, s.rec, Renewing(pc.requested, s.rec, pc.left - 1)))
                  else Leads(s, t, [CommitRenew], With(s, t, s.rec, Idle)))
            && (pc.TimerChecked? && pc.snap.revision != s.rec.revision && 0 < pc.expected <= pc.now ==>
                  if pc.left > 1
                  then Leads(s, t, [CommitTimer, ReadTimer], With(s, t, s.rec, TimerRead(pc.expected, s.rec, pc.left - 1)))
                  else Leads(s, t, [CommitTimer], With(s, t, s.rec, Idle)))
  {
    var pc := s.pcs[t];
    if pc.RenewChecked? && pc.snap.revision != s.rec.revision && 0 < pc.now < pc.requested {
      var m := With(s, t, s.rec, if pc.left > 1 then RenewLost(pc.requested, pc.left - 1) else Idle);
      LeadsOn(s, t, [], s, CommitRenew, m);
      assert [] + [CommitRenew] == [CommitRenew];
      if pc.left > 1 {
        LeadsOn(s, t, [CommitRenew], m, RereadRenew, With(s, t, s.rec, Renewing(pc.requested, s.rec, pc.left - 1)));
        assert [CommitRenew] + [RereadRenew] == [CommitRenew, RereadRenew];
      }
    }
    if pc.TimerChecked? && pc.snap.revision != s.rec.revision && 0 < pc.expected <= pc.now {
      var m := With(s, t, s.rec, if pc.left > 1 then Timing(pc.expected, pc.left - 1) else Idle);
      LeadsOn(s, t, [], s, CommitTimer, m);
      assert [] + [CommitTimer] == [CommitTimer];
      if pc.left > 1 {
        LeadsOn(s, t, [CommitTimer], m, ReadTimer, With(s, t, s.rec, TimerRead(pc.expected, s.rec, pc.left - 1)));
        assert [CommitTimer] + [ReadTimer] == [CommitTimer, ReadTimer];
      }
    }
  }

  /** A delete that loses over a record that still wants to run does so once. */
  lemma DeleteReadsAgain(s: State, t: nat)
    requires t < |s.pcs| && s.pcs[t].Deleting? && s.pcs[t].snap.revision != s.rec.revision
    requires !s.pcs[t].snap.observed.Terminated? && s.rec.desired.WantRunning?
    ensures var left := s.pcs[t].left;
            if left > 1 then Leads(s, t, [CommitDelete, RereadDelete], With(s, t, s.rec, Deleting(s.rec, left - 1)))
            else Leads(s, t, [CommitDelete], With(s, t, s.rec, Idle))
  {
    var left := s.pcs[t].left;
    var m := With(s, t, s.rec, if left > 1 then DeleteLost(left - 1) else Idle);
    LeadsOn(s, t, [], s, CommitDelete, m);
    assert [] + [CommitDelete] == [CommitDelete];
    if left > 1 {
      LeadsOn(s, t, [CommitDelete], m, RereadDelete, With(s, t, s.rec, Deleting(s.rec, left - 1)));
      assert [CommitDelete] + [RereadDelete] == [CommitDelete, RereadDelete];
    }
  }
}
