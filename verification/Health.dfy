/** Running sandboxes whose health checks fail: from the counter in the store to the replacement of the container
    (internal/reconcile/running_recovery.go:76-106, internal/store/sqlite/store.go:1152-1190). */
module Health {
  import opened Wrappers
  import opened TimeText
  import opened SandboxStore
  import opened Lifecycle

  /** The failed checks since the last one that succeeded. */
  function Streak(results: seq<bool>): nat {
    if results == [] || results[|results|-1] then 0 else Streak(results[..|results|-1]) + 1
  }

  /** One reconcile of a Running sandbox whose lease is not due, up to the result of its health check. */
  function Round(t: nat, healthy: bool): seq<Act> {
    [Reconcile(t, Begin), Reconcile(t, CheckDue), Reconcile(t, Recover), Reconcile(t, Lifecycle.Health(healthy))]
  }

  function Rounds(t: nat, results: seq<bool>): seq<Act> {
    if results == [] then [] else Rounds(t, results[..|results|-1]) + Round(t, results[|results|-1])
  }

  /** The state between two rounds, in which `results` have been recorded. */
  function Recorded(s: State, results: seq<bool>): State {
    s.(rec := s.rec.(revision := s.rec.revision + |results|, healthFailures := Streak(results)))
  }

  lemma {:induction false} RunsConcat(s: State, first: seq<Act>, second: seq<Act>)
    requires Runs(s, first) && Runs(After(s, first), second)
    ensures Runs(s, first + second) && After(s, first + second) == After(After(s, first), second)
    decreases first
  {
    if first == [] {
      assert first + second == second;
    } else {
      assert (first + second)[1..] == first[1..] + second;
      RunsConcat(Step(s, first[0]), first[1..], second);
    }
  }

  /** Thread t has nothing to do and may reconcile a sandbox that is up and whose lease is not due. */
  predicate UpAndFree(s: State, t: nat) {
    && t < |s.pcs| && s.pcs[t].Idle? && s.lock.None?
    && s.rec.desired.WantRunning? && s.rec.observed.Running? && s.clock < s.rec.expiry
  }

  /** Thread t inside `Reconcile`, with the record as it is. */
  function Inside(s: State, t: nat, pc: Pc): State
    requires t < |s.pcs|
  {
    s.(pcs := s.pcs[t := pc], lock := Some(t))
  }

  /** The first three steps of a round. */
  lemma RoundBegins(s: State, t: nat)
    requires UpAndFree(s, t)
    ensures Enabled(s, Reconcile(t, Begin)) && Step(s, Reconcile(t, Begin)) == Inside(s, t, Got(s.rec))
    ensures var s1 := Inside(s, t, Got(s.rec));
            Enabled(s1, Reconcile(t, CheckDue)) && Step(s1, Reconcile(t, CheckDue)) == Inside(s, t, Routed(s.rec))
    ensures var s2 := Inside(s, t, Routed(s.rec));
            Enabled(s2, Reconcile(t, Recover)) && Step(s2, Reconcile(t, Recover)) == Inside(s, t, Checking(s.rec))
  {
  }

  lemma RunsFirst(s: State, a: Act, s': State, rest: seq<Act>)
    requires Enabled(s, a) && Step(s, a) == s' && Runs(s', rest)
    ensures Runs(s, [a] + rest) && After(s, [a] + rest) == After(s', rest)
  {
    assert ([a] + rest)[1..] == rest;
  }

  /** The state after a round. */
  function Checked(s: State, t: nat, healthy: bool): State
    requires t < |s.pcs|
  {
    var failures := if healthy then 0 else s.rec.healthFailures + 1;
    s.(rec := s.rec.(revision := s.rec.revision + 1, healthFailures := failures),
       pcs := s.pcs[t := if failures == 3 then Replacing else Idle],
       lock := if failures == 3 then Some(t) else None)
  }

  lemma OneRound(s: State, t: nat, healthy: bool)
    requires UpAndFree(s, t) && s.rec.healthFailures < 3
    ensures Runs(s, Round(t, healthy)) && After(s, Round(t, healthy)) == Checked(s, t, healthy)
  {
    RoundBegins(s, t);
    CheckRecorded(s, t, healthy);
    var last := Reconcile(t, Lifecycle.Health(healthy));
    RunsFirst(Inside(s, t, Checking(s.rec)), last, Checked(s, t, healthy), []);
    RunsFirst(Inside(s, t, Routed(s.rec)), Reconcile(t, Recover), Inside(s, t, Checking(s.rec)), [last] + []);
    RunsFirst(Inside(s, t, Got(s.rec)), Reconcile(t, CheckDue), Inside(s, t, Routed(s.rec)), [Reconcile(t, Recover)] + ([last] + []));
    RunsFirst(s, Reconcile(t, Begin), Inside(s, t, Got(s.rec)),
              [Reconcile(t, CheckDue)] + ([Reconcile(t, Recover)] + ([last] + [])));
    assert Round(t, healthy) == [Reconcile(t, Begin)] + ([Reconcile(t, CheckDue)] + ([Reconcile(t, Recover)] + ([last] + [])));
  }

  /** The last step of a round. */
  lemma CheckRecorded(s: State, t: nat, healthy: bool)
    requires UpAndFree(s, t) && s.rec.healthFailures < 3
    ensures var s3 := Inside(s, t, Checking(s.rec));
            && Enabled(s3, Reconcile(t, Lifecycle.Health(healthy)))
            && Step(s3, Reconcile(t, Lifecycle.Health(healthy))) == Checked(s, t, healthy)
  {
  }

  /** No proper beginning of these results ends with three failures. */
  predicate NeverThreeBefore(results: seq<bool>) {
    forall k :: 0 <= k < |results| ==> Streak(results[..k]) < 3
  }

  /** Over any sequence of health checks the container is replaced with the third consecutive failure, and neither
      earlier nor without it: until then each reconcile ends with the failures since the last success in the record. */
  lemma {:induction false} ThirdFailureReplaces(s: State, t: nat, results: seq<bool>)
    requires UpAndFree(s, t) && s.rec.healthFailures == 0 && NeverThreeBefore(results)
    ensures Runs(s, Rounds(t, results))
    ensures After(s, Rounds(t, results)) ==
            if Streak(results) == 3 then Recorded(s, results).(pcs := s.pcs[t := Replacing], lock := Some(t)) else Recorded(s, results)
    ensures Streak(results) <= 3
    decreases |results|
  {
    if results == [] {
      assert s.pcs[t := Idle] == s.pcs;
    } else {
      var before, last := results[..|results|-1], results[|results|-1];
      forall k | 0 <= k < |before|
        ensures Streak(before[..k]) < 3
      {
        assert before[..k] == results[..k];
      }
      ThirdFailureReplaces(s, t, before);
      assert Streak(results[..|results|-1]) < 3;
      var m := Recorded(s, before);
      OneRound(m, t, last);
      assert m.pcs[t := Idle] == m.pcs;
      RunsConcat(s, Rounds(t, before), Round(t, last));
    }
  }
}
