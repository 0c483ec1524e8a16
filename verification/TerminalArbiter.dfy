/** First-wins arbitration of one execution's terminal candidates and the publication of the winner
    (internal/runner/terminal_arbiter.go). */
module TerminalArbiter {
  import opened Wrappers
  import opened ExecutionModel
  import EventStore

  datatype Decision = Decision(won: bool, winner: Reason)

  /** The arbiter's answer to a reason once a winner is locked. */
  function Decide(winner: Option<Candidate>, reason: Reason): Decision {
    if winner.None? then Decision(false, NoReason) else Decision(winner.value.reason == reason, winner.value.reason)
  }

  function EventKind(c: Candidate): EventStore.Kind {
    match c.reason
    case ProcessExited => EventStore.Exited
    case DeadlineExceeded => EventStore.TimedOut
    case ExplicitCancel => EventStore.Cancelled
    case ForegroundDisconnect => EventStore.Cancelled
    case RunnerShutdown => EventStore.Cancelled
    case _ => EventStore.Failed
  }

  /** The event half of `terminalStateAndEvent`; milliseconds truncate the non-negative duration. */
  function TerminalEvent(c: Candidate): EventStore.Event {
    var kind := EventKind(c);
    EventStore.Event("", 0, kind, [], if kind.Exited? then c.exitCode else None, Some(c.duration / 1_000_000), None,
                     if kind.Failed? then c.errorCode else "", if kind.Failed? then c.message else "")
  }

  lemma TerminalEventIsDraft(c: Candidate)
    requires ValidCandidate(c)
    ensures EventStore.TerminalDraft(TerminalEvent(c))
  {
    assert c.duration / 1_000_000 >= 0;
  }

  /** The kind of the terminal event and the terminal state always name the same outcome. */
  predicate Agree(state: ExecutionState, kind: EventStore.Kind) {
    match kind
    case Exited => state.Exited?
    case Failed => state.Failed?
    case Cancelled => state.Cancelled?
    case TimedOut => state.TimedOut?
    case _ => false
  }

  /** The event repeats the exit code of the descriptor, the candidate's error and message, and its duration in
      whole milliseconds. */
  predicate Tells(e: EventStore.Event, d: Descriptor, c: Candidate) {
    && e.exitCode == d.exitCode && e.errorCode == c.errorCode && e.message == c.message
    && e.durationMs.Some? && e.durationMs.value * 1_000_000 <= c.duration < (e.durationMs.value + 1) * 1_000_000
  }

  /** `publishWinner` on values: the descriptor, the store, and whether both halves succeeded. */
  function WinnerPublished(d: Descriptor, s: EventStore.Log, c: Candidate): (Descriptor, EventStore.Log, bool) {
    if !ValidTransition(d.state, TerminalState(c), c.reason, c.exitCode) then (d, s, false)
    else
      var (s', ok) := EventStore.ControlPublished(s, TerminalEvent(c), EventStore.Live);
      (Transitioned(d, TerminalState(c), c.reason, c.exitCode), s', ok)
  }

  class Arbiter {
    const execution: Execution
    const store: EventStore.Store
    var winner: Option<Candidate>
    var finalErr: bool

    constructor (execution: Execution, store: EventStore.Store)
      ensures this.execution == execution && this.store == store
      ensures winner.None? && !finalErr
    {
      this.execution, this.store := execution, store;
      winner, finalErr := None, false;
    }

    /** One served request: the first candidate is locked, every later one only learns the winner. */
    method Serve(candidate: Candidate) returns (d: Decision)
      modifies this`winner
      ensures winner == (if old(winner).Some? then old(winner) else Some(candidate))
      ensures d == Decide(winner, candidate.reason)
    {
      if winner.None? {
        winner := Some(candidate);
      }
      d := Decision(winner.value.reason == candidate.reason, winner.value.reason);
    }

    method PublishWinner()
      requires winner.Some?
      modifies this`finalErr, execution, store
      ensures var (d, s, ok) := WinnerPublished(old(execution.View()), old(store.View()), winner.value);
              execution.View() == d && store.View() == s && finalErr == (old(finalErr) || !ok)
    {
      var c := winner.value;
      var ok := execution.Transition(TerminalState(c), c.reason, c.exitCode);
      if !ok {
        finalErr := true;
        return;
      }
      ok := store.PublishControl(TerminalEvent(c), EventStore.Live);
      if !ok {
        finalErr := true;
      }
    }
  }

  /** Publication puts a terminal event into the store exactly when the winner fits the state the
      execution is in and, unless it is a failure, something has been published before it. A cancel
      that wins over an execution whose `started` was never published therefore ends the execution
      without any terminal event. */
  lemma PublishesExactly(d: Descriptor, s: EventStore.Log, c: Candidate)
    requires ValidCandidate(c) && Coherent(d)
    requires EventStore.Numbered(s) && s.id != "" && s.open && !s.terminal
    ensures WinnerPublished(d, s, c).2 <==>
            && (|| (d.state.Running? && !c.reason.ValidationFailed? && !c.reason.StartFailed?)
                || (d.state.Pending? && !c.reason.ProcessExited? && !c.reason.DeadlineExceeded?))
            && (|s.events| > 0 || c.reason.Fails())
    ensures var (d', s', ok) := WinnerPublished(d, s, c);
            ok ==> d'.state == TerminalState(c) && d'.reason == c.reason && Coherent(d') && s'.terminal &&
                   Agree(d'.state, s'.events[|s'.events|-1].kind) && Tells(s'.events[|s'.events|-1], d', c)
  {
    TerminalEventIsDraft(c);
    var e := TerminalEvent(c).(truncated := Some(s.outputTruncated));
    assert EventStore.ValidEvent(e.(executionId := s.id, sequence := |s.events| + 1));
    assert EventStore.Sequenced(s.id, |s.events| + 1, e).Some? <==> (|s.events| > 0 || c.reason.Fails());
  }

  /** The only ending the launcher gives an execution that never started, a failure, always has its event. */
  lemma PendingFailureHasItsEvent(id: string, max: int, c: Candidate)
    requires id != "" && max > 0 && ValidCandidate(c) && c.reason.Fails()
    ensures var (d, s, ok) := WinnerPublished(FRESH, EventStore.Empty(id, max), c);
            ok && d.state.Failed? && s.terminal && |s.events| == 1 && s.events[0].sequence == 1 && s.events[0].kind.Failed?
  {
    PublishesExactly(FRESH, EventStore.Empty(id, max), c);
  }

  /** The case just described, as a concrete run: cancel wins over a fresh execution. */
  lemma PendingCancelLosesItsEvent()
    ensures var c := Candidate(ExplicitCancel, None, "", "", 0);
            var (d, s, ok) := WinnerPublished(FRESH, EventStore.Empty("exec_1", 1), c);
            !ok && d.state.Cancelled? && s.events == []
  {
  }
}
