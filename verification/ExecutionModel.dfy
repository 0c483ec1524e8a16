/** The runner's execution state machine and the terminal candidates that compete for it
    (internal/runner/execution_model.go, internal/runner/terminal_arbiter.go). */
module ExecutionModel {
  import opened Wrappers

  datatype ExecutionState = Pending | Running | Exited | Failed | Cancelled | TimedOut {
    predicate Terminal() { !Pending? && !Running? }
  }

  datatype Reason =
    | NoReason
    | ValidationFailed
    | StartFailed
    | ProcessExited
    | ExplicitCancel
    | ForegroundDisconnect
    | DeadlineExceeded
    | RunnerShutdown
    | InternalFailure
  {
    predicate Cancels() { ExplicitCancel? || ForegroundDisconnect? || RunnerShutdown? }
    predicate Fails() { ValidationFailed? || StartFailed? || InternalFailure? }
  }

  /** What `Descriptor` exposes; the ID and creation time never change and are not repeated here. */
  datatype Descriptor = Descriptor(state: ExecutionState, reason: Reason, exitCode: Option<int>)

  const FRESH := Descriptor(Pending, NoReason, None)

  predicate ValidTransition(current: ExecutionState, next: ExecutionState, reason: Reason, exitCode: Option<int>) {
    match (current, next)
    case (Pending, Running) => reason.NoReason? && exitCode.None?
    case (Pending, Failed) => reason.Fails() && exitCode.None?
    case (Pending, Cancelled) => reason.Cancels() && exitCode.None?
    case (Running, Exited) => reason.ProcessExited? && exitCode.Some?
    case (Running, Cancelled) => reason.Cancels() && exitCode.None?
    case (Running, TimedOut) => reason.DeadlineExceeded? && exitCode.None?
    case (Running, Failed) => reason.InternalFailure? && exitCode.None?
    case _ => false
  }

  /** The state after `Transition`, which changes nothing when it refuses. */
  function Transitioned(d: Descriptor, next: ExecutionState, reason: Reason, exitCode: Option<int>): Descriptor {
    if !ValidTransition(d.state, next, reason, exitCode) then d
    else Descriptor(next, reason, if exitCode.Some? then exitCode else d.exitCode)
  }

  /** Terminal states carry exactly the metadata the wire format promises for them. */
  predicate Coherent(d: Descriptor) {
    match d.state
    case Pending => d.reason.NoReason? && d.exitCode.None?
    case Running => d.reason.NoReason? && d.exitCode.None?
    case Exited => d.reason.ProcessExited? && d.exitCode.Some?
    case Failed => d.reason.Fails() && d.exitCode.None?
    case Cancelled => d.reason.Cancels() && d.exitCode.None?
    case TimedOut => d.reason.DeadlineExceeded? && d.exitCode.None?
  }

  class Execution {
    var state: ExecutionState
    var terminationReason: Reason
    var exitCode: Option<int>

    function View(): Descriptor
      reads this
    {
      Descriptor(state, terminationReason, exitCode)
    }

    constructor ()
      ensures View() == FRESH
    {
      state, terminationReason, exitCode := Pending, NoReason, None;
    }

    method Transition(next: ExecutionState, reason: Reason, code: Option<int>) returns (ok: bool)
      modifies this
      ensures ok == ValidTransition(old(state), next, reason, code)
      ensures View() == Transitioned(old(View()), next, reason, code)
    {
      if !ValidTransition(state, next, reason, code) {
        return false;
      }
      state := next;
      terminationReason := reason;
      if code.Some? {
        exitCode := code;
      }
      return true;
    }
  }

  /** A transition request, so that whole histories can be quantified over. */
  datatype Request = Request(next: ExecutionState, reason: Reason, exitCode: Option<int>)

  function AfterRequests(d: Descriptor, rs: seq<Request>): Descriptor
    decreases rs
  {
    if rs == [] then d
    else AfterRequests(Transitioned(d, rs[0].next, rs[0].reason, rs[0].exitCode), rs[1..])
  }

  /** Over every history of requests the metadata stays coherent, a terminal state is never
      left or rewritten, and Running is never taken back to Pending. */
  lemma {:induction false} TransitionsAreSafe(d: Descriptor, rs: seq<Request>)
    requires Coherent(d)
    ensures Coherent(AfterRequests(d, rs))
    ensures d.state.Terminal() ==> AfterRequests(d, rs) == d
    ensures d.state.Running? ==> !AfterRequests(d, rs).state.Pending?
    decreases rs
  {
    if rs != [] {
      var d' := Transitioned(d, rs[0].next, rs[0].reason, rs[0].exitCode);
      TransitionsAreSafe(d', rs[1..]);
    }
  }

  /** The exact set of accepted requests, without the table: of a coherent descriptor every request is accepted that
      leads to another coherent one, except that nothing leads back to Pending or out of a terminal state, that
      nothing which has not run can exit or time out, and that what runs can neither start again nor fail to start. */
  lemma AcceptedExactly(d: Descriptor, q: Request)
    requires Coherent(d)
    ensures ValidTransition(d.state, q.next, q.reason, q.exitCode) <==>
            && Coherent(Descriptor(q.next, q.reason, q.exitCode))
            && !q.next.Pending? && !d.state.Terminal()
            && (d.state.Pending? ==> !q.next.Exited? && !q.next.TimedOut?)
            && (d.state.Running? ==> !q.next.Running? && !q.reason.ValidationFailed? && !q.reason.StartFailed?)
  {
  }

  predicate LeadsTo(rs: seq<Request>, d: Descriptor) {
    AfterRequests(FRESH, rs) == d
  }

  /** Hence the requests lead from a fresh execution to exactly the coherent descriptors. */
  lemma {:induction false} ReachableExactly(d: Descriptor)
    ensures (exists rs :: LeadsTo(rs, d)) <==> Coherent(d)
  {
    if Coherent(d) {
      var run := Request(Running, NoReason, None);
      var last := Request(d.state, d.reason, d.exitCode);
      assert [run, last][1..] == [last] && [last][1..] == [];
      if d == FRESH {
        assert LeadsTo([], d);
      } else if d.state.Exited? || d.state.TimedOut? {
        assert AfterRequests(Descriptor(Running, NoReason, None), [last]) == d;
        assert LeadsTo([run, last], d);
      } else {
        assert LeadsTo([last], d);
      }
    } else if rs :| LeadsTo(rs, d) {
      TransitionsAreSafe(FRESH, rs);
    }
  }

  /** A terminal candidate; `duration` is in nanoseconds. */
  datatype Candidate = Candidate(reason: Reason, exitCode: Option<int>, errorCode: string, message: string, duration: int)

  predicate ValidCandidate(c: Candidate) {
    && c.duration >= 0
    && match c.reason
       case ProcessExited => c.exitCode.Some? && c.errorCode == "" && c.message == ""
       case ValidationFailed => c.exitCode.None? && c.errorCode != "" && c.message != ""
       case StartFailed => c.exitCode.None? && c.errorCode != "" && c.message != ""
       case InternalFailure => c.exitCode.None? && c.errorCode != "" && c.message != ""
       case ExplicitCancel => c.exitCode.None? && c.errorCode == "" && c.message == ""
       case ForegroundDisconnect => c.exitCode.None? && c.errorCode == "" && c.message == ""
       case DeadlineExceeded => c.exitCode.None? && c.errorCode == "" && c.message == ""
       case RunnerShutdown => c.exitCode.None? && c.errorCode == "" && c.message == ""
       case NoReason => false
  }

  function TerminalState(c: Candidate): ExecutionState {
    match c.reason
    case ProcessExited => Exited
    case DeadlineExceeded => TimedOut
    case ExplicitCancel => Cancelled
    case ForegroundDisconnect => Cancelled
    case RunnerShutdown => Cancelled
    case _ => Failed
  }

  function InternalFailureCandidate(duration: int): Candidate {
    Candidate(InternalFailure, None, "INTERNAL_ERROR", "execution failed", duration)
  }

  /** Exactly which validated winners the state machine accepts: a Running execution refuses only
      the two start-up failures, a Pending one only an exit code or a deadline. */
  lemma WinnerAcceptedExactly(d: Descriptor, c: Candidate)
    requires ValidCandidate(c)
    ensures ValidTransition(d.state, TerminalState(c), c.reason, c.exitCode) <==>
            || (d.state.Running? && !c.reason.ValidationFailed? && !c.reason.StartFailed?)
            || (d.state.Pending? && !c.reason.ProcessExited? && !c.reason.DeadlineExceeded?)
  {
  }
}
