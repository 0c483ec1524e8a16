/** One running execution from `started` to the release of its slot, as interleaved steps of the pipe
    readers, the drain goroutine, `supervise`, the deadline goroutine, the arbiter goroutine, any number
    of cancel handlers and the log writer
    (internal/runner/execution_launcher.go, terminal_arbiter.go, execution_timeout.go, background_log_writer.go). */
module Supervisor {
  import opened Wrappers
  import opened ExecutionModel
  import opened TerminalArbiter
  import E = EventStore
  import P = ProcessWait

  /** The arbiter goroutine: serving requests (and whether it has seen `finalized` close), between the
      two halves of `publishWinner`, or done. */
  datatype ArbiterPc = Serving(seen: bool) | Transitioned | Done

  /** `supervise`: waiting for the pipes and the process, for the drain goroutine, for the deadline
      goroutine, submitting its own candidates, about to close `finalized`, waiting for the arbiter,
      for the log writer, and finally after `Manager.Complete`. */
  datatype SupervisorPc =
    | Waiting
    | Reaped
    | Stopping
    | Submitting(todo: seq<Candidate>)
    | Awaiting
    | Logging
    | Finished

  datatype TimerPc = Armed | Fired | Won | Over

  datatype State = State(
    exec: Descriptor, log: E.Log,
    produced: seq<E.Chunk>, queued: nat, readersDone: bool, drained: bool, drainFailed: bool,
    finalized: bool, arbiter: ArbiterPc, winner: Option<Candidate>, finalErr: bool,
    timer: TimerPc, kills: set<Reason>, told: set<(Reason, bool)>,
    supervisor: SupervisorPc, active: bool)

  /** What the pipe readers and the wait for the process have told `supervise`, and what the clock says then
      and after the deadline goroutine is gone. */
  datatype End = End(results: seq<P.PipeResult>, waited: P.Waited, elapsed: int, late: int)

  datatype Act =
    | Produce(chunk: E.Chunk)                         // a pipe reader sends a chunk
    | CloseReaders                                    // both readers are done and the channel is closed
    | Drain                                           // the drain goroutine appends the oldest chunk
    | FinishDrain
    | Reap                                            // WaitProcess returned, `reaped` is closed
    | Join                                            // the drain result is in, the deadline is told to stop
    | StopTimer(end: End)                             // the deadline goroutine is gone
    | SubmitOwn                                       // the next candidate of `supervise`
    | Finalize                                        // close(finalized)
    | ArbiterWaited
    | Release                                         // Manager.Complete
    | SubmitOther(candidate: Candidate, heard: bool)  // a cancel handler or the log writer; its context may end
    | SubmitLate(reason: Reason)                      // the same after the arbiter has exited
    | Terminate(reason: Reason)                       // a cancel handler that was told it won
    | Fire                                            // the deadline passes
    | Disarm                                          // the deadline goroutine sees the stop channel
    | SubmitDeadline(duration: nat)
    | KillGroup
    | SeeFinalized
    | TransitionWinner
    | PublishTerminal
    | CloseStore                                      // retention closes the sequencer of a finished execution

  /** The reasons that reach the arbiter of a started execution. */
  predicate Expected(c: Candidate) {
    ValidCandidate(c) && !c.reason.ValidationFailed? && !c.reason.StartFailed?
  }

  predicate CanServe(s: State) {
    s.arbiter.Serving? && !(s.arbiter.seen && s.winner.Some?)
  }

  function Serve(s: State, c: Candidate, heard: bool): State {
    var winner := if s.winner.Some? then s.winner else Some(c);
    s.(winner := winner, told := if heard then s.told + {(c.reason, Decide(winner, c.reason).won)} else s.told)
  }

  predicate Enabled(s: State, a: Act) {
    match a
    case Produce(_) => !s.readersDone
    case CloseReaders => !s.readersDone
    case Drain => s.queued > 0 && s.queued <= |s.produced|
    case FinishDrain => !s.drained && s.readersDone && s.queued == 0
    case Reap => s.supervisor.Waiting? && s.readersDone
    case Join => s.supervisor.Reaped? && s.drained
    case StopTimer(_) => s.supervisor.Stopping? && s.timer.Over?
    case SubmitOwn => s.supervisor.Submitting? && s.supervisor.todo != [] && CanServe(s)
    case Finalize => s.supervisor.Submitting? && s.supervisor.todo == []
    case ArbiterWaited => s.supervisor.Awaiting? && s.arbiter.Done?
    case Release => s.supervisor.Logging?
    case SubmitOther(c, _) => CanServe(s) && Expected(c) && (c.reason.Cancels() || c.reason.InternalFailure?)
    case SubmitLate(_) => s.arbiter.Done?
    case Terminate(reason) => reason.Cancels() && (reason, true) in s.told
    case Fire => s.timer.Armed?
    case Disarm => s.timer.Armed? && s.supervisor.Stopping?
    case SubmitDeadline(_) => s.timer.Fired? && (CanServe(s) || s.arbiter.Done?)
    case KillGroup => s.timer.Won?
    case SeeFinalized => s.finalized && s.arbiter == Serving(false)
    case TransitionWinner => s.arbiter == Serving(true) && s.winner.Some?
    case PublishTerminal => s.arbiter.Transitioned? && s.winner.Some?
    case CloseStore => s.supervisor.Finished?
  }

  function Deadline(duration: nat): Candidate {
    Candidate(DeadlineExceeded, None, "", "", duration)
  }

  /** What `supervise` submits, in this order. */
  function OwnCandidates(drainFailed: bool, end: End): seq<Candidate> {
    var outcome := P.OutcomeOf(end.results, end.waited, end.elapsed);
    (if drainFailed then [InternalFailureCandidate(if end.late < 0 then 0 else end.late)] else [])
    + (if outcome.pipeFailure.Some? then [outcome.pipeFailure.value] else []) + [outcome.wait]
  }

  function Step(s: State, a: Act): State
    requires Enabled(s, a)
  {
    match a
    case Produce(c) => s.(produced := s.produced + [c], queued := s.queued + 1)
    case CloseReaders => s.(readersDone := true)
    case Drain =>
      var (log, ok) := E.OutputAppended(s.log, s.produced[|s.produced| - s.queued], E.Live, E.Live);
      s.(log := log, queued := s.queued - 1, drainFailed := s.drainFailed || !ok)
    case FinishDrain => s.(drained := true)
    case Reap => s.(supervisor := Reaped)
    case Join => s.(supervisor := Stopping)
    case StopTimer(end) => s.(supervisor := Submitting(OwnCandidates(s.drainFailed, end)))
    case SubmitOwn => Serve(s, s.supervisor.todo[0], true).(supervisor := Submitting(s.supervisor.todo[1..]))
    case Finalize => s.(finalized := true, supervisor := Awaiting)
    case ArbiterWaited => s.(supervisor := Logging)
    case Release => s.(supervisor := Finished, active := s.active && !s.exec.state.Terminal())
    case SubmitOther(c, heard) => Serve(s, c, heard)
    case SubmitLate(reason) => s.(told := s.told + {(reason, Decide(s.winner, reason).won)})
    case Terminate(reason) => s.(kills := s.kills + {reason})
    case Fire => s.(timer := Fired)
    case Disarm => s.(timer := Over)
    case SubmitDeadline(d) =>
      var t := if s.arbiter.Done? then s.(told := s.told + {(DeadlineExceeded, Decide(s.winner, DeadlineExceeded).won)})
               else Serve(s, Deadline(d), true);
      t.(timer := if Decide(t.winner, DeadlineExceeded).won then Won else Over)
    case KillGroup => s.(kills := s.kills + {DeadlineExceeded}, timer := Over)
    case SeeFinalized => s.(arbiter := Serving(true))
    case TransitionWinner =>
      var c := s.winner.value;
      if ValidTransition(s.exec.state, TerminalState(c), c.reason, c.exitCode)
      then s.(exec := ExecutionModel.Transitioned(s.exec, TerminalState(c), c.reason, c.exitCode), arbiter := Transitioned)
      else s.(finalErr := true, arbiter := Done)
    case PublishTerminal =>
      var (log, ok) := E.ControlPublished(s.log, TerminalEvent(s.winner.value), E.Live);
      s.(log := log, finalErr := s.finalErr || !ok, arbiter := Done)
    case CloseStore => s.(log := s.log.(open := false))
  }

  /** The state in which `supervise` starts: the launcher has made a fresh execution Running and has published
      `started` in its empty store. */
  function Launched(id: string, max: int): State {
    State(ExecutionModel.Transitioned(FRESH, Running, NoReason, None),
          E.ControlPublished(E.Empty(id, max), E.Draft(E.Started, []), E.Live).0,
          [], 0, false, false, false, false, Serving(false), None, false, Armed, {}, {}, Waiting, true)
  }

  predicate Init(s: State) {
    s.log.id != "" && s.log.max > 0 && s == Launched(s.log.id, s.log.max)
  }

  /** The launcher's own two calls never fail, and lead there. */
  method Launch(execution: Execution, store: E.Store) returns (ok: bool)
    requires execution.View() == FRESH && store.id != "" && store.max > 0 && store.View() == E.Empty(store.id, store.max)
    modifies execution, store
    ensures ok && Init(Launched(store.id, store.max))
    ensures execution.View() == Launched(store.id, store.max).exec && execution.state.Running?
    ensures store.View() == Launched(store.id, store.max).log && |store.events| == 1
  {
    ok := execution.Transition(Running, NoReason, None);
    if !ok {
      return;
    }
    ok := store.PublishControl(E.Draft(E.Started, []), E.Live);
    assert store.View() == Launched(store.id, store.max).log;
    E.StartedAccounts(store.id, store.max);
  }

  // ---------- Invariant ----------

  function Appended(s: State): seq<E.Chunk> {
    if s.queued <= |s.produced| then s.produced[..|s.produced| - s.queued] else []
  }

  /** The descriptor the winner leads to. */
  function Final(c: Candidate): Descriptor {
    Descriptor(TerminalState(c), c.reason, c.exitCode)
  }

  /** One winner, and everybody who was told anything was told the truth about it. */
  predicate WinnerInv(s: State) {
    && (s.winner.Some? ==> Expected(s.winner.value))
    && (forall t :: t in s.told ==> s.winner.Some? && t.1 == (s.winner.value.reason == t.0))
    && (forall r :: r in s.kills ==> s.winner.Some? && s.winner.value.reason == r)
    && (s.timer.Won? ==> s.winner.Some? && s.winner.value.reason.DeadlineExceeded?)
    && (s.winner.Some? && s.winner.value.reason.DeadlineExceeded? ==> s.timer.Won? || DeadlineExceeded in s.kills)
  }

  /** The order in which `supervise` and the arbiter may be where they are. */
  predicate PhaseInv(s: State) {
    && s.queued <= |s.produced|
    && !s.drainFailed && !s.finalErr
    && (s.drained ==> s.readersDone && s.queued == 0)
    && (!s.supervisor.Waiting? && !s.supervisor.Reaped? ==> s.drained)
    && (!s.supervisor.Waiting? && !s.supervisor.Reaped? && !s.supervisor.Stopping? ==> s.timer.Over?)
    && (s.supervisor.Submitting? ==>
          && (forall c :: c in s.supervisor.todo ==> Own(c))
          && (s.supervisor.todo != [] || s.winner.Some?))
    && (s.finalized <==> s.supervisor.Awaiting? || s.supervisor.Logging? || s.supervisor.Finished?)
    && (s.finalized ==> s.winner.Some?)
    && (s.arbiter != Serving(false) ==> s.finalized)
    && (s.supervisor.Logging? || s.supervisor.Finished? ==> s.arbiter.Done?)
    && (s.active <==> !s.supervisor.Finished?)
    && (s.log.open || s.supervisor.Finished?)
  }

  /** What is stored, in each phase of the arbiter. */
  ghost predicate LogInv(s: State) {
    && E.Accounts(s.log, Appended(s))
    && match s.arbiter
       case Serving(_) => s.exec == Descriptor(Running, NoReason, None) && !s.log.terminal
       case Transitioned => s.winner.Some? && s.exec == Final(s.winner.value) && !s.log.terminal
       case Done => && s.winner.Some? && s.exec == Final(s.winner.value) && s.log.terminal
                    && E.Terminal(s.log, EventKind(s.winner.value))
                    && Tells(s.log.events[|s.log.events|-1], s.exec, s.winner.value)
  }

  ghost predicate Inv(s: State) {
    WinnerInv(s) && PhaseInv(s) && LogInv(s)
  }

  lemma InitInv(s: State)
    requires Init(s)
    ensures Inv(s)
  {
    E.StartedAccounts(s.log.id, s.log.max);
  }

  predicate TouchesLog(a: Act) {
    a.Produce? || a.Drain? || a.TransitionWinner? || a.PublishTerminal? || a.CloseStore?
  }

  /** Steps that neither touch the log nor decide what `supervise` submits. */
  predicate Quiet(a: Act) {
    !TouchesLog(a) && !a.StopTimer?
  }

  predicate Own(c: Candidate) {
    Expected(c) && (c.reason.ProcessExited? || c.reason.InternalFailure?)
  }

  lemma OwnCandidatesAreOwn(drainFailed: bool, end: End)
    ensures OwnCandidates(drainFailed, end) != [] && forall c :: c in OwnCandidates(drainFailed, end) ==> Own(c)
  {
    P.OutcomesAreValid(end.results, end.waited, end.elapsed);
  }

  lemma StopTimerInv(s: State, a: Act)
    requires Inv(s) && Enabled(s, a) && a.StopTimer?
    ensures Inv(Step(s, a))
  {
    OwnCandidatesAreOwn(s.drainFailed, a.end);
    assert Appended(Step(s, a)) == Appended(s);
  }

  /** Steps in which the arbiter answers someone. */
  predicate Asks(a: Act) {
    a.SubmitOther? || a.SubmitLate? || a.SubmitDeadline? || a.SubmitOwn?
  }

  lemma AskedWinnerInv(s: State, a: Act)
    requires WinnerInv(s) && PhaseInv(s) && Enabled(s, a) && Asks(a)
    ensures WinnerInv(Step(s, a))
  {
    assert a.SubmitOwn? ==> Own(s.supervisor.todo[0]);
  }

  lemma QuietWinnerInv(s: State, a: Act)
    requires WinnerInv(s) && PhaseInv(s) && Enabled(s, a) && Quiet(a)
    ensures WinnerInv(Step(s, a))
  {
    if Asks(a) {
      AskedWinnerInv(s, a);
    }
  }

  lemma QuietPhaseInv(s: State, a: Act)
    requires WinnerInv(s) && PhaseInv(s) && Enabled(s, a) && Quiet(a)
    requires s.arbiter.Done? ==> s.exec.state.Terminal()
    ensures PhaseInv(Step(s, a))
  {
  }

  lemma QuietStepInv(s: State, a: Act)
    requires Inv(s) && Enabled(s, a) && Quiet(a)
    ensures Inv(Step(s, a))
  {
    var s' := Step(s, a);
    assert s'.log == s.log && s'.exec == s.exec && Appended(s') == Appended(s);
    QuietWinnerInv(s, a);
    QuietPhaseInv(s, a);
  }

  lemma ProduceInv(s: State, a: Act)
    requires Inv(s) && Enabled(s, a) && a.Produce?
    ensures Inv(Step(s, a))
  {
    assert Appended(Step(s, a)) == Appended(s);
  }

  /** A state that differs by one more accounted chunk. */
  lemma DrainedInv(s: State, log: E.Log)
    requires Inv(s) && 0 < s.queued <= |s.produced|
    requires E.Accounts(log, Appended(s) + [s.produced[|s.produced| - s.queued]]) && log.open && !log.terminal
    requires s.log.open && !s.log.terminal && s.arbiter.Serving?
    ensures Inv(s.(log := log, queued := s.queued - 1))
  {
    var s' := s.(log := log, queued := s.queued - 1);
    assert Appended(s') == Appended(s) + [s.produced[|s.produced| - s.queued]];
  }

  /** While chunks are queued nothing is finalized, so the store is live. */
  lemma QueuedIsLive(s: State)
    requires Inv(s) && 0 < s.queued
    ensures s.log.open && !s.log.terminal && s.arbiter.Serving?
  {
  }

  function OldestQueued(s: State): E.Chunk
    requires 0 < s.queued <= |s.produced|
  {
    s.produced[|s.produced| - s.queued]
  }

  lemma DrainLog(s: State) returns (log: E.Log)
    requires Inv(s) && 0 < s.queued
    ensures E.OutputAppended(s.log, OldestQueued(s), E.Live, E.Live) == (log, true)
    ensures E.Accounts(log, Appended(s) + [OldestQueued(s)]) && s.log.events <= log.events && log.open && !log.terminal
  {
    QueuedIsLive(s);
    E.AppendAccounts(s.log, Appended(s), OldestQueued(s));
    log := E.OutputAppended(s.log, OldestQueued(s), E.Live, E.Live).0;
  }

  lemma DrainStep(s: State, a: Act, log: E.Log)
    requires Enabled(s, a) && a.Drain? && E.OutputAppended(s.log, OldestQueued(s), E.Live, E.Live) == (log, true)
    ensures Step(s, a) == s.(log := log, queued := s.queued - 1)
  {
  }

  lemma DrainInv(s: State, a: Act)
    requires Inv(s) && Enabled(s, a) && a.Drain?
    ensures Inv(Step(s, a)) && s.log.events <= Step(s, a).log.events
  {
    var log := DrainLog(s);
    DrainStep(s, a, log);
    QueuedIsLive(s);
    DrainedInv(s, log);
  }

  lemma PublishInv(s: State, a: Act)
    requires Inv(s) && Enabled(s, a) && a.PublishTerminal?
    ensures Inv(Step(s, a)) && s.log.events <= Step(s, a).log.events
  {
    assert Appended(Step(s, a)) == Appended(s);
    TerminalEventIsDraft(s.winner.value);
    E.TerminalAccounts(s.log, Appended(s), TerminalEvent(s.winner.value));
  }

  lemma TransitionInv(s: State, a: Act)
    requires Inv(s) && Enabled(s, a) && a.TransitionWinner?
    ensures Inv(Step(s, a)) && Step(s, a).arbiter.Transitioned? && Step(s, a).log == s.log
  {
    assert Appended(Step(s, a)) == Appended(s);
  }

  lemma CloseInv(s: State, a: Act)
    requires Inv(s) && Enabled(s, a) && a.CloseStore?
    ensures Inv(Step(s, a)) && Step(s, a).log.events == s.log.events
  {
    assert Appended(Step(s, a)) == Appended(s);
    E.ClosedAccounts(s.log, Appended(s));
  }

  lemma StepInv(s: State, a: Act)
    requires Inv(s) && Enabled(s, a)
    ensures Inv(Step(s, a))
  {
    if Quiet(a) {
      QuietStepInv(s, a);
    } else if a.StopTimer? {
      StopTimerInv(s, a);
    } else if a.Produce? {
      ProduceInv(s, a);
    } else if a.Drain? {
      DrainInv(s, a);
    } else if a.PublishTerminal? {
      PublishInv(s, a);
    } else if a.TransitionWinner? {
      TransitionInv(s, a);
    } else {
      CloseInv(s, a);
    }
  }

  /** What a step may never take back. */
  predicate Extends(s: State, s': State) {
    && (s.winner.Some? ==> s'.winner == s.winner)
    && s.told <= s'.told && s.kills <= s'.kills
    && s.log.events <= s'.log.events
    && s.produced <= s'.produced
    && (s.exec.state.Terminal() ==> s'.exec == s.exec)
    && (s.finalized ==> s'.finalized)
    && (!s.active ==> !s'.active)
  }

  lemma StepExtends(s: State, a: Act)
    requires Inv(s) && Enabled(s, a)
    ensures Extends(s, Step(s, a))
  {
    if a.Drain? {
      DrainInv(s, a);
    } else if a.PublishTerminal? {
      PublishInv(s, a);
    } else if a.TransitionWinner? {
      TransitionInv(s, a);
    } else if a.CloseStore? {
      CloseInv(s, a);
    }
  }

  // ---------- Runs ----------

  predicate Runs(s: State, acts: seq<Act>)
    decreases acts
  {
    acts != [] ==> Enabled(s, acts[0]) && Runs(Step(s, acts[0]), acts[1..])
  }

  function After(s: State, acts: seq<Act>): State
    requires Runs(s, acts)
    decreases acts
  {
    if acts == [] then s else After(Step(s, acts[0]), acts[1..])
  }

  lemma {:induction false} RunInv(s: State, acts: seq<Act>)
    requires Inv(s) && Runs(s, acts)
    ensures Inv(After(s, acts)) && Extends(s, After(s, acts))
    decreases acts
  {
    if acts != [] {
      StepInv(s, acts[0]);
      StepExtends(s, acts[0]);
      RunInv(Step(s, acts[0]), acts[1..]);
    }
  }

  /** What every reachable state guarantees. */
  ghost predicate Safe(s: State) {
    && s.log.max > 0
    // only the winner's reason was ever told that it won, and only the winner killed the group
    && (forall t :: t in s.told ==> s.winner.Some? && (t.1 <==> t.0 == s.winner.value.reason))
    && (forall r :: r in s.kills ==> s.winner.Some? && r == s.winner.value.reason)
    // the group of an execution that has timed out has been killed
    && (s.exec.state.TimedOut? ==> DeadlineExceeded in s.kills)
    // at most one terminal event, and it is the last one
    && (forall i :: 0 <= i < |s.log.events| && s.log.events[i].kind.Terminal() ==> i == |s.log.events| - 1)
    // nothing terminal is visible before finalization
    && (!s.finalized ==> !s.exec.state.Terminal() && !s.log.terminal)
    // sequence numbers are contiguous from one
    && (forall i :: 0 <= i < |s.log.events| ==> s.log.events[i].sequence == i + 1)
    // a terminal event comes after all output was drained, and tells the state and the truncation
    && (s.log.terminal ==>
          && s.readersDone && s.winner.Some? && s.exec == Final(s.winner.value) && |s.log.events| > 0
          && Agree(s.exec.state, s.log.events[|s.log.events|-1].kind)
          && Tells(s.log.events[|s.log.events|-1], s.exec, s.winner.value)
          && s.log.events[|s.log.events|-1].truncated == Some(|E.Bytes(s.produced)| > s.log.max)
          && E.Bytes(E.Pieces(s.log.events)) ==
             E.Bytes(s.produced)[..if |E.Bytes(s.produced)| < s.log.max then |E.Bytes(s.produced)| else s.log.max])
    // the slot is only given back after the terminal event
    && (!s.active ==> s.log.terminal && s.exec.state.Terminal())
  }

  lemma InvSafe(s: State)
    requires Inv(s)
    ensures Safe(s)
  {
    if s.log.terminal {
      assert Appended(s) == s.produced;
      E.KeptIsPrefix(s.produced, s.log.max);
    }
  }

  /** Safety of every interleaving: from `started` on, every reachable state is safe, and whatever the
      prefix of a run has decided, stored or published the rest of the run keeps. */
  lemma EveryInterleavingIsSafe(s: State, past: seq<Act>, future: seq<Act>)
    requires Init(s) && Runs(s, past) && Runs(After(s, past), future)
    ensures Safe(After(s, past)) && Safe(After(After(s, past), future))
    ensures Extends(After(s, past), After(After(s, past), future))
  {
    InitInv(s);
    RunInv(s, past);
    RunInv(After(s, past), future);
    InvSafe(After(s, past));
    InvSafe(After(After(s, past), future));
  }

  // ---------- Termination ----------

  /** Steps other threads may take without moving the execution towards its end. */
  predicate Outside(a: Act) {
    a.SubmitOther? || a.SubmitLate? || a.Terminate? || a.CloseStore? || a.Produce? || a.CloseReaders?
  }

  function SupervisorRank(pc: SupervisorPc): nat {
    match pc
    case Waiting => 10
    case Reaped => 9
    case Stopping => 8
    case Submitting(todo) => 3 + |todo|
    case Awaiting => 2
    case Logging => 1
    case Finished => 0
  }

  function ArbiterRank(pc: ArbiterPc): nat {
    match pc
    case Serving(seen) => if seen then 2 else 3
    case Transitioned => 1
    case Done => 0
  }

  function TimerRank(pc: TimerPc): nat {
    match pc
    case Armed => 3
    case Fired => 2
    case Won => 1
    case Over => 0
  }

  function Rank(s: State): nat {
    s.queued + (if s.drained then 0 else 1) + SupervisorRank(s.supervisor) + ArbiterRank(s.arbiter) + TimerRank(s.timer)
  }

  /** A step that some goroutine of this execution can always take once the pipes are closed. */
  function Next(s: State): Act
    requires PhaseInv(s) && s.readersDone && !s.supervisor.Finished?
    ensures Enabled(s, Next(s)) && !Outside(Next(s))
  {
    if s.queued > 0 then Drain
    else if !s.drained then FinishDrain
    else if s.arbiter == Serving(false) && s.finalized then SeeFinalized
    else if s.arbiter == Serving(true) then TransitionWinner
    else if s.arbiter.Transitioned? then PublishTerminal
    else
      match s.supervisor
      case Waiting => Reap
      case Reaped => Join
      case Stopping =>
        (match s.timer
         case Armed => Disarm
         case Fired => SubmitDeadline(0)
         case Won => KillGroup
         case Over => StopTimer(End([], P.OtherError, 0, 0)))
      case Submitting(todo) => if todo == [] then Finalize else SubmitOwn
      case Awaiting => ArbiterWaited
      case Logging => Release
  }

  lemma LogStepsLowerTheRank(s: State, a: Act)
    requires WinnerInv(s) && PhaseInv(s) && s.readersDone && Enabled(s, a) && (a.Drain? || a.TransitionWinner? || a.PublishTerminal?)
    ensures Rank(Step(s, a)) < Rank(s) && Step(s, a).readersDone
  {
  }

  lemma AskingLowersTheRank(s: State, a: Act)
    requires WinnerInv(s) && PhaseInv(s) && s.readersDone && Enabled(s, a) && Asks(a)
    ensures !Outside(a) ==> Rank(Step(s, a)) < Rank(s)
    ensures Outside(a) ==> Rank(Step(s, a)) == Rank(s)
    ensures Step(s, a).readersDone
  {
  }

  /** Once the pipes have closed every step of the execution's own goroutines strictly lowers the rank
      and no other step raises it. */
  lemma OwnStepsLowerTheRank(s: State, a: Act)
    requires WinnerInv(s) && PhaseInv(s) && s.readersDone && Enabled(s, a)
    ensures !Outside(a) ==> Rank(Step(s, a)) < Rank(s)
    ensures Outside(a) ==> Rank(Step(s, a)) == Rank(s)
    ensures Step(s, a).readersDone
  {
    if a.Drain? || a.TransitionWinner? || a.PublishTerminal? {
      LogStepsLowerTheRank(s, a);
    } else if Asks(a) {
      AskingLowersTheRank(s, a);
    }
  }

  function OwnSteps(acts: seq<Act>): nat
    decreases acts
  {
    if acts == [] then 0 else (if Outside(acts[0]) then 0 else 1) + OwnSteps(acts[1..])
  }

  lemma {:induction false} OwnStepsAreBounded(s: State, acts: seq<Act>)
    requires Inv(s) && s.readersDone && Runs(s, acts)
    ensures OwnSteps(acts) + Rank(After(s, acts)) <= Rank(s) && After(s, acts).readersDone
    decreases acts
  {
    if acts != [] {
      OwnStepsLowerTheRank(s, acts[0]);
      StepInv(s, acts[0]);
      OwnStepsAreBounded(Step(s, acts[0]), acts[1..]);
    }
  }

  lemma NextKeeps(s: State) returns (a: Act)
    requires Inv(s) && s.readersDone && !s.supervisor.Finished?
    ensures Enabled(s, a) && !Outside(a)
    ensures Inv(Step(s, a)) && Step(s, a).readersDone && Rank(Step(s, a)) < Rank(s)
  {
    a := Next(s);
    StepInv(s, a);
    OwnStepsLowerTheRank(s, a);
  }

  lemma RunsFirst(s: State, a: Act, rest: seq<Act>)
    requires Enabled(s, a) && Runs(Step(s, a), rest)
    ensures Runs(s, [a] + rest) && After(s, [a] + rest) == After(Step(s, a), rest)
    ensures OwnSteps([a] + rest) == (if Outside(a) then 0 else 1) + OwnSteps(rest)
  {
    assert ([a] + rest)[1..] == rest;
  }

  /** The slot has been given back, after the terminal event. */
  predicate IsReleased(s: State) {
    s.supervisor.Finished? && !s.active && s.exec.state.Terminal() && s.log.terminal
  }

  lemma FinishedIsReleased(s: State)
    requires Inv(s) && s.supervisor.Finished?
    ensures IsReleased(s)
  {
    InvSafe(s);
  }

  /** A schedule of own steps that gives the slot back. */
  predicate Releases(s: State, acts: seq<Act>) {
    Runs(s, acts) && |acts| == OwnSteps(acts) && IsReleased(After(s, acts))
  }

  lemma ReleasesFirst(s: State, a: Act, rest: seq<Act>)
    requires Enabled(s, a) && !Outside(a) && Releases(Step(s, a), rest)
    ensures Releases(s, [a] + rest)
  {
    RunsFirst(s, a, rest);
  }

  /** `Next`, followed to the end. */
  lemma {:induction false} Finishing(s: State) returns (acts: seq<Act>)
    requires Inv(s) && s.readersDone
    ensures Releases(s, acts) && |acts| <= Rank(s)
    decreases Rank(s)
  {
    if s.supervisor.Finished? {
      FinishedIsReleased(s);
      acts := [];
    } else {
      var a := NextKeeps(s);
      var rest := Finishing(Step(s, a));
      ReleasesFirst(s, a, rest);
      acts := [a] + rest;
    }
  }

  /** A step that only this execution's own goroutines take. */
  predicate OwnStepEnabled(s: State, a: Act) {
    Enabled(s, a) && !Outside(a)
  }

  /** The slot is released in the end. From any reachable state in which the pipes are closed some schedule of at
      most `Rank` own steps leads to the release, no schedule at all has more own steps than that, and one
      after which no own step is left has released the slot. */
  lemma ExecutionEnds(s: State, past: seq<Act>, acts: seq<Act>)
    requires Init(s) && Runs(s, past) && After(s, past).readersDone && Runs(After(s, past), acts)
    ensures var m := After(s, past);
            && (exists finishing :: Releases(m, finishing) && |finishing| <= Rank(m))
            && OwnSteps(acts) <= Rank(m)
            && ((forall a :: !OwnStepEnabled(After(m, acts), a)) ==> IsReleased(After(m, acts)))
  {
    InitInv(s);
    RunInv(s, past);
    var m := After(s, past);
    var finishing := Finishing(m);
    assert Releases(m, finishing);
    OwnStepsAreBounded(m, acts);
    RunInv(m, acts);
    QuietIsReleased(After(m, acts));
  }

  lemma QuietIsReleased(s: State)
    requires Inv(s) && s.readersDone
    ensures (forall a :: !OwnStepEnabled(s, a)) ==> IsReleased(s)
  {
    if s.supervisor.Finished? {
      FinishedIsReleased(s);
    } else {
      assert OwnStepEnabled(s, Next(s));
    }
  }

  // ---------- What the launcher never runs into ----------

  predicate NothingFailed(s: State) {
    && !s.drainFailed && !s.finalErr && !s.exec.state.Pending? && E.Numbered(s.log)
    && (s.arbiter.Done? ==> s.log.terminal && s.exec.state.Terminal())
  }

  lemma InvNothingFailed(s: State)
    requires Inv(s)
    ensures NothingFailed(s)
  {
  }

  /** In no run does publication fail or a sequence number get lost: the launcher publishes with a context that
      never ends, and nobody can cancel before `started` is published. */
  lemma PublicationNeverFails(s: State, acts: seq<Act>)
    requires Init(s) && Runs(s, acts)
    ensures NothingFailed(After(s, acts))
  {
    InitInv(s);
    RunInv(s, acts);
    InvNothingFailed(After(s, acts));
  }
}
