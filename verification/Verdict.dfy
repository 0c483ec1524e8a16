/** What the steps of a run add up to: who wins, who is told, and how the execution is reported in the end
    (internal/runner/execution_launcher.go:212-251, internal/runner/terminal_arbiter.go:114-159). */
module Verdict {
  import opened Wrappers
  import opened ExecutionModel
  import opened TerminalArbiter
  import opened Supervisor
  import E = EventStore
  import P = ProcessWait

  /** What `supervise` has left to submit. */
  function Todo(s: State): seq<Candidate> {
    if s.supervisor.Submitting? then s.supervisor.todo else []
  }

  /** What it has left after a step, as the step alone tells: when the deadline goroutine is gone, the pipes' failure,
      if there was one, and then the end of the process. */
  function OwnAfter(a: Act, own: seq<Candidate>): seq<Candidate> {
    match a
    case StopTimer(end) =>
      var outcome := P.OutcomeOf(end.results, end.waited, end.elapsed);
      if P.BothPipesEnded(end.results) then [outcome.wait] else [InternalFailureCandidate(outcome.wait.duration), outcome.wait]
    case SubmitOwn => if own == [] then [] else own[1..]
    case _ => own
  }

  /** The candidate that a step submits. */
  function Offer(a: Act, own: seq<Candidate>): Option<Candidate> {
    match a
    case SubmitOther(c, _) => Some(c)
    case SubmitDeadline(d) => Some(Candidate(DeadlineExceeded, None, "", "", d))
    case SubmitOwn => if own == [] then None else Some(own[0])
    case _ => None
  }

  /** The candidates submitted in a run, in order. */
  function Submitted(acts: seq<Act>, own: seq<Candidate>): seq<Candidate>
    decreases acts
  {
    if acts == [] then []
    else (if Offer(acts[0], own).Some? then [Offer(acts[0], own).value] else []) + Submitted(acts[1..], OwnAfter(acts[0], own))
  }

  /** The reason whose submitter hears the arbiter's answer in a step. */
  function Hears(a: Act, own: seq<Candidate>): set<Reason> {
    match a
    case SubmitOther(c, heard) => if heard then {c.reason} else {}
    case SubmitLate(reason) => {reason}
    case SubmitDeadline(_) => {DeadlineExceeded}
    case SubmitOwn => if own == [] then {} else {own[0].reason}
    case _ => {}
  }

  function Heard(acts: seq<Act>, own: seq<Candidate>): set<Reason>
    decreases acts
  {
    if acts == [] then {} else Hears(acts[0], own) + Heard(acts[1..], OwnAfter(acts[0], own))
  }

  function Kills(a: Act): set<Reason> {
    match a
    case Terminate(reason) => {reason}
    case KillGroup => {DeadlineExceeded}
    case _ => {}
  }

  function Killed(acts: seq<Act>): set<Reason>
    decreases acts
  {
    if acts == [] then {} else Kills(acts[0]) + Killed(acts[1..])
  }

  function Produced(acts: seq<Act>): seq<E.Chunk>
    decreases acts
  {
    if acts == [] then [] else (if acts[0].Produce? then [acts[0].chunk] else []) + Produced(acts[1..])
  }

  /** The winner, the kills and the output of one step, as the step alone tells. */
  predicate Decides(s: State, a: Act, s': State) {
    && s'.winner == (if s.winner.Some? then s.winner else Offer(a, Todo(s)))
    && s'.kills == s.kills + Kills(a)
    && s'.produced == s.produced + (if a.Produce? then [a.chunk] else [])
  }

  lemma AskingDecides(s: State, a: Act)
    requires PhaseInv(s) && Enabled(s, a) && Asks(a)
    ensures Decides(s, a, Step(s, a))
  {
  }

  lemma PublishingDecides(s: State, a: Act)
    requires Enabled(s, a) && (a.Drain? || a.TransitionWinner? || a.PublishTerminal?)
    ensures Decides(s, a, Step(s, a))
  {
  }

  lemma StepDecides(s: State, a: Act)
    requires PhaseInv(s) && Enabled(s, a)
    ensures Decides(s, a, Step(s, a))
  {
    if Asks(a) {
      AskingDecides(s, a);
    } else if a.Drain? || a.TransitionWinner? || a.PublishTerminal? {
      PublishingDecides(s, a);
    }
  }

  lemma StepTodo(s: State, a: Act)
    requires PhaseInv(s) && Enabled(s, a)
    ensures Todo(Step(s, a)) == OwnAfter(a, Todo(s))
  {
    if a.StopTimer? {
      P.OutcomesAreValid(a.end.results, a.end.waited, a.end.elapsed);
    }
  }

  /** Those who hear an answer hear whether the winner's reason is theirs. */
  predicate Answers(told: set<(Reason, bool)>, hears: set<Reason>, winner: Option<Candidate>, told': set<(Reason, bool)>) {
    forall r, won :: (r, won) in told' <==>
      (r, won) in told || (r in hears && winner.Some? && won == (winner.value.reason == r))
  }

  lemma ServeTells(s: State, c: Candidate, heard: bool)
    ensures Answers(s.told, if heard then {c.reason} else {}, Serve(s, c, heard).winner, Serve(s, c, heard).told)
    ensures Serve(s, c, heard).winner.Some?
  {
  }

  predicate TellsNothing(s: State, a: Act)
    requires Enabled(s, a)
  {
    Step(s, a).told == s.told && Hears(a, Todo(s)) == {}
  }

  lemma DrainTellsNothing(s: State, a: Act)
    requires Enabled(s, a) && a.Drain?
    ensures TellsNothing(s, a)
  {
  }

  lemma PublishTellsNothing(s: State, a: Act)
    requires Enabled(s, a) && (a.PublishTerminal? || a.TransitionWinner?)
    ensures TellsNothing(s, a)
  {
  }

  lemma OthersTellNothing(s: State, a: Act)
    requires Enabled(s, a) && !Asks(a) && !a.Drain? && !a.PublishTerminal? && !a.TransitionWinner?
    ensures TellsNothing(s, a)
  {
  }

  lemma StepTells(s: State, a: Act)
    requires PhaseInv(s) && Enabled(s, a)
    ensures Answers(s.told, Hears(a, Todo(s)), Step(s, a).winner, Step(s, a).told)
    ensures Hears(a, Todo(s)) != {} ==> Step(s, a).winner.Some?
  {
    match a {
      case SubmitOther(c, heard) => ServeTells(s, c, heard);
      case SubmitLate(_) =>
      case SubmitDeadline(d) => ServeTells(s, Deadline(d), true);
      case SubmitOwn => ServeTells(s, s.supervisor.todo[0], true);
      case Drain => DrainTellsNothing(s, a);
      case PublishTerminal => PublishTellsNothing(s, a);
      case TransitionWinner => PublishTellsNothing(s, a);
      case _ => OthersTellNothing(s, a);
    }
  }

  function First(winner: Option<Candidate>, submitted: seq<Candidate>): Option<Candidate> {
    if winner.Some? then winner else if submitted == [] then None else Some(submitted[0])
  }

  lemma DecidesOn(s: State, a: Act, m: State, last: State, submitted: seq<Candidate>, killed: set<Reason>, produced: seq<E.Chunk>)
    requires Decides(s, a, m)
    requires last.winner == First(m.winner, submitted) && last.kills == m.kills + killed && last.produced == m.produced + produced
    ensures last.winner == First(s.winner, (if Offer(a, Todo(s)).Some? then [Offer(a, Todo(s)).value] else []) + submitted)
    ensures last.kills == s.kills + (Kills(a) + killed)
    ensures last.produced == s.produced + ((if a.Produce? then [a.chunk] else []) + produced)
  {
  }

  lemma {:induction false} RunDecides(s: State, acts: seq<Act>)
    requires Inv(s) && Runs(s, acts)
    ensures After(s, acts).winner == First(s.winner, Submitted(acts, Todo(s)))
    ensures After(s, acts).kills == s.kills + Killed(acts)
    ensures After(s, acts).produced == s.produced + Produced(acts)
    decreases acts
  {
    if acts != [] {
      StepInv(s, acts[0]);
      StepDecides(s, acts[0]);
      StepTodo(s, acts[0]);
      var m := Step(s, acts[0]);
      RunDecides(m, acts[1..]);
      DecidesOn(s, acts[0], m, After(m, acts[1..]), Submitted(acts[1..], Todo(m)), Killed(acts[1..]), Produced(acts[1..]));
    }
  }

  lemma TellsOn(s: State, m: State, last: State, hears: set<Reason>, rest: set<Reason>)
    requires Answers(s.told, hears, m.winner, m.told) && Answers(m.told, rest, last.winner, last.told)
    requires m.winner.Some? ==> last.winner == m.winner
    requires hears != {} ==> m.winner.Some?
    ensures Answers(s.told, hears + rest, last.winner, last.told)
  {
  }

  lemma {:induction false} RunTells(s: State, acts: seq<Act>)
    requires Inv(s) && Runs(s, acts)
    ensures Answers(s.told, Heard(acts, Todo(s)), After(s, acts).winner, After(s, acts).told)
    ensures Heard(acts, Todo(s)) != {} ==> After(s, acts).winner.Some?
    decreases acts
  {
    if acts != [] {
      var m := Step(s, acts[0]);
      StepInv(s, acts[0]);
      StepTells(s, acts[0]);
      StepTodo(s, acts[0]);
      RunTells(m, acts[1..]);
      RunInv(m, acts[1..]);
      TellsOn(s, m, After(s, acts), Hears(acts[0], Todo(s)), Heard(acts[1..], Todo(m)));
    }
  }

  /** Retention closes the store for good: nothing is published there any more. */
  lemma ClosedStoreTakesNothing(s: State, draft: E.Event, chunk: E.Chunk)
    requires Enabled(s, CloseStore) && E.Retained(s.log, chunk) > 0
    ensures var log := Step(s, CloseStore).log;
            && E.ControlPublished(log, draft, E.Live) == (log, false) && E.OutputAppended(log, chunk, E.Live, E.Live) == (log, false)
            && log.events == s.log.events
  {
  }

  lemma InitTodo(s: State)
    requires Init(s)
    ensures Inv(s) && Todo(s) == [] && s.winner.None? && s.kills == {} && s.told == {} && s.produced == []
  {
    InitInv(s);
  }

  lemma DoneReports(s: State)
    requires Inv(s) && s.arbiter.Done?
    ensures s.winner.Some? && Reports(s, s.winner.value)
  {
    InvSafe(s);
  }

  /** The descriptor and the terminal event, the last one stored, tell this candidate. */
  predicate Reports(s: State, c: Candidate) {
    && |s.log.events| > 0 && s.exec == Final(c)
    && Agree(s.exec.state, s.log.events[|s.log.events|-1].kind)
    && Tells(s.log.events[|s.log.events|-1], s.exec, c)
  }

  /** From `started` on the first candidate submitted wins, whoever submits it; exactly those who heard an answer
      were told whether that is theirs; and once the arbiter is done the descriptor and the terminal event report
      it. What was killed and what was produced is exactly what the steps killed and produced. */
  lemma FirstSubmittedWins(s: State, acts: seq<Act>)
    requires Init(s) && Runs(s, acts)
    ensures var last, submitted := After(s, acts), Submitted(acts, []);
            && last.winner == First(None, submitted)
            && last.kills == Killed(acts) && last.produced == Produced(acts)
            && Answers({}, Heard(acts, []), First(None, submitted), last.told)
            && (last.arbiter.Done? ==> submitted != [] && Reports(last, submitted[0]))
  {
    InitTodo(s);
    RunDecides(s, acts);
    RunTells(s, acts);
    RunInv(s, acts);
    if After(s, acts).arbiter.Done? {
      DoneReports(After(s, acts));
    }
  }

  /** Nobody but `supervise` submits anything, and the process and its pipes have ended like this. */
  predicate Uncontested(acts: seq<Act>, end: End) {
    forall a :: a in acts ==> !a.SubmitOther? && !a.SubmitDeadline? && (a.StopTimer? ==> a.end == end)
  }

  lemma {:induction false} OnlyTheWait(acts: seq<Act>, own: seq<Candidate>, end: End)
    requires Uncontested(acts, end) && P.BothPipesEnded(end.results)
    requires own == [] || own == [P.OutcomeOf(end.results, end.waited, end.elapsed).wait]
    ensures forall c :: c in Submitted(acts, own) ==> c == P.OutcomeOf(end.results, end.waited, end.elapsed).wait
    decreases acts
  {
    if acts != [] {
      assert acts[0] in acts;
      forall a | a in acts[1..]
        ensures a in acts
      {
      }
      assert acts[0].SubmitOwn? && own != [] ==> own[1..] == [];
      OnlyTheWait(acts[1..], OwnAfter(acts[0], own), end);
    }
  }

  /** The event tells this end, with this exit code and error. */
  predicate LastTells(log: E.Log, kind: E.Kind, exitCode: Option<int>, errorCode: string, ms: int) {
    && |log.events| > 0
    && var e := log.events[|log.events|-1];
       e.kind == kind && e.exitCode == exitCode && e.errorCode == errorCode && e.durationMs == Some(ms)
  }

  /** The end of the process, as the descriptor and the terminal event tell it. */
  predicate EndIsReported(last: State, end: End) {
    var ms := end.elapsed / 1_000_000;
    match end.waited
    case OtherError =>
      last.exec == Descriptor(Failed, InternalFailure, None) && LastTells(last.log, E.Failed, None, "INTERNAL_ERROR", ms)
    case _ =>
      match end.waited.status
      case ExitStatus(code) =>
        last.exec == Descriptor(Exited, ProcessExited, Some(code)) && LastTells(last.log, E.Exited, Some(code), "", ms)
      case Signaled(signal) =>
        && last.exec == Descriptor(Exited, ProcessExited, Some(128 + signal))
        && LastTells(last.log, E.Exited, Some(128 + signal), "", ms)
      case _ => true
  }

  lemma WaitIsReported(last: State, end: End)
    requires end.elapsed >= 0 && Reports(last, P.OutcomeOf(end.results, end.waited, end.elapsed).wait)
    ensures EndIsReported(last, end)
  {
  }

  /** A process that ends by itself is reported for what it did: if both pipes were read to their end and nobody
      competes, an exit with any code gives Exited with that code, a signal gives 128 and the signal, and only an
      end that nobody knows gives an internal failure. */
  lemma UncontestedEndIsReported(s: State, acts: seq<Act>, end: End)
    requires Init(s) && Runs(s, acts) && After(s, acts).arbiter.Done?
    requires Uncontested(acts, end) && P.BothPipesEnded(end.results) && end.elapsed >= 0
    ensures EndIsReported(After(s, acts), end)
  {
    FirstSubmittedWins(s, acts);
    OnlyTheWait(acts, [], end);
    var c := Submitted(acts, [])[0];
    assert c in Submitted(acts, []);
    WaitIsReported(After(s, acts), end);
  }
}
