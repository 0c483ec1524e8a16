/** What `supervise` learns from the process and its two pipes
    (internal/runner/process_waiter.go, internal/runner/process_exit_unix.go). */
module ProcessWait {
  import opened Wrappers
  import opened ExecutionModel

  /** `OutputStream` is a string, so a reader may also name neither of the two pipes. */
  datatype Pipe = Stdout | Stderr | Neither

  datatype PipeResult = PipeResult(pipe: Pipe, failed: bool)

  /** The process state behind a wait: none, a wait status, or one without a wait status. */
  datatype Status = NoState | ExitStatus(code: nat) | Signaled(signal: nat) | Stopped | Portable(exitCode: int)

  /** What `Wait` returned: no error, an `ExitError`, or any other error. */
  datatype Waited = Clean(status: Status) | ExitError(status: Status) | OtherError

  datatype Outcome = Outcome(pipeFailure: Option<Candidate>, wait: Candidate)

  /** Each pipe reported once, and without an error. */
  predicate BothPipesEnded(results: seq<PipeResult>) {
    || results == [PipeResult(Stdout, false), PipeResult(Stderr, false)]
    || results == [PipeResult(Stderr, false), PipeResult(Stdout, false)]
  }

  /** The pipes of the first i results, which must be fewer than three. */
  function PipesOf(results: seq<PipeResult>, i: nat): set<Pipe>
    requires i <= |results|
  {
    if i == 0 then {} else if i == 1 then {results[0].pipe} else {results[0].pipe, results[1].pipe}
  }

  /** `waitForPipeResults` over the results received until the channel was closed. */
  method PipesFailed(results: seq<PipeResult>) returns (failed: bool)
    ensures failed <==> !BothPipesEnded(results)
  {
    var seen: set<Pipe> := {};
    failed := false;
    for i := 0 to |results|
      invariant failed ==> !BothPipesEnded(results)
      invariant !failed ==> i <= 2 && seen == PipesOf(results, i)
      invariant !failed ==> forall j :: 0 <= j < i ==> !results[j].pipe.Neither? && !results[j].failed
      invariant !failed && i == 2 ==> results[0].pipe != results[1].pipe
    {
      var r := results[i];
      if r.pipe.Neither? || r.pipe in seen {
        failed := true;
      } else {
        seen := seen + {r.pipe};
        if r.failed {
          failed := true;
        }
      }
    }
    if Stdout !in seen || Stderr !in seen {
      failed := true;
    }
  }

  /** `normalizedProcessExitCode`. */
  function ExitCode(s: Status): Option<int> {
    match s
    case NoState => None
    case ExitStatus(code) => Some(code)
    case Signaled(signal) => Some(128 + signal)
    case Stopped => None
    case Portable(code) => if code >= 0 then Some(code) else None
  }

  /** `WaitProcess`; `elapsed` is what the clock says since the start, which may be negative. */
  function OutcomeOf(results: seq<PipeResult>, waited: Waited, elapsed: int): Outcome {
    var duration := if elapsed < 0 then 0 else elapsed;
    var code := if waited.OtherError? then None else ExitCode(waited.status);
    Outcome(if BothPipesEnded(results) then None else Some(InternalFailureCandidate(duration)),
            if code.Some? then Candidate(ProcessExited, code, "", "", duration) else InternalFailureCandidate(duration))
  }

  method WaitProcess(results: seq<PipeResult>, waited: Waited, elapsed: int) returns (o: Outcome)
    ensures o == OutcomeOf(results, waited, elapsed)
  {
    var failed := PipesFailed(results);
    var duration := elapsed;
    if duration < 0 {
      duration := 0;
    }
    var candidate := InternalFailureCandidate(duration);
    if !waited.OtherError? {
      var code := ExitCode(waited.status);
      if code.Some? {
        candidate := Candidate(ProcessExited, code, "", "", duration);
      }
    }
    return Outcome(if failed then Some(InternalFailureCandidate(duration)) else None, candidate);
  }

  /** A wait status that says how the process ended. */
  predicate Ends(s: Status, code: int) {
    (s.ExitStatus? && code == s.code) || (s.Signaled? && code - s.signal == 128)
  }

  /** Whatever happens to the process and its pipes, the candidates pass the arbiter's validation, and a process is
      reported as exited exactly if its end is known: with its own status, or with 128 and its signal. */
  lemma OutcomesAreValid(results: seq<PipeResult>, waited: Waited, elapsed: int)
    ensures var o := OutcomeOf(results, waited, elapsed);
            && ValidCandidate(o.wait) && (o.wait.reason.ProcessExited? || o.wait.reason.InternalFailure?)
            && (o.pipeFailure.Some? <==> !BothPipesEnded(results))
            && (o.pipeFailure.Some? ==> ValidCandidate(o.pipeFailure.value) && o.pipeFailure.value.reason.InternalFailure?
                                        && o.pipeFailure.value.duration == o.wait.duration)
            && elapsed <= o.wait.duration && (o.wait.duration == elapsed || o.wait.duration == 0)
    ensures forall code: int :: OutcomeOf(results, waited, elapsed).wait.exitCode == Some(code) <==>
              !waited.OtherError? && (Ends(waited.status, code) || (waited.status == Portable(code) && code >= 0))
  {
  }
}
