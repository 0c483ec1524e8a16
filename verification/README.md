# MiniSandbox control plane and runner: a verified model

MiniSandbox runs sandboxes in containers. A control plane keeps one record per sandbox, with a lease, and
drives containers towards what the record asks for; a runner inside each container executes commands, drains
their output under a byte budget and publishes one numbered event stream per execution. This project models the
concurrent and algorithmic parts of both in Dafny and proves what they promise. `dafny verify dfyconfig.toml`
checks all of it.

How the model is laid out, one module per file:

* **Execution lifecycle.** `ExecutionModel` (state machine, terminal candidates), `ProcessWait` (the end of the
  process and its pipes), `EventStore` (store and sequencer, output budget), `TerminalArbiter` (first-wins decision
  and publication), `Supervisor` (a started execution as interleaved steps of all its goroutines), `Verdict` (what
  the steps of a run add up to), `Manager` (slots, cancellation hand-off, statuses,
  shutdown), `LogWriter` and `LogPaging` (background log), `Retention` (eviction of completed executions).
* **Scheduling.** `WakeQueue` and `KeyedLock`: the objects with their critical sections, and any number of
  threads with program counters between those sections.
* **Leases.** `HeapOrder` and `TtlHeap` (the indexed binary heap in place), `TimeText` and `SandboxStore` (the
  compare-and-swap operations with their comparison of time texts), `CasLoops` (the bounded retry loops of renew,
  delete and expiry), `Lifecycle` (one sandbox under every interleaving of renew, delete, timer, scanner, repair
  and reconcile), `Health`, `ReconcilePaths` and `ClientPaths` (health checks up to a replacement, and what each
  way through a reconcile or another client leaves behind), `TimerCoverage` (timer loop, callbacks, recovery against a store that moves on by itself),
  `LeaseRecovery` (the startup rebuild of the index).
* **Sets and codecs.** `EgressPolicy` (CIDR deny set), `EgressBuild` (what building one promises), `Sse` (event
  stream encoder and decoder), `Frames` (exactly what the decoder takes), `Decimal`,
  `Json` (what is assumed of JSON: valid events are encoded as one line each and decoded to themselves).
* **Recovery and sweeps.** `Inventory`, `Discovery` and `Recovery` (aggregation, what it reports, plan, repair,
  import), `Sweeps` (keyset
  sweeps), `Backoff`.
* `Ordering` (Go's string order), `Sorting` (Go's sort for a total order) and `Wrappers` (`Option`).

Objects that the program changes in place are classes whose methods are proved against a function of their
old state; lemmas then state what that function means. Where goroutines race, the locked sections and channel
operations are the atomic steps of a state machine, an arbitrary list of steps is a run, and the theorems
quantify over all runs. Durations and instants are nanoseconds; an instant is counted from Go's zero time and ends
with the year 9999.

## Where the code does not do what it promises

Each item names the theorem with the exact condition and the lemma with a concrete case.

The program can run into these:

1. **Times are compared as text.** The SQLite store writes instants as RFC 3339 text without the fraction's
   trailing zeros and compares the texts. `TimeText.TextOrder`: two instants are ordered wrongly exactly when they
   lie in the same second and the earlier one's fraction is a proper beginning of the later one's ("..:00Z" sorts
   behind "..:00.5Z", `HalfPastSortsFirst`). What follows is exact in `SandboxStore.RenewExactly`,
   `RenewShortensExactly` and `ExpireExactly` (case: `RenewCanShorten`), and for the retry loops in
   `CasLoops.RenewalAlone`, `DeleteAlone` and `ExpiryAlone` (cases: `RepeatedDeleteCanFail`, `DueTimerCanFail`): a
   renewal, a repeated delete or the timer of a lease that has run out can fail without any competitor.
   `Lifecycle.EveryInterleavingIsSafe` shows that the callers' own checks still keep the expiry from ever
   decreasing.
2. **A small log page limit hides events.** A read succeeds exactly when every line it has to look at fits into the
   scanner's buffer, which has the size of a page, and the event behind the cursor fits into a page of its own
   (`LogPaging.ReadSucceedsExactly`). A client gets the whole of a finished log exactly when every event fits into a
   page of its own (`ClientGetsAllExactly`, `EveryCursorIsAnsweredExactly`); one line that is too long keeps back
   earlier events, too (`LongLineStops`; case: `LongLineHidesEarlierEvents`). Chunks have at most 32 KiB
   (internal/runner/pipe_reader.go:9), about 44 KB as base64, so it takes a `max_log_page_bytes` below roughly that;
   the default is 1 MiB.
3. **A sweep that exactly fills its last page** has visited everything and still reports too many pages:
   `Sweeps.SweepVisitsEachOnce` (case: `FullLastPageIsReported`) and, for the startup rebuild of the TTL index,
   `LeaseRecovery.RecoveryIndexesEveryLease` (case: `FullLastPageFails`). With the program's 10,000 pages this takes
   as many candidates.
4. **Timers only cover sandboxes that recovery has indexed.** After startup nothing puts a newly created sandbox
   into the TTL index; the periodic scanner covers it. `TimerCoverage.CoveredExactly`: an active sandbox is covered
   if and only if recovery has ever indexed it; `CreatedLaterIsNeverCovered` (case: `NewSandboxIsNotCovered`).
5. **A stream that lacks only its very last line feed is accepted.** `Sse.TruncationIsDetected` (case:
   `LostLineFeedIsAccepted`).

These are true of a component on its own; the program around it never gets there:

6. **A publish abandoned after hand-over** spends a sequence number on an event nobody stores
   (`EventStore.NumberingKeptExactly`, `OutputNumberingKeptExactly`; case: `AbandonedPublishLeavesGap`). It takes a
   context that ends between the two halves of a call, which no caller can foresee; every caller in the program
   passes one that never ends (internal/runner/execution_launcher.go:153, :228, :262,
   internal/runner/terminal_arbiter.go:156), and `Supervisor.PublicationNeverFails` shows that no run loses a number.
7. **A cancel that wins before `started` was published** ends an execution without a terminal event
   (`TerminalArbiter.PublishesExactly`; case: `PendingCancelLosesItsEvent`). The launcher binds the cancel handler
   after it has published `started` (internal/runner/execution_launcher.go:153-179); `Supervisor.PublicationNeverFails`
   covers every run from there, and `TerminalArbiter.PendingFailureHasItsEvent` the executions that fail before.
8. **An event whose data line exceeds 64 KiB** is written to the stream and refused by the decoder
   (`Sse.RoundTrip`; case: `LongLineIsRefused`). Output events of pipe chunks are never that long
   (`Sse.PipeChunksFit`).
9. **`Verify` of the egress policy ignores host bits** (`EgressPolicy.VerifiesExactly`; case:
   `VerifyMissesHostBits`). The wire format refuses such prefixes before it is called
   (internal/egressnft/bootstrap.go:222-234); on masked lists it accepts exactly what has the shape of a built policy
   (`EgressPolicy.VerifiesMaskedExactly`).

## Model

| member | source | states |
|---|---|---|
| `ExecutionModel.Execution.Transition` | internal/runner/execution_model.go:105-119 | refuses exactly the transitions outside the table and then changes nothing; otherwise writes state and reason, and keeps an old exit code when none is given |
| `ExecutionModel.TransitionsAreSafe` | internal/runner/execution_model.go:105-165 | over every history of requests the metadata fits the state, a terminal state is never left or rewritten, and Running never goes back to Pending |
| `ExecutionModel.AcceptedExactly` | internal/runner/execution_model.go:140-165 | the exact set of accepted requests without the table: whatever leads from one coherent descriptor to another, but not back to Pending, out of a terminal state, to an exit or a timeout of what never ran, or to a second start or a failed start of what runs |
| `ExecutionModel.ReachableExactly` | internal/runner/execution_model.go:87-165 | requests lead from a fresh execution to exactly the coherent descriptors |
| `ExecutionModel.WinnerAcceptedExactly` | internal/runner/terminal_arbiter.go:176-219 | which validated candidates the state machine accepts in which state, both directions |
| `ProcessWait.PipesFailed` | internal/runner/process_waiter.go:42-63 | the pipes count as failed unless each of the two reported exactly once and without an error |
| `ProcessWait.WaitProcess` | internal/runner/process_waiter.go:22-97 | computes what `supervise` is told of the process and the pipes |
| `ProcessWait.OutcomesAreValid` | internal/runner/process_exit_unix.go:7-23 | both candidates are always valid; a process counts as exited if and only if its end is known, with its own status or 128 and its signal; durations are never negative |
| `EventStore.Store.Publish` | internal/runner/event_sequencer.go:54-127 | the counter advances exactly when the sequencer accepted the draft, even if the caller's context ended before the answer |
| `EventStore.Store.PublishControl` | internal/runner/event_store.go:41-67 | only control kinds, never after a terminal event; a terminal event carries the truncation flag |
| `EventStore.Store.AppendOutput` | internal/runner/event_store.go:70-120 | stores the part of the chunk that still fits and at most one limit event, under every way the two publishes can fail |
| `EventStore.Store.EventsAfter` | internal/runner/event_store.go:138-158 | of a numbered log, exactly the events behind the cursor, and whether it is terminal |
| `EventStore.NumberingKeptExactly` | internal/runner/event_store.go:41-67 | a control publish keeps the numbering, event i with sequence i+1, if and only if it was not abandoned by its caller after it had been accepted |
| `EventStore.OutputNumberingKeptExactly` | internal/runner/event_store.go:70-120 | an append keeps it if and only if neither of its two publishes was abandoned |
| `EventStore.ValidExactly` | pkg/protocol/events.go:61-101 | validity by field: who has data, an exit code, a duration, a truncation flag, an error |
| `EventStore.ControlAcceptedExactly` | internal/runner/event_sequencer.go:108-127 | a live control publish succeeds if and only if the draft is well-formed and in its place (started, or a failure, first; started never again; nothing behind a terminal event), and appends exactly that draft, addressed and numbered, or nothing |
| `EventStore.AppendAcceptedExactly` | internal/runner/event_store.go:70-120 | a live append fails exactly on a terminal store, or when it has something to publish on a closed store or before anything else |
| `EventStore.AbandonedPublishLeavesGap` | internal/runner/event_sequencer.go:54-81 | the concrete run in which the first stored event is number two |
| `EventStore.KeptIsPrefix` | internal/runner/event_store.go:70-120 | what a budget keeps of any chunk list is exactly the first min(total, max) bytes in arrival order |
| `EventStore.AppendAccounts` | internal/runner/event_store.go:70-120 | on a live store an append never fails, keeps the exact output prefix, the contiguous numbering, one limit event if and only if bytes were dropped, and no output behind it |
| `EventStore.TerminalAccounts` | internal/runner/event_store.go:41-67 | a terminal draft always ends a live accounted history, as its last event and with the right truncation flag |
| `EventStore.ConsumerHoldsPrefix` | internal/runner/event_store.go:138-158 | a consumer that follows its cursor while the store grows holds a gap-free prefix without duplicates, up to the last snapshot |
| `TerminalArbiter.Arbiter.Serve` | internal/runner/terminal_arbiter.go:114-145 | the first candidate is locked for good, and every caller learns whether its reason is the winner's |
| `TerminalArbiter.Arbiter.PublishWinner` | internal/runner/terminal_arbiter.go:147-159 | transition first, event second; an error of either is recorded and a refused transition publishes nothing |
| `TerminalArbiter.TerminalEventIsDraft` | internal/runner/terminal_arbiter.go:199-219 | every validated candidate gives a terminal draft that the sequencer cannot refuse for its content |
| `TerminalArbiter.PublishesExactly` | internal/runner/terminal_arbiter.go:147-219 | publication succeeds if and only if the winner fits the state and, unless it is a failure, something was published before; then state and event name the same outcome, and the event tells the exit code, the error and the duration in whole milliseconds |
| `TerminalArbiter.PendingFailureHasItsEvent` | internal/runner/execution_launcher.go:253-270 | an execution that fails before it has started always gets its failed event as number one |
| `TerminalArbiter.PendingCancelLosesItsEvent` | internal/runner/terminal_arbiter.go:147-159 | the concrete case of a cancelled execution without any event |
| `Supervisor.Launch` | internal/runner/execution_launcher.go:144-153 | the launcher's own transition and its `started` never fail on a fresh execution and an empty store, and lead to the state in which the runs begin |
| `Supervisor.EveryInterleavingIsSafe` | internal/runner/execution_launcher.go:212-251 | for every run of readers, drain, supervisor, deadline, arbiter, cancel handlers and log writer: one winner, only its reason told won and only it kills the group, nothing terminal before finalization, one terminal event, last, after all drained output, with the state's type, the winner's exit code, error and duration, and the right truncation, the group of a timed-out execution killed, and nothing decided is taken back |
| `Supervisor.StepExtends` | internal/runner/terminal_arbiter.go:114-159 | no step changes a locked winner, a told decision, a stored event, a terminal descriptor or a released slot |
| `Supervisor.Next` | internal/runner/execution_launcher.go:212-251 | once the pipes are closed some step of the execution's own goroutines is always enabled |
| `Supervisor.ExecutionEnds` | internal/runner/execution_launcher.go:212-251 | from every reachable state with closed pipes a schedule of at most Rank own steps ends with the slot released after the terminal event; no schedule has more own steps, and one after which no own step is left has released the slot |
| `Supervisor.OwnStepsAreBounded` | internal/runner/execution_timeout.go:115-139 | along every run with closed pipes the own steps, including those of the deadline goroutine, are paid for by the rank |
| `Supervisor.PublicationNeverFails` | internal/runner/execution_launcher.go:153-251 | in no run does an append or the publication of the winner fail, is a number lost, or the arbiter done without a terminal event |
| `Verdict.FirstSubmittedWins` | internal/runner/terminal_arbiter.go:114-159 | over every run, told by its steps alone: the first candidate submitted wins; exactly those who heard an answer heard whether it is theirs; kills and output are those of the steps; once the arbiter is done descriptor and terminal event report that candidate |
| `Verdict.UncontestedEndIsReported` | internal/runner/execution_launcher.go:212-251 | if nobody else submits anything and both pipes were read to their end, an exit with any code is reported as Exited with that code, a signal as 128 and the signal, an unknown end as an internal failure, with the duration |
| `Verdict.ClosedStoreTakesNothing` | internal/runner/event_store.go:161-165 | a store that retention has closed publishes nothing more |
| `Manager.BeginCancellation` | internal/runner/manager.go:340-349 | a handler is run only with a recorded reason, and never twice |
| `Manager.Manager.CreateExecution` | internal/runner/manager.go:92-132 | takes a slot only while admission is open and below the limit, and gives it back on every error |
| `Manager.Manager.CompleteAt` | internal/runner/manager.go:208-232 | gives the slot back once, only for a terminal execution, and stamps the completion |
| `Manager.Manager.SetCancellationHandler` | internal/runner/manager.go:236-261 | installs one handler and runs it at once when a reason is already recorded |
| `Manager.Manager.RequestCancellation` | internal/runner/manager.go:298-338 | the first reason is recorded and stands; a terminal execution is left alone |
| `Manager.Manager.StatusSnapshot` | internal/runner/manager.go:162-186 | a terminal descriptor is only shown with its terminal event, otherwise the last visible one is repeated |
| `Manager.Manager.BeginShutdown` | internal/runner/manager.go:367-384 | closes admission and collects exactly the active executions |
| `Manager.SlotsAreExact` | internal/runner/manager.go:92-349 | over every history the counter is the number of active executions, at most the limit, and every handler has run at most once with the first recorded reason |
| `Manager.AdmittedExactly` | internal/runner/manager.go:92-132 | in every reachable registry a creation succeeds if and only if admission is open, fewer executions than the limit are active and the ID is fresh; otherwise nothing changes |
| `Manager.FirstReasonStands` | internal/runner/manager.go:236-349 | the first reason asked for stands over every continuation, and the handler runs for it exactly once, whether it is set before or later |
| `Manager.OtherRequestsChangeNothing` | internal/runner/manager.go:298-338 | a request is refused exactly for no cancel reason or an unknown ID; refused, repeated or late requests change nothing |
| `Manager.CompletionStands` | internal/runner/manager.go:208-232 | an ended execution gives back its slot once and keeps the time it was completed with; one that has not ended cannot be completed |
| `Manager.EntryHistory` | internal/runner/manager.go:162-349 | what one execution never takes back while it is registered: slot, reason, handler run, visible and terminal descriptors |
| `Manager.TerminalReportedExactly` | internal/runner/manager.go:162-186 | a status is terminal if and only if the execution is and its terminal event is attached; it shows the present state, or, while the event is missing, the last one shown |
| `Manager.StatusesAreMonotone` | internal/runner/manager.go:162-186 | later statuses never go back, and a terminal one is repeated for ever |
| `Manager.ShutdownAsksEveryone` | internal/runner/manager.go:367-405 | when admission is closed and every execution then active has been sent a shutdown cancellation, in any interleaving with anything else, each one that is still active has ended or has a recorded reason for which its handler has run |
| `Manager.ShutdownIsFinal` | internal/runner/manager.go:367-422 | once no execution is active after admission was closed, the condition on which the wait loop returns, none is active in any continuation and none can be created |
| `Retention.EvictCompleted` | internal/runner/completed_execution_gc.go:148-178 | takes the oldest completed executions in (time, ID) order, leaves at most the limit and nothing as old as the cutoff, and takes no more than these demand |
| `Retention.PrefixEvicts` | internal/runner/completed_execution_gc.go:148-178 | why a prefix of the ordered candidates is such an eviction |
| `Retention.EvictionInRegistry` | internal/runner/completed_execution_gc.go:148-178 | in the terms of the registry, after every history: active executions stay; of the ended ones at most the limit stay, all younger than the cutoff and behind all that went, by completion time and ID; no more go than that |
| `Retention.Collector.RemoveLogs` | internal/runner/completed_execution_gc.go:110-145 | tries every pending log and keeps exactly those whose deletion failed |
| `Retention.Collector.Run` | internal/runner/completed_execution_gc.go:110-145 | every evicted log is pending until it is removed, and success means that none is pending |
| `LogWriter.WriteAll` | internal/runner/background_log_writer.go:184-196 | what reaches the file under short writes, errors and nonsense counts, and that success means all of it |
| `LogWriter.SentExactly` | internal/runner/background_log_writer.go:184-196 | writing succeeds if and only if the file system's first answers, for any number of short writes, add up to exactly the data without an error |
| `LogWriter.CopyEvent` | internal/runner/background_log_writer.go:125-166 | an event of another execution, out of sequence or invalid is not written; otherwise its whole line is, or a beginning of it and an error |
| `LogWriter.CopyPoll` | internal/runner/background_log_writer.go:125-166 | one poll of the store is written in order up to its end or its terminal event |
| `LogWriter.Run` | internal/runner/background_log_writer.go:125-166 | at every ending the file holds whole lines of a prefix of the events and at most a torn part of the next; complete only with the terminal event written, synced and closed; a healthy log on a file that takes every line is always completed |
| `LogWriter.CompleteHoldsAll` | internal/runner/background_log_writer.go:125-166 | a complete log is exactly the encoding of all events |
| `LogWriter.WrittenIsLog` | internal/runner/background_log_writer.go:125-166 | at every ending what is in the file as whole lines is an orderly log of this execution, the only thing readers are promised to meet |
| `LogPaging.Read` | internal/runner/background_log_reader.go:59-147 | the scan loop with its two limits, its early stops and its errors computes the page function |
| `LogPaging.LinesOfLog` | internal/runner/background_log_reader.go:166-175 | a file of whole lines and a torn rest is split into exactly these |
| `LogPaging.PrefixOfLog` | internal/runner/background_log_writer.go:125-166 | every byte prefix of a log is an event prefix and one torn line that the scanner can hold |
| `LogPaging.ReadLog` | internal/runner/background_log_reader.go:59-147 | a page is exactly the events behind the cursor, as many as both limits allow and at least one if there is one, complete if and only if the terminal event is reached; a cursor behind the end is an error |
| `LogPaging.ReadWhileGrowing` | internal/runner/background_log_reader.go:59-147 | the same for every byte prefix of the log, on the whole lines in it |
| `LogPaging.FollowingYieldsEachOnce` | internal/runner/background_log_reader.go:59-147 | following the cursor over a growing file never fails and yields each event once and in order |
| `LogPaging.FollowingReachesTheEnd` | internal/runner/background_log_reader.go:59-147 | over a finished log every event is reached |
| `LogPaging.EmptyAlwaysFits` | internal/runner/background_log_reader.go:35-57 | the least limit the constructor admits is enough for a page without events |
| `LogPaging.UnreadableStops` | internal/runner/background_log_reader.go:59-147 | a read at the cursor of an event that fits no page of its own fails |
| `LogPaging.ReadSucceedsExactly` | internal/runner/background_log_reader.go:59-147 | over every orderly log with any torn rest: a read succeeds, and then answers its cursor, if and only if every line it has to look at is within the buffer and the event behind the cursor fits a page of its own |
| `LogPaging.EveryCursorIsAnsweredExactly` | internal/runner/background_log_reader.go:59-147 | every cursor of a log is answered if and only if every event fits a page of its own |
| `LogPaging.ClientGetsAllExactly` | internal/runner/background_log_reader.go:59-147 | enough reads from the start deliver a finished log completely if and only if every event fits a page of its own |
| `LogPaging.LongLineStops` | internal/runner/background_log_reader.go:77-110 | an over-long line makes every read at or behind its event fail, and every read before it whose page has room up to it |
| `LogPaging.LongLineHidesEarlierEvents` | internal/runner/background_log_reader.go:77-110 | the case of a readable first event that no cursor ever delivers |
| `LogPaging.DeliveredIsReadable` | internal/runner/background_log_reader.go:59-147 | of any file, what a read delivers would fit a page of its own |
| `LogPaging.AnyFileIsSafe` | internal/runner/background_log_reader.go:59-147 | whatever the file holds, a page that is returned is contiguous behind the cursor, of this execution and within both limits |
| `WakeQueue.Queue.Wake` | internal/reconcile/queue.go:48-73 | the locked section and whether it notifies |
| `WakeQueue.Queue.Take` | internal/reconcile/queue.go:78-118 | hands out the head, or nothing when the queue is closed or empty, and passes the notification on when more is left |
| `WakeQueue.Queue.Done` | internal/reconcile/queue.go:138-155 | releases the ID or puts it back, and notifies whenever something is queued |
| `WakeQueue.Queue.Len` | internal/reconcile/queue.go:158-171 | the number of dirty IDs, including those woken while they are processed |
| `WakeQueue.Queue.Close` | internal/reconcile/queue.go:122-131 | closes without dropping anything from the contents |
| `WakeQueue.WakeRefines` | internal/reconcile/queue.go:48-73 | a wake adds to the dirty set, leaves the busy set, and reports true if and only if the ID was not dirty |
| `WakeQueue.TakeRefines` | internal/reconcile/queue.go:78-118 | a take moves the oldest dirty, idle ID to the busy set, and succeeds if and only if there is one |
| `WakeQueue.DoneRefines` | internal/reconcile/queue.go:138-155 | done only takes the ID out of the busy set; a wake that came meanwhile stays dirty |
| `WakeQueue.EveryInterleavingIsSafe` | internal/reconcile/queue.go:48-179 | in every run of any number of threads no ID has two workers or is queued while it has one, and pending work is announced, held or about to be announced |
| `WakeQueue.WakeIsAnswered` | internal/reconcile/worker.go:92-110 | a wake of an open queue stays dirty until a later take dispatches it, queued or held by the worker whose Done requeues it |
| `WakeQueue.DirtyUntilDispatched` | internal/reconcile/queue.go:78-155 | no step but a dispatch of the ID makes it clean |
| `WakeQueue.DispatchIsFifo` | internal/reconcile/queue.go:78-118 | over any run, what was handed out followed by what is queued begins with the initial queue |
| `WakeQueue.NoStarvation` | internal/reconcile/queue.go:78-118 | the ID at position k is the k+1-st dispatch, however many wakes arrive |
| `KeyedLock.Lock.Join` | internal/reconcile/keyed_lock.go:32-48 | finds the key's entry or makes a free one, and counts the waiter |
| `KeyedLock.Lock.Promote` | internal/reconcile/keyed_lock.go:49-72 | a waiter becomes a holder |
| `KeyedLock.Lock.CancelWaiter` | internal/reconcile/keyed_lock.go:74-79 | uncounts the waiter and deletes the entry when it is idle |
| `KeyedLock.Lock.Release` | internal/reconcile/keyed_lock.go:49-72 | uncounts the holder and deletes the entry when it is idle |
| `KeyedLock.Lock.DeleteIdle` | internal/reconcile/keyed_lock.go:81-86 | deletes only an idle entry that is still the key's current one |
| `KeyedLock.EveryInterleavingIsSafe` | internal/reconcile/keyed_lock.go:32-86 | in every run at most one thread owns a key however often its entry was remade, the map has an entry exactly while some thread uses it, every used entry is the current one, giving the token back never blocks, and a waiter without a token waits for an owner |
| `KeyedLock.NothingLeaks` | internal/reconcile/keyed_lock.go:81-86 | when all threads have finished the map is empty |
| `HeapOrder.UpRestores` | internal/reconcile/ttl_heap.go:25-51 | sifting up repairs an entry that is too small |
| `HeapOrder.DownRestores` | internal/reconcile/ttl_heap.go:25-51 | sifting down repairs an entry that is too large |
| `HeapOrder.FixRestores` | internal/reconcile/ttl_heap.go:66-89 | Fix repairs an arbitrary change of one entry and permutes only the heap |
| `HeapOrder.PushRestores` | internal/reconcile/ttl_heap.go:66-89 | Push keeps the heap and adds exactly the entry |
| `HeapOrder.RemoveRestores` | internal/reconcile/ttl_heap.go:91-102 | Remove keeps the heap and takes out exactly the entry |
| `HeapOrder.RootIsLeast` | internal/reconcile/ttl_heap.go:104-112 | no entry is before the root |
| `TtlHeap.Heap.Swap` | internal/reconcile/ttl_heap.go:34-37 | exchanges two items and keeps every stored index true |
| `TtlHeap.Heap.Upsert` | internal/reconcile/ttl_heap.go:66-89 | refines the update of a map from ID to expiry, with the heap, the indexes and the ID map all intact; reports whether anything changed |
| `TtlHeap.Heap.Remove` | internal/reconcile/ttl_heap.go:91-102 | refines removal from the map, reports whether it was there |
| `TtlHeap.Heap.RootIsEarliest` | internal/reconcile/ttl_heap.go:104-112 | the first entry is a lease of the map that no other is before |
| `TtlHeap.Heap.Peek` | internal/reconcile/ttl_heap.go:104-112 | the least lease by (expiry, ID), or nothing if and only if there is none |
| `TtlHeap.Heap.PopDue` | internal/reconcile/ttl_heap.go:121-131 | exactly the leases not after now, in (expiry, ID) order, and the rest untouched |
| `TimeText.TextOrder` | internal/store/sqlite/store.go:981-1060 | the text comparison agrees with time if and only if the fractions are not inverted, and says the opposite when they are |
| `TimeText.TextIsInjective` | internal/store/sqlite/store.go:706-712 | different instants have different texts, so equality of texts is equality of times |
| `TimeText.HalfPastSortsFirst` | internal/store/sqlite/store.go:981-1015 | the concrete inverted pair |
| `SandboxStore.Store.Execute` | internal/store/sqlite/store.go:774-1195 | every operation changes the record only at the expected revision and only if its conditions hold, with the reply the caller gets, including the idempotent delete |
| `SandboxStore.HistoryTellsRecord` | internal/store/sqlite/store.go:774-1195 | over every history of calls with any revisions and arguments the accepted ones tell the record: revisions counted, intents kept, each field as its last writer set it, attempts since the last success, failed checks since the last healthy one up to the column's maximum |
| `SandboxStore.RetriesAreCounted` | internal/store/sqlite/store.go:1063-1103 | each of any number of retries is counted and scheduled for its time, until the column is full; then it is refused |
| `SandboxStore.DesiredAcceptedExactly` | internal/store/sqlite/store.go:774-872 | when a delete is applied, when it is answered that nothing is needed, and when it conflicts, both directions, with the text comparison |
| `SandboxStore.OthersAcceptedExactly` | internal/store/sqlite/store.go:879-1195 | when each write of a reconcile is accepted, both directions; otherwise the record is unchanged |
| `SandboxStore.ExpireExactly` | internal/store/sqlite/store.go:1018-1060 | an expiry commits if and only if it is due at the matching revision and expiry and the texts are not inverted |
| `SandboxStore.RenewExactly` | internal/store/sqlite/store.go:981-1015 | exactly which renewals commit, and that these are the intended ones when no pair is inverted |
| `SandboxStore.RenewShortensExactly` | internal/store/sqlite/store.go:981-1015 | a committed store renewal shortens the lease if and only if the pair is inverted |
| `SandboxStore.RenewCanShorten` | internal/store/sqlite/store.go:981-1015 | the concrete case |
| `CasLoops.SqliteSwaps` | internal/store/store.go:196-234 | the operations keep the compare-and-swap contract: only the current revision changes the record, and then to exactly what was asked |
| `CasLoops.RenewLease` | internal/application/renew.go:16-58 | the three-attempt loop against any competing calls and clock computes its specification |
| `CasLoops.FirstLookDecides` | internal/application/renew_validator.go:17-46 | with any store and rivals: which comparisons of record, bounds and clock refuse a renewal at once and with which error, which make it succeed without a write, and that nothing else keeps it from the store |
| `CasLoops.RenewalReplacesWhatItChecked` | internal/application/renew.go:16-58 | over any store with the contract and any competitors, a committed renewal is in the store and replaced an active record whose lease had not run out; the new end is later, lies within minimum and maximum from that look at the clock, and only revision and schedule changed besides |
| `CasLoops.ExhaustedRenewalLostEachTime` | internal/application/renew.go:16-58 | retries are exhausted only if in every attempt somebody wrote in between or the store refused the current revision |
| `CasLoops.RenewalAlone` | internal/application/renew.go:16-58 | without competitors an allowed renewal commits if and only if in some attempt it is still allowed and the texts agree |
| `CasLoops.Delete` | internal/application/sandbox_service.go:160-202 | the two-attempt loop computes its specification |
| `CasLoops.DeleteAsksForTermination` | internal/application/sandbox_service.go:160-202 | whatever the others do, a delete that succeeds leaves a record that asks for termination now |
| `CasLoops.DeleteAlone` | internal/application/sandbox_service.go:160-202 | without competitors a delete fails if and only if it is a repeated one whose scheduled time is inverted with the clock at both looks |
| `CasLoops.RepeatedDeleteCanFail` | internal/application/sandbox_service.go:160-202 | the concrete case |
| `CasLoops.Validate` | internal/reconcile/ttl_due_validator.go:51-87 | decides between due, dropped and rescheduled, and does that to the heap and nothing else |
| `CasLoops.ExpireEntry` | internal/reconcile/ttl_expiration.go:47-81 | the three-attempt loop on store and heap computes its specification |
| `CasLoops.ExpiryReplacesWhatItChecked` | internal/reconcile/ttl_expiration.go:47-81 | over any store with the contract and any competitors, a termination replaced a record whose current lease had run out, and what happens to the index agrees with the record left behind |
| `CasLoops.ExpiryAlone` | internal/reconcile/ttl_expiration.go:47-81 | without competitors a due timer terminates if and only if the texts are not inverted at all three looks at the clock; otherwise the sandbox is left without a timer |
| `CasLoops.DueTimerCanFail` | internal/reconcile/ttl_expiration.go:47-81 | the concrete case |
| `Lifecycle.EveryInterleavingIsSafe` | internal/reconcile/reconciler.go:156-488 | over every run of renew, delete, timer, scanner, repair, drift and reconcile: expiry never decreases and stays within now plus the maximum, termination is final, nothing is brought up after it was asked for, Terminated is written only on request with the runtime gone and never left |
| `Lifecycle.StepInv` | internal/reconcile/reconciler.go:156-488 | every single step keeps the invariant and is legal |
| `Lifecycle.MarkRunsKeeps` | internal/reconcile/reconciler.go:254-331 | Creating and Running are only written over a record that still wants to run |
| `Lifecycle.HealthKeeps` | internal/reconcile/running_recovery.go:131-153 | a health result, a conflict with a delete and the threshold keep the invariant |
| `Lifecycle.MarkTerminatedKeeps` | internal/reconcile/reconciler.go:374-427 | Terminated is written only after the runtime reported deletion or absence under a stored termination intent |
| `Lifecycle.DeleteKeeps` | internal/application/sandbox_service.go:160-202 | a delete at any moment of the protocol |
| `Lifecycle.TtlTerminatesOnlyDue` | internal/reconcile/reconciler.go:209-222 | a TTL termination by timer or scanner commits only over a lease that had run out at the clock reading it used |
| `Lifecycle.RenewalIsValid` | internal/application/renew_validator.go:17-46 | a renewal that commits was validated against the very record it replaces and makes the lease longer |
| `Lifecycle.ValidatedExactly` | internal/application/renew_validator.go:17-46 | the chain of checks accepts exactly the allowed renewals, and each error has its one cause |
| `Lifecycle.ExtensionsAreMeasured` | internal/application/renew.go:16-58 | in every run, whatever moves the end of a lease is a renewal, measured against the clock at its own earlier check: active, not run out, later, and within minimum and maximum from that reading |
| `Lifecycle.DeletesNeverGetStuck` | internal/reconcile/reconciler.go:374-427 | after every run, whoever holds the lock wherever, a sandbox whose termination was asked for can still be brought to Terminated with its runtime gone |
| `Lifecycle.TerminationIsPossible` | internal/reconcile/reconciler.go:156-222 | with a free lock and an idle thread, a terminating sandbox, or one whose lease has run out with times not inverted, can be brought to Terminated |
| `Lifecycle.RunningIsPossible` | internal/reconcile/reconciler.go:254-331 | likewise a sandbox that is not up and not due can be brought to Running |
| `Health.ThirdFailureReplaces` | internal/reconcile/running_recovery.go:76-93 | over any sequence of health checks the container is replaced at exactly the third consecutive failure; until then the record holds the failures since the last success |
| `ReconcilePaths.BringUpSucceeds` | internal/reconcile/reconciler.go:254-331 | the whole record, runtime and lock after a sandbox has come up |
| `ReconcilePaths.StartFails` | internal/reconcile/reconciler.go:452-488 | after a failed start: Failed, the retry counted and scheduled, and the container forgotten if and only if it was removed |
| `ReconcilePaths.ProbeFailsPath` | internal/reconcile/reconciler.go:452-488 | the same for a container that was started and did not become ready |
| `ReconcilePaths.ProjectionFails` | internal/reconcile/reconciler.go:326-329 | a sandbox that is up but whose lease could not be passed on fails with its container |
| `ReconcilePaths.HealthyIsRecorded` | internal/reconcile/running_recovery.go:19-58 | a running sandbox that answers, started again or not, only has its failures cleared |
| `ReconcilePaths.DriftIsReported` | internal/reconcile/running_recovery.go:61-74 | another spec is reported without a retry and without touching the container |
| `ReconcilePaths.CheckFailsPath` | internal/reconcile/running_recovery.go:19-41 | a container that cannot be inspected or started again is a failure that keeps its ID |
| `ReconcilePaths.SettledIsLeftAlone` | internal/reconcile/reconciler.go:431-447 | a settled record is written only to clear its retries |
| `ReconcilePaths.ReplacementRecovers` | internal/reconcile/running_recovery.go:95-142 | a replaced container that answers clears the failures |
| `ReconcilePaths.ReplacementFails` | internal/reconcile/running_recovery.go:95-113 | one that cannot be replaced is a failure |
| `ReconcilePaths.DeletedSandboxIsTakenDown` | internal/reconcile/reconciler.go:374-427 | a deleted sandbox ends Terminated with neither container nor retries |
| `ReconcilePaths.DeletionFails` | internal/reconcile/reconciler.go:392-408 | a runtime that cannot be deleted is a failure on the way out |
| `ReconcilePaths.DueSandboxIsTakenDown` | internal/reconcile/reconciler.go:209-222 | the scanner takes a sandbox whose lease has run out all the way to Terminated, if the times are not inverted |
| `ReconcilePaths.ConcurrentDeleteIsHonored` | internal/reconcile/running_recovery.go:144-153 | a delete that overtakes the result of a health check is carried out by the same reconcile; any other conflict leaves everything alone |
| `ClientPaths.RenewalWrites` | internal/application/renew.go:16-58 | a lone renewal that is allowed and taken writes what was asked for, by the clock at its check; one that is not allowed writes nothing |
| `ClientPaths.DeleteWrites` | internal/application/sandbox_service.go:160-202 | a lone delete asks for termination at once, and leaves what is Terminated alone |
| `ClientPaths.TimerWrites` | internal/reconcile/ttl_expiration.go:47-81 | a lone timer terminates its sandbox if its own lease is the present one and has run out, and writes nothing otherwise |
| `ClientPaths.RepairsWrite` | internal/reconcile/reconciler.go:227-252 | a lone repair writes the container's ID; a lone report of drift writes Failed, only over a sandbox that is to run |
| `ClientPaths.LosersReadAgain` | internal/application/renew.go:16-58 | a renewal or timer that loses to another writer changes nothing and reads again while it has attempts left |
| `ClientPaths.DeleteReadsAgain` | internal/application/sandbox_service.go:160-202 | so does a delete |
| `Lifecycle.CreatedLeaseIsWithinPolicy` | internal/application/reliable_create.go:78-103 | a new lease is whole seconds within the policy, without overflow, and starts the protocol |
| `Lifecycle.LeaseResolvedExactly` | internal/application/reliable_create.go:78-103 | a create gets exactly the TTL it asked for, or the default, and is refused exactly for one that is not positive, not whole seconds, outside the policy or beyond the calendar |
| `TimerCoverage.IndexedIsCovered` | internal/reconcile/ttl_scheduler.go:58-110 | in every run an indexed active sandbox is in the index no later than the store says, or in a running callback, or its callback failed |
| `TimerCoverage.TimerIsNeverLate` | internal/reconcile/ttl_scheduler.go:58-110 | a sleeping loop with nothing announced wakes no later than the store's expiry of any indexed active sandbox |
| `TimerCoverage.CoveredExactly` | internal/reconcile/ttl_scheduler.go:58-110 | after every run of a running loop an active sandbox is covered if and only if recovery has ever indexed it |
| `TimerCoverage.CreatedLaterIsNeverCovered` | internal/reconcile/ttl_recovery.go:36-64 | a sandbox created after recovery has ended is never covered in any continuation |
| `TimerCoverage.NewSandboxIsNotCovered` | internal/reconcile/ttl_scheduler.go:58-110 | the run in which a lease runs out while the loop sleeps without an alarm |
| `TimerCoverage.TimersTerminateOnlyDue` | internal/reconcile/ttl_due_validator.go:51-87 | after every run, a scheduler thread that changes the store terminates a sandbox whose current lease is its entry's and has run out |
| `TimerCoverage.StaleOnlyReschedules` | internal/reconcile/ttl_due_validator.go:51-87 | after every run, a callback whose entry is stale or early ends, left to itself, with the store untouched and the store's lease in the index |
| `TimerCoverage.DueIsTerminated` | internal/reconcile/ttl_expiration.go:47-81 | left to itself a callback with a due lease terminates its sandbox and takes it out of the index, and nothing else |
| `TimerCoverage.LosersTryAgain` | internal/reconcile/ttl_expiration.go:47-81 | one that loses its commit starts over, and gives up only with its last attempt |
| `TimerCoverage.TwoLossesAreSurvived` | internal/reconcile/ttl_expiration.go:47-81 | a callback survives two lost commits |
| `TimerCoverage.RecoveryExpiresTheDue` | internal/reconcile/ttl_recovery.go:36-64 | recovery expires a lease that has run out instead of indexing it |
| `LeaseRecovery.Recover` | internal/reconcile/ttl_recovery.go:36-64 | the page loop over the real heap computes its specification, under every store answer |
| `LeaseRecovery.RecoveryIndexesEveryLease` | internal/reconcile/ttl_recovery.go:36-64 | over a fixed store it succeeds if and only if the leases are fewer than the pages hold, and then every lease after the clock is indexed as stored, every other active one is as its callback left it and nothing else changed |
| `LeaseRecovery.RecoveryEndsForCause` | internal/reconcile/ttl_recovery.go:36-64 | whatever the store answers, a recovery fails only for a failed listing, a record without expiry or out of order, a failed callback of a due lease, or too many pages |
| `LeaseRecovery.FullLastPageFails` | internal/reconcile/ttl_recovery.go:36-64 | the case of a last page that is exactly full |
| `EgressPolicy.NestedOrDisjoint` | internal/egresspolicy/policy.go:148-170 | two prefixes are nested or disjoint, and the inner loop's test tells which |
| `EgressPolicy.MaskedSame` | internal/egresspolicy/policy.go:125-134 | masking keeps the addresses and is idempotent |
| `EgressBuild.ContainsBlock` | internal/egresspolicy/policy.go:125-134 | a prefix contains exactly the block of 2^(host bits) addresses of its family that begins at its masked address, a multiple of that size |
| `Sorting.SortIsUnique` | internal/egresspolicy/policy.go:148-155 | for a total order the sorted list depends only on the multiset of its elements, whatever the sorting algorithm; used for prefixes, anomalies and completed executions |
| `Sorting.SortedSorts` | internal/reconcile/actual_inventory.go:264-274 | sorting rearranges and leaves nothing before an element in front of it |
| `EgressPolicy.Collapse` | internal/egresspolicy/policy.go:148-170 | the nested loops compute the list of kept prefixes |
| `EgressPolicy.CollapseIsMaximal` | internal/egresspolicy/policy.go:148-170 | of masked prefixes exactly the maximal ones, strictly ascending |
| `EgressPolicy.CollapseIsDisjoint` | internal/egresspolicy/policy.go:148-170 | no two results share an address |
| `EgressPolicy.CollapseKeepsAddresses` | internal/egresspolicy/policy.go:148-170 | not one address more or less is denied, masked or not |
| `EgressPolicy.CollapseIgnoresOrder` | internal/egresspolicy/policy.go:148-170 | permuting or repeating the input changes nothing |
| `EgressPolicy.CollapseFixedPoint` | internal/egresspolicy/policy.go:148-170 | exactly the strictly ascending lists without covered prefixes are unchanged |
| `EgressPolicy.SplitAndCollapse` | internal/egresspolicy/policy.go:136-146 | splits by family and collapses each |
| `EgressPolicy.Build` | internal/egresspolicy/policy.go:89-123 | reads baseline, configured CIDRs, subnets and gateways in order up to the first error, and builds the policy of all of them |
| `EgressPolicy.BuildDeniesExactly` | internal/egresspolicy/policy.go:89-123 | a built policy denies exactly the addresses of its inputs, family by family |
| `EgressBuild.BuildSucceedsExactly` | internal/egresspolicy/policy.go:89-134 | Build succeeds if and only if every configured CIDR and subnet is a parsed prefix and every gateway a parsed address, none 4-in-6, and every network has a subnet; otherwise which error it gives |
| `EgressBuild.BaselineExactly` | internal/egresspolicy/policy.go:25-31 | the baseline denies exactly the reserved IPv4 and IPv6 ranges, given by their first and last addresses |
| `EgressBuild.BuiltPolicyDeniesExactly` | internal/egresspolicy/policy.go:89-123 | a built policy denies an address if and only if it is reserved, in a configured CIDR, in some subnet of some network, or some gateway |
| `EgressBuild.MetadataIsAlwaysDenied` | internal/egresspolicy/policy.go:25-31 | 169.254.169.254 and ::1 are denied by every policy that is ever built |
| `EgressBuild.PublicIsNotDenied` | internal/egresspolicy/policy.go:25-31 | 8.8.8.8 is not denied unless asked for |
| `EgressPolicy.VerifiesExactly` | internal/egresspolicy/policy.go:35-52 | Verify accepts exactly the policies with current versions, matching hash and two canonical lists of one family each |
| `EgressPolicy.VerifiesMaskedExactly` | internal/egressnft/bootstrap.go:222-234 | on masked lists, the only ones the wire format admits, Verify accepts exactly what has the shape of a built policy |
| `EgressPolicy.VerifyAcceptsBuild` | internal/egresspolicy/policy.go:35-52 | everything Build produces is accepted, masked, and unchanged by another collapse |
| `EgressPolicy.VerifyMissesHostBits` | internal/egresspolicy/policy.go:35-52 | a policy with host bits that is accepted all the same |
| `Decimal.ParseFormat` | internal/runnerclient/stream.go:151-175 | reading back the decimal form of any 64-bit number gives the number |
| `Decimal.FormatIsInjective` | internal/runnerclient/stream.go:151-175 | a number has one canonical text |
| `Sse.WriteEvent` | internal/runner/sse_encoder.go:36-62 | the three lines of a valid event and a blank line, nothing for an invalid one |
| `Sse.ReadLine` | internal/runnerclient/stream.go:87-106 | joins buffer fragments into one line within the limit, and tells a failing transport from the end |
| `Sse.DecodeSSE` | internal/runnerclient/stream.go:34-85 | the decoding loop computes its specification, with what the consumer was given |
| `Sse.DecodeSafe` | internal/runnerclient/stream.go:34-175 | from every state on, what has been consumed is only extended and stays orderly |
| `Sse.ArbitraryInputIsSafe` | internal/runnerclient/stream.go:34-175 | on any bytes the consumer sees valid events of one execution, contiguous from one, nothing behind a terminal, and success only after a terminal |
| `Frames.LineTakenExactly` | internal/runnerclient/stream.go:108-149 | which lines a frame takes, both directions: comments among themselves, or each of the three fields once, within 128 KiB |
| `Frames.UnframedExactly` | internal/runnerclient/stream.go:151-175 | which finished frames are an event, and which a keepalive, both directions |
| `Frames.FrameDecodesExactly` | internal/runnerclient/stream.go:108-175 | lines decode to an event if and only if they are three in any order: its number in canonical form, its type's name and data that decodes to it |
| `Frames.LineReadExactly` | internal/runnerclient/stream.go:87-106 | a line is read if and only if it has at most 64 KiB with its line end, and then without it |
| `Frames.TypeNames` | pkg/protocol/events.go:61-101 | no two event types share a name on the wire |
| `Sse.RoundTrip` | internal/runner/sse_encoder.go:36-78 | a written stream with keepalives anywhere is read back exactly if and only if every data line is within the limit; otherwise the events before the first long one |
| `Sse.TruncationIsDetected` | internal/runnerclient/stream.go:34-85 | every truncation of a stream, with any number of keepalives behind its terminal event, yields an event prefix and is taken for complete if and only if the terminal frame has arrived but for its last line feed and no later keepalive is cut inside |
| `Sse.LostLineFeedIsAccepted` | internal/runnerclient/stream.go:34-85 | the case of a short stream without its last line feed |
| `Sse.LongLineIsRefused` | internal/runnerclient/stream.go:87-106 | the case of an output event that is too long |
| `Sse.PipeChunksFit` | internal/runner/pipe_reader.go:9-95 | no output event of a pipe chunk is too long for the decoder |
| `Inventory.AggregateActualResources` | internal/reconcile/actual_inventory.go:91-161 | the loops over the three kinds of observation compute one snapshot per ID, ascending, and the sorted unscoped anomalies |
| `Inventory.InventoryIsDeterministic` | internal/reconcile/actual_inventory.go:91-239 | every enumeration order of the same observations gives the same inventory |
| `Inventory.PermutedAlike` | internal/reconcile/actual_inventory.go:91-161 | permuted observations give groups with the same members |
| `Inventory.AlikeBuilt` | internal/reconcile/actual_inventory.go:163-192 | such groups give the same snapshot |
| `Inventory.CleanBundleAgrees` | internal/reconcile/actual_inventory.go:194-239 | a bundle without contradictions agrees on spec hash and ID |
| `Discovery.ContradictionsExactly` | internal/reconcile/actual_inventory.go:194-239 | which contradictions are reported of a bundle, anomaly by anomaly, both directions |
| `Discovery.SnapshotTells` | internal/reconcile/actual_inventory.go:91-192 | from the observations: a resource is in the snapshot if and only if it is the only one of its kind seen with the ID, and an anomaly is reported if and only if something seen is damaged or of no known role, seen twice, or contradicts the rest |
| `Discovery.StraysAreReported` | internal/reconcile/actual_inventory.go:108-146 | every resource without an ID is reported once, with its kind and issue |
| `Recovery.PlannedRepairIsAccepted` | internal/reconcile/metadata_repair.go:77-104 | a repair planned from an aggregated inventory passes the executor's validation of the unchanged record if and only if spec hash and container ID are not empty |
| `Recovery.PlannedExactly` | internal/reconcile/recovery_plan.go:54-126 | which action is planned for a stored record, by what has to be true of it, for every action, with the reason for a report and what the plan names |
| `Recovery.RepairAcceptedExactly` | internal/reconcile/metadata_repair.go:77-104 | what the executor accepts a repair for, both directions |
| `Recovery.ExhaustedRepairLostEachTime` | internal/reconcile/metadata_repair.go:43-75 | a repair gives up only when in each of its three attempts another writer came between |
| `Recovery.Row.Execute` | internal/reconcile/metadata_repair.go:43-75 | the three-attempt repair loop against any competitors computes its specification |
| `Recovery.RepairReplacesWhatItChecked` | internal/reconcile/metadata_repair.go:43-75 | a committed repair replaced a record that passed the whole validation and changed only its container ID |
| `Recovery.RepairConverges` | internal/reconcile/recovery_plan.go:54-126 | after a repair the same inventory asks for nothing more than a wake |
| `Recovery.PlannedRepairIsCarriedOut` | internal/reconcile/metadata_repair.go:43-104 | plan, execute, plan again without a competitor: commits at once unless hash or ID is empty, and converges |
| `Recovery.TerminatedIsNotRevived` | internal/reconcile/recovery_plan.go:54-126 | a Terminated record is never imported over; one that wants to run is only reported, and one that is Terminated on request is only woken to remove what is left of it |
| `Recovery.TerminatedIsRepairedExactly` | internal/reconcile/recovery_plan.go:95-126 | a record that is Terminated on request is repaired if and only if a trusted main container is left over under another ID; it stays Terminated, and planning again asks for the wake that removes the container |
| `Recovery.TerminatedCanBeRepaired` | internal/reconcile/recovery_plan.go:95-126 | the case of a left-over container c2 against a recorded c1 |
| `Recovery.OrphanIsImportedExactly` | internal/reconcile/actual_inventory.go:163-239 | from the observations to the plan: an orphan is imported if and only if exactly one main container, workspace and directory and at most one egress container were seen, nothing is damaged or contradictory, the container runs, the directory is there and a lease is recorded |
| `Recovery.OrphanPlannedExactly` | internal/reconcile/recovery_plan.go:54-92 | which action is planned for an orphan, and for what it is reported |
| `Recovery.OrphanExpiryExactly` | internal/reconcile/orphan_import.go:104-116 | which lease an orphan has: its manifest's if that is its own, else its container's labels', never a zero time, both directions |
| `Recovery.ImportedExactly` | internal/reconcile/orphan_import.go:51-102 | what is imported: to be run, or to be taken down exactly if the lease has run out by then |
| `Recovery.PlannedImportHasLease` | internal/reconcile/orphan_import.go:104-116 | a planned import finds its expiry if and only if the recorded time is not the zero time |
| `Recovery.ImportConverges` | internal/reconcile/orphan_import.go:51-102 | after an import the same inventory asks for exactly a wake |
| `Sweeps.Sweep` | internal/reconcile/candidate_sweeper.go:43-82 | the page loop computes its specification under every store answer |
| `Sweeps.SweepVisitsEachOnce` | internal/reconcile/candidate_sweeper.go:43-82 | over a fixed store a sweep that succeeds has given every ID once in order, and it succeeds if and only if they are fewer than the pages hold |
| `Sweeps.SweepEndsForCause` | internal/reconcile/candidate_sweeper.go:43-82 | whatever store and consumer answer, each way in which a sweep ends is met at a cursor of its own: a short page, a store error, a page too large or not going on, or a consumer error |
| `Sweeps.FullLastPageIsReported` | internal/reconcile/candidate_sweeper.go:43-82 | the case of a last page that is exactly full |
| `Sweeps.AnySweepAscends` | internal/reconcile/candidate_sweeper.go:43-82 | whatever the store answers, the consumer is given increasing IDs |
| `Sweeps.ScanOnce` | internal/reconcile/candidate_scanner.go:56-85 | wakes the first occurrence of each ID and fills the counters |
| `Sweeps.ScanWakesEachOnce` | internal/reconcile/candidate_scanner.go:56-85 | each ID is woken exactly once and the counters account for every ID |
| `Sweeps.SweepOnce` | internal/reconcile/idempotency_gc.go:52-77 | the loop computes its specification under every store answer: batches, errors, cursors that do not advance, and the end of the context |
| `Sweeps.AnyCollectionAdvances` | internal/reconcile/idempotency_gc.go:52-77 | whatever the store answers, the two-part cursors strictly increase, the total is what it said it deleted, and success means a batch that was not full |
| `Sweeps.FixedStoreIsEmptied` | internal/reconcile/idempotency_gc.go:52-77 | over a fixed store a sweep succeeds and deletes every record that may go |
| `Backoff.Clamp` | internal/reconcile/backoff.go:14-40 | clamping the attempt at 63 never changes the cap |
| `Backoff.Cap` | internal/reconcile/backoff.go:14-40 | the doubling loop in 64-bit arithmetic gives min(minimum * 2^attempt, maximum) without overflow |
| `Backoff.FullJitterBackoff` | internal/reconcile/backoff.go:14-40 | a delay is one more than what the random source gives for that cap, lies in (0, cap], and is refused if and only if the bounds or the source are out of range |

## Left out

- Docker, SQLite transactions and I/O errors, HTTP, WebSocket, PTY, file descriptors, permissions: every external call is a nondeterministic step or a parameter.
- Configuration loading, error and status mapping, metrics, logging, bootstrap wiring, port proxy, file service and the egress control framing and nft text: single checks or templates that would only add easy members.
- JSON is a parameter with the law in `Json.Lawful`; characters stand for bytes, base64 output data is raw bytes, and event timestamps are not modelled because nothing in these properties depends on them.
- SHA-256 of the egress policy is a function parameter; no collision property is claimed.
- Text parsing of CIDRs and addresses; a parsed prefix is assumed to be one `netip` can hold (no zones, no invalid zero value).
- The calendar digits of a stored instant are replaced by a padded count of seconds, which has the same width and order; instants before the year 1 are not modelled.
- The failure paths of the launcher before `supervise` starts, and the termination of cancel handlers that wait for channels only `supervise` closes.
- Go's scheduler and channel fairness: runs are arbitrary interleavings, and progress is stated as an always enabled step with a rank that goes down.
- Context cancellation inside `Sweep`, `Recover` and the store calls; a caller's context is modelled where it decides a protocol (event publishing, queue, keyed lock, arbiter requests).
- Worker panics and operation timeouts: in `Lifecycle` a reconcile may be aborted at any point.
- What `ScheduleRetry` chooses as the next time comes from the caller as a parameter; the reason, message and transition-time columns are not modelled.
- The store is modelled for a record that exists: creation conflicts, admission limits and the idempotency replay table are left out, and so is `ExpireEntry` for an ID the store does not know.
- `RebuildResolvedSpec` and the rebuilt spec of an imported orphan: the imported hash is taken from the main container; the replayed-import branch and the STATE_INVALID plan branch, which the model's types exclude, are left out.
- ProcessWait.WaitProcess: starts from a command, a start time and a clock that exist.
- Supervisor.EveryInterleavingIsSafe: says nothing about how long a drain or a kill takes, and models one execution at a time.
- Supervisor.ExecutionEnds: assumes that the pipes close; it is not a claim about processes that keep them open, and fairness of the scheduler is not modelled.
- Manager.ShutdownIsFinal: the end of the caller's context and the error of a single cancellation, with which `Shutdown` returns early, are left out; the wait loop appears as the condition on which it returns.
- TimerCoverage.IndexedIsCovered: only covers sandboxes that recovery has indexed; `TimerCoverage.CoveredExactly` shows that the others are not covered.
- A record without an expiry (NULL in the store, a nil `ExpiresAt`, which the validator reports as corrupt): every record of the model has one.
- LogPaging.ReadLog: asks that every event is readable, the general case being `LogPaging.ReadSucceedsExactly`, and that the page without events fits at the cursor, which every admitted limit gives below 10^19.
- Sse.PipeChunksFit: takes from JSON only that an output event is its base64 data and less than 21 KiB of other fields.
- Recovery.ImportConverges: says a wake for the record as imported, not what the reconcile it triggers then does.
