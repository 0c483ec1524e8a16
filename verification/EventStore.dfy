/** The event store of one execution and the sequencer behind it
    (internal/runner/event_store.go, internal/runner/event_sequencer.go, pkg/protocol/events.go).
    Base64 is an exact encoding, so an output event carries the raw bytes here. */
module EventStore {
  import opened Wrappers

  type Byte = b: int | 0 <= b < 256

  datatype Kind = Started | Stdout | Stderr | LimitReached | Exited | Failed | Cancelled | TimedOut {
    predicate Terminal() { Exited? || Failed? || Cancelled? || TimedOut? }
    predicate Output() { Stdout? || Stderr? }
  }

  datatype Event = Event(
    executionId: string, sequence: nat, kind: Kind, data: seq<Byte>, exitCode: Option<int>,
    durationMs: Option<int>, truncated: Option<bool>, errorCode: string, message: string)

  /** `ExecutionEvent.Validate`. */
  predicate ValidEvent(e: Event) {
    var hasTerminal := e.durationMs.Some? && e.truncated.Some?;
    var hasNoTerminal := e.durationMs.None? && e.truncated.None?;
    var hasFailure := e.errorCode != "" || e.message != "";
    && e.executionId != "" && e.sequence != 0
    && (e.durationMs.Some? ==> e.durationMs.value >= 0)
    && match e.kind
       case Started => e.data == [] && e.exitCode.None? && hasNoTerminal && !hasFailure
       case LimitReached => e.data == [] && e.exitCode.None? && hasNoTerminal && !hasFailure
       case Stdout => e.data != [] && e.exitCode.None? && hasNoTerminal && !hasFailure
       case Stderr => e.data != [] && e.exitCode.None? && hasNoTerminal && !hasFailure
       case Exited => e.data == [] && e.exitCode.Some? && hasTerminal && !hasFailure
       case Failed => e.data == [] && e.exitCode.None? && hasTerminal && e.errorCode != "" && e.message != ""
       case Cancelled => e.data == [] && e.exitCode.None? && hasTerminal && !hasFailure
       case TimedOut => e.data == [] && e.exitCode.None? && hasTerminal && !hasFailure
  }

  function Draft(kind: Kind, data: seq<Byte>): Event {
    Event("", 0, kind, data, None, None, None, "", "")
  }

  datatype Stream = Out | Err
  datatype Chunk = Chunk(stream: Stream, data: seq<Byte>)

  function KindOf(stream: Stream): Kind {
    if stream.Out? then Stdout else Stderr
  }

  /** What a caller's context does while `Publish` talks to the sequencer goroutine: it stays live,
      is done before the request is handed over, or is done after the request was accepted but
      before the answer arrived. */
  datatype Ctx = Live | DoneBefore | DoneAfter

  /** The store's fields, with the sequencer's counter and whether the sequencer still runs. */
  datatype Log = Log(
    id: string, max: int, outputBytes: int, outputTruncated: bool, limitPublished: bool,
    terminal: bool, events: seq<Event>, sequence: nat, open: bool)

  function Empty(id: string, max: int): Log {
    Log(id, max, 0, false, false, false, [], 0, true)
  }

  /** `EventSequencer.sequenceEvent` for the next sequence number. */
  function Sequenced(id: string, sequence: nat, draft: Event): Option<Event> {
    var e := draft.(executionId := id, sequence := sequence);
    if draft.executionId != "" || draft.sequence != 0 then None
    else if draft.kind.Started? && sequence != 1 then None
    else if sequence == 1 && !draft.kind.Started? && !draft.kind.Failed? then None
    else if !ValidEvent(e) then None
    else Some(e)
  }

  /** `EventSequencer.Publish`: the counter advances when the sequencer accepted the draft, even if
      the caller has stopped listening for the answer. */
  function Published(s: Log, draft: Event, ctx: Ctx): (Log, Option<Event>) {
    var e := Sequenced(s.id, s.sequence + 1, draft);
    if !s.open || ctx.DoneBefore? || e.None? then (s, None)
    else (s.(sequence := s.sequence + 1), if ctx.DoneAfter? then None else e)
  }

  /** `PublishControl` as a function of the store's fields. */
  function ControlPublished(s: Log, draft: Event, ctx: Ctx): (Log, bool) {
    if s.terminal || (!draft.kind.Started? && !draft.kind.Terminal()) then (s, false)
    else
      var d := if draft.kind.Terminal() then draft.(truncated := Some(s.outputTruncated)) else draft;
      var (s', e) := Published(s, d, ctx);
      if e.None? then (s', false)
      else (s'.(events := s'.events + [e.value], terminal := s'.terminal || e.value.kind.Terminal()), true)
  }

  function Retained(s: Log, chunk: Chunk): int {
    if |chunk.data| > s.max - s.outputBytes then s.max - s.outputBytes else |chunk.data|
  }

  /** The first half of `AppendOutput`: the part of the chunk that still fits. */
  function DataAppended(s: Log, chunk: Chunk, ctx: Ctx): (Log, bool) {
    var retained := Retained(s, chunk);
    if retained <= 0 then (s, true)
    else
      var (s', e) := Published(s, Draft(KindOf(chunk.stream), chunk.data[..retained]), ctx);
      if e.None? then (s', false)
      else (s'.(events := s'.events + [e.value], outputBytes := s'.outputBytes + retained), true)
  }

  /** The second half: the truncation flag and the single limit event. */
  function LimitAppended(s: Log, ctx: Ctx): (Log, bool) {
    var flagged := s.(outputTruncated := true);
    if s.limitPublished then (flagged, true)
    else
      var (s', e) := Published(flagged, Draft(LimitReached, []), ctx);
      if e.None? then (s', false)
      else (s'.(events := s'.events + [e.value], limitPublished := true), true)
  }

  /** `AppendOutput` as a function of the store's fields; the context may end between its two publishes. */
  function OutputAppended(s: Log, chunk: Chunk, first: Ctx, second: Ctx): (Log, bool) {
    if s.terminal then (s, false)
    else
      var (s', ok) := DataAppended(s, chunk, first);
      if !ok then (s', false)
      else if |chunk.data| > s.max - s.outputBytes then LimitAppended(s', second)
      else (s', true)
  }

  class Store {
    const id: string
    const max: int
    var outputBytes: int
    var outputTruncated: bool
    var limitPublished: bool
    var terminal: bool
    var events: seq<Event>
    var sequence: nat
    var open: bool

    function View(): Log
      reads this
    {
      Log(id, max, outputBytes, outputTruncated, limitPublished, terminal, events, sequence, open)
    }

    constructor (id: string, max: int)
      requires id != "" && max > 0
      ensures View() == Empty(id, max)
    {
      this.id, this.max := id, max;
      outputBytes, outputTruncated, limitPublished, terminal := 0, false, false, false;
      events, sequence, open := [], 0, true;
    }

    method Publish(draft: Event, ctx: Ctx) returns (e: Option<Event>)
      modifies this`sequence
      ensures (View(), e) == Published(old(View()), draft, ctx)
    {
      if !open || ctx.DoneBefore? {
        return None;
      }
      e := Sequenced(id, sequence + 1, draft);
      if e.Some? {
        sequence := sequence + 1;
      }
      if ctx.DoneAfter? {
        e := None;
      }
    }

    method PublishControl(draft: Event, ctx: Ctx) returns (ok: bool)
      modifies this
      ensures (View(), ok) == ControlPublished(old(View()), draft, ctx)
    {
      if terminal || (!draft.kind.Started? && !draft.kind.Terminal()) {
        return false;
      }
      var d := draft;
      if d.kind.Terminal() {
        d := d.(truncated := Some(outputTruncated));
      }
      var e := Publish(d, ctx);
      if e.None? {
        return false;
      }
      events := events + [e.value];
      if e.value.kind.Terminal() {
        terminal := true;
      }
      return true;
    }

    method AppendOutput(chunk: Chunk, first: Ctx, second: Ctx) returns (ok: bool)
      modifies this
      ensures (View(), ok) == OutputAppended(old(View()), chunk, first, second)
    {
      if terminal {
        return false;
      }
      var remaining := max - outputBytes;
      var retained := |chunk.data|;
      var truncated := false;
      if retained > remaining {
        retained := remaining;
        truncated := true;
      }
      if retained > 0 {
        var e := Publish(Draft(KindOf(chunk.stream), chunk.data[..retained]), first);
        if e.None? {
          return false;
        }
        events := events + [e.value];
        outputBytes := outputBytes + retained;
      }
      ghost var mid := View();
      assert (mid, true) == DataAppended(old(View()), chunk, first);
      if truncated {
        outputTruncated := true;
        if !limitPublished {
          var e := Publish(Draft(LimitReached, []), second);
          if e.None? {
            return false;
          }
          events := events + [e.value];
          limitPublished := true;
        }
        assert (View(), true) == LimitAppended(mid, second);
      }
      return true;
    }

    /** `EventsAfter`: scans for the first event past the cursor and returns everything from there. */
    method EventsAfter(cursor: nat) returns (page: seq<Event>, isTerminal: bool)
      requires Numbered(View())
      ensures page == After(events, cursor) && isTerminal == terminal
    {
      var start := |events|;
      for i := 0 to |events|
        invariant start == |events| && i <= cursor
      {
        if events[i].sequence > cursor {
          start := i;
          break;
        }
      }
      page := events[start..];
      isTerminal := terminal;
    }

    method Close()
      modifies this`open
      ensures View() == old(View()).(open := false)
    {
      open := false;
    }
  }

  // ---------- Sequence numbers ----------

  /** Event i carries sequence i+1 of this execution, and the counter agrees with the list. */
  predicate Numbered(s: Log) {
    && s.sequence == |s.events|
    && forall i :: 0 <= i < |s.events| ==>
         s.events[i].sequence == i + 1 && s.events[i].executionId == s.id && ValidEvent(s.events[i])
  }

  function After(events: seq<Event>, cursor: nat): seq<Event> {
    if cursor <= |events| then events[cursor..] else []
  }

  /** The sequencer accepts the draft, but its caller has stopped listening. */
  predicate Abandoned(s: Log, draft: Event, ctx: Ctx) {
    s.open && ctx.DoneAfter? && Sequenced(s.id, s.sequence + 1, draft).Some?
  }

  /** A control publish keeps the numbering exactly unless it is abandoned: then a sequence number is spent on
      an event nobody stores. */
  lemma NumberingKeptExactly(s: Log, draft: Event, ctx: Ctx)
    requires Numbered(s) && !s.terminal && (draft.kind.Started? || draft.kind.Terminal())
    ensures Numbered(ControlPublished(s, draft, ctx).0) <==>
            !Abandoned(s, if draft.kind.Terminal() then draft.(truncated := Some(s.outputTruncated)) else draft, ctx)
  {
    var d := if draft.kind.Terminal() then draft.(truncated := Some(s.outputTruncated)) else draft;
    var (s', e) := Published(s, d, ctx);
    assert e.Some? ==> e.value.sequence == |s.events| + 1;
  }

  /** The draft of the part of a chunk that still fits. */
  function DataDraft(s: Log, c: Chunk): Event
    requires 0 <= Retained(s, c)
  {
    Draft(KindOf(c.stream), c.data[..Retained(s, c)])
  }

  /** One of the two publishes of an append is abandoned. */
  predicate AbandonsOutput(s: Log, c: Chunk, first: Ctx, second: Ctx) {
    || (Retained(s, c) > 0 && Abandoned(s, DataDraft(s, c), first))
    || (&& |c.data| > s.max - s.outputBytes
        && var (mid, ok) := DataAppended(s, c, first);
           ok && !mid.limitPublished && Abandoned(mid.(outputTruncated := true), Draft(LimitReached, []), second))
  }

  lemma DataNumbering(s: Log, c: Chunk, ctx: Ctx)
    requires Numbered(s)
    ensures Numbered(DataAppended(s, c, ctx).0) <==> Retained(s, c) <= 0 || !Abandoned(s, DataDraft(s, c), ctx)
    ensures DataAppended(s, c, ctx).1 ==> Numbered(DataAppended(s, c, ctx).0)
    ensures DataAppended(s, c, ctx).0.limitPublished == s.limitPublished
  {
    if Retained(s, c) > 0 {
      var (s', e) := Published(s, DataDraft(s, c), ctx);
      assert e.Some? ==> e.value.sequence == |s.events| + 1;
    }
  }

  lemma LimitNumbering(s: Log, ctx: Ctx)
    requires Numbered(s)
    ensures Numbered(LimitAppended(s, ctx).0) <==>
            s.limitPublished || !Abandoned(s.(outputTruncated := true), Draft(LimitReached, []), ctx)
  {
    var flagged := s.(outputTruncated := true);
    var (s', e) := Published(flagged, Draft(LimitReached, []), ctx);
    assert e.Some? ==> e.value.sequence == |s.events| + 1;
  }

  /** An append keeps the numbering exactly unless one of its two publishes is abandoned. */
  lemma OutputNumberingKeptExactly(s: Log, c: Chunk, first: Ctx, second: Ctx)
    requires Numbered(s) && !s.terminal
    ensures Numbered(OutputAppended(s, c, first, second).0) <==> !AbandonsOutput(s, c, first, second)
  {
    DataNumbering(s, c, first);
    var (mid, ok) := DataAppended(s, c, first);
    if ok {
      LimitNumbering(mid, second);
    }
  }

  // ---------- What is accepted ----------

  /** Validity by field instead of by kind: who has data, an exit code, an end, an error. */
  lemma ValidExactly(e: Event)
    ensures ValidEvent(e) <==>
            && e.executionId != "" && e.sequence > 0
            && (e.data != [] <==> e.kind.Stdout? || e.kind.Stderr?)
            && (e.exitCode.Some? <==> e.kind.Exited?)
            && (e.durationMs.Some? <==> e.kind.Exited? || e.kind.Failed? || e.kind.Cancelled? || e.kind.TimedOut?)
            && (e.truncated.Some? <==> e.durationMs.Some?)
            && (e.durationMs.Some? ==> e.durationMs.value >= 0)
            && (if e.kind.Failed? then e.errorCode != "" && e.message != "" else e.errorCode == "" && e.message == "")
  {
  }

  /** A draft as a caller may hand it in: not addressed, and with the fields of its kind. */
  predicate Wellformed(draft: Event) {
    draft.executionId == "" && draft.sequence == 0 && ValidEvent(draft.(executionId := "x", sequence := 1))
  }

  /** A live call of `PublishControl` succeeds exactly for a well-formed control draft on an open store that is not
      terminal, where `started`, or the failure of an execution that never started, is first and nothing else is; it
      then appends that draft, addressed, numbered and with the truncation flag, and nothing otherwise. */
  lemma ControlAcceptedExactly(s: Log, draft: Event)
    requires s.id != "" && s.sequence == |s.events|
    ensures var (s', ok) := ControlPublished(s, draft, Live);
            var flagged := draft.(truncated := if draft.kind.Terminal() then Some(s.outputTruncated) else draft.truncated);
            && (ok <==> && s.open && !s.terminal && Wellformed(flagged)
                        && (draft.kind.Started? || draft.kind.Terminal())
                        && (if s.events == [] then draft.kind.Started? || draft.kind.Failed? else !draft.kind.Started?))
            && (ok ==> s'.events == s.events + [flagged.(executionId := s.id, sequence := |s.events| + 1)]
                       && s'.sequence == |s'.events| && (s'.terminal <==> draft.kind.Terminal()))
            && (!ok ==> s' == s)
  {
  }

  /** A live append fails only on a store that is terminal, or that would have to publish something and is closed or
      has not published anything before. */
  lemma AppendAcceptedExactly(s: Log, c: Chunk)
    requires s.id != "" && s.sequence == |s.events| && 0 <= s.outputBytes <= s.max
    ensures var fits := s.max - s.outputBytes;
            var stores := c.data != [] && fits > 0;
            var limits := |c.data| > fits && !s.limitPublished;
            OutputAppended(s, c, Live, Live).1 <==> !s.terminal && (stores || limits ==> s.open && s.events != [])
  {
    if 0 < Retained(s, c) {
      ValidExactly(DataEvent(s, c));
    }
    ValidExactly(LimitEvent(s));
    ValidExactly(LimitEvent(DataAppended(s, c, Live).0));
  }

  /** The gap itself: `started` is abandoned after hand-over and the next event is number two. */
  lemma AbandonedPublishLeavesGap()
    ensures var s := ControlPublished(Empty("exec_1", 4), Draft(Started, []), DoneAfter).0;
            var failed := Draft(Failed, []).(durationMs := Some(0), errorCode := "E", message := "m");
            var s' := ControlPublished(s, failed, Live).0;
            |s'.events| == 1 && s'.events[0].sequence == 2
  {
  }

  // ---------- The output budget ----------

  /** The part of one chunk that a budget keeps: cut at the budget, and nothing empty. */
  function KeptOne(c: Chunk, budget: nat): seq<Chunk> {
    var n := if |c.data| > budget then budget else |c.data|;
    if n == 0 then [] else [Chunk(c.stream, c.data[..n])]
  }

  function Left(size: nat, budget: nat): nat {
    if size > budget then 0 else budget - size
  }

  /** What the budget keeps of a chunk history, in arrival order. */
  function Kept(chunks: seq<Chunk>, budget: nat): seq<Chunk>
    decreases chunks
  {
    if chunks == [] then []
    else KeptOne(chunks[0], budget) + Kept(chunks[1..], Left(|chunks[0].data|, budget))
  }

  function Bytes(chunks: seq<Chunk>): seq<Byte>
    decreases chunks
  {
    if chunks == [] then [] else chunks[0].data + Bytes(chunks[1..])
  }

  function PieceOf(e: Event): seq<Chunk> {
    if e.kind.Stdout? then [Chunk(Out, e.data)] else if e.kind.Stderr? then [Chunk(Err, e.data)] else []
  }

  /** The output events of a log, as chunks. */
  function Pieces(events: seq<Event>): seq<Chunk> {
    if events == [] then [] else Pieces(events[..|events|-1]) + PieceOf(events[|events|-1])
  }

  function Limits(events: seq<Event>): nat {
    if events == [] then 0
    else Limits(events[..|events|-1]) + if events[|events|-1].kind.LimitReached? then 1 else 0
  }

  lemma LogAppend(events: seq<Event>, e: Event)
    ensures Pieces(events + [e]) == Pieces(events) + PieceOf(e)
    ensures Limits(events + [e]) == Limits(events) + if e.kind.LimitReached? then 1 else 0
  {
    assert (events + [e])[..|events|] == events;
  }

  lemma {:induction false} BytesConcat(a: seq<Chunk>, b: seq<Chunk>)
    ensures Bytes(a + b) == Bytes(a) + Bytes(b)
    decreases a
  {
    if a == [] {
      assert a + b == b;
    } else {
      assert (a + b)[1..] == a[1..] + b;
      BytesConcat(a[1..], b);
    }
  }

  lemma KeptOneBytes(c: Chunk, budget: nat)
    ensures Bytes(KeptOne(c, budget)) == c.data[..if |c.data| > budget then budget else |c.data|]
  {
    var k := KeptOne(c, budget);
    if k != [] {
      assert k[1..] == [];
    }
  }

  /** The budget keeps exactly the first `budget` bytes in arrival order. */
  lemma {:induction false} KeptIsPrefix(chunks: seq<Chunk>, budget: nat)
    ensures Bytes(Kept(chunks, budget)) ==
            Bytes(chunks)[..if |Bytes(chunks)| < budget then |Bytes(chunks)| else budget]
    decreases chunks
  {
    if chunks != [] {
      KeptIsPrefix(chunks[1..], Left(|chunks[0].data|, budget));
      KeptOneBytes(chunks[0], budget);
      BytesConcat(KeptOne(chunks[0], budget), Kept(chunks[1..], Left(|chunks[0].data|, budget)));
    }
  }

  lemma {:induction false} KeptAppend(chunks: seq<Chunk>, c: Chunk, budget: nat)
    ensures Kept(chunks + [c], budget) == Kept(chunks, budget) + KeptOne(c, Left(|Bytes(chunks)|, budget))
    decreases chunks
  {
    if chunks == [] {
      assert chunks + [c] == [c];
      assert [c][1..] == [];
    } else {
      assert (chunks + [c])[1..] == chunks[1..] + [c];
      KeptAppend(chunks[1..], c, Left(|chunks[0].data|, budget));
    }
  }

  /** Order: numbered events that begin with `started`, at most one terminal event, last and carrying
      the truncation flag, and no output after the limit event. */
  predicate Ordered(s: Log) {
    && Numbered(s) && s.id != ""
    && |s.events| > 0 && s.events[0].kind.Started?
    && TerminalLast(s)
    && LimitAfterOutput(s.events)
  }

  predicate TerminalLast(s: Log) {
    && (forall i :: 0 <= i < |s.events| && s.events[i].kind.Terminal() ==>
          i == |s.events| - 1 && s.events[i].truncated == Some(s.outputTruncated))
    && (s.terminal <==> |s.events| > 0 && s.events[|s.events|-1].kind.Terminal())
  }

  predicate LimitAfterOutput(events: seq<Event>) {
    forall i, j :: 0 <= i < j < |events| && events[i].kind.LimitReached? ==> !events[j].kind.Output()
  }

  /** Budget: the exact output prefix of `chunks`, and one limit event exactly when bytes were dropped. */
  ghost predicate Spent(s: Log, chunks: seq<Chunk>) {
    && s.max > 0
    && Pieces(s.events) == Kept(chunks, s.max)
    && s.outputBytes == |Bytes(Pieces(s.events))| <= s.max
    && s.outputTruncated == s.limitPublished == (|Bytes(chunks)| > s.max)
    && Limits(s.events) == (if s.outputTruncated then 1 else 0)
  }

  /** The store after exactly `chunks` have been appended to it. */
  ghost predicate Accounts(s: Log, chunks: seq<Chunk>) {
    Ordered(s) && Spent(s, chunks)
  }

  /** `events` with `e` sequenced behind them. */
  function Pushed(s: Log, e: Event): Log {
    s.(events := s.events + [e], sequence := s.sequence + 1)
  }

  lemma PushedOrdered(s: Log, e: Event)
    requires Ordered(s) && !s.terminal
    requires e.sequence == |s.events| + 1 && e.executionId == s.id && ValidEvent(e)
    requires e.kind.Output() ==> forall i :: 0 <= i < |s.events| ==> !s.events[i].kind.LimitReached?
    requires e.kind.Terminal() ==> e.truncated == Some(s.outputTruncated)
    ensures Ordered(Pushed(s, e).(terminal := e.kind.Terminal()))
  {
  }

  lemma PushedSpent(s: Log, e: Event)
    ensures Pieces(Pushed(s, e).events) == Pieces(s.events) + PieceOf(e)
    ensures Limits(Pushed(s, e).events) == Limits(s.events) + if e.kind.LimitReached? then 1 else 0
  {
    LogAppend(s.events, e);
  }

  lemma {:induction false} LimitsZero(events: seq<Event>)
    requires Limits(events) == 0
    ensures forall i :: 0 <= i < |events| ==> !events[i].kind.LimitReached?
  {
    if events != [] {
      LimitsZero(events[..|events|-1]);
    }
  }

  lemma StartedAccounts(id: string, max: int)
    requires id != "" && max > 0
    ensures var (s, ok) := ControlPublished(Empty(id, max), Draft(Started, []), Live);
            ok && Accounts(s, []) && !s.terminal && s.open
  {
    var e := Draft(Started, []).(executionId := id, sequence := 1);
    var s := ControlPublished(Empty(id, max), Draft(Started, []), Live).0;
    assert s == Pushed(Empty(id, max), e);
    PushedSpent(Empty(id, max), e);
  }

  /** The sequenced event for the retained part of a chunk. */
  function DataEvent(s: Log, c: Chunk): Event
    requires 0 <= s.outputBytes <= s.max
  {
    Draft(KindOf(c.stream), c.data[..Retained(s, c)]).(executionId := s.id, sequence := |s.events| + 1)
  }

  function LimitEvent(s: Log): Event {
    Draft(LimitReached, []).(executionId := s.id, sequence := |s.events| + 1)
  }

  /** The data half of an append on a live store: nothing, or one event with the retained part. */
  function WithData(s: Log, c: Chunk): Log
    requires 0 <= s.outputBytes <= s.max
  {
    if Retained(s, c) == 0 then s
    else Pushed(s, DataEvent(s, c)).(outputBytes := s.outputBytes + Retained(s, c))
  }

  /** The limit half on a live store: the flag, and the limit event when it is still missing. */
  function WithLimit(s: Log): Log {
    (if s.limitPublished then s else Pushed(s, LimitEvent(s))).(outputTruncated := true, limitPublished := true)
  }

  lemma AppendOnLive(s: Log, c: Chunk)
    requires Ordered(s) && s.open && !s.terminal && 0 <= s.outputBytes <= s.max
    ensures var mid := WithData(s, c);
            OutputAppended(s, c, Live, Live) ==
            (if |c.data| > s.max - s.outputBytes then WithLimit(mid) else mid, true)
  {
    assert Retained(s, c) > 0 ==> ValidEvent(DataEvent(s, c));
    assert DataAppended(s, c, Live) == (WithData(s, c), true);
    var mid := WithData(s, c);
    assert ValidEvent(LimitEvent(mid));
    assert LimitAppended(mid, Live) == (WithLimit(mid), true);
  }

  lemma DataOrdered(s: Log, c: Chunk)
    requires Ordered(s) && !s.terminal && 0 <= s.outputBytes <= s.max
    requires s.outputBytes < s.max ==> Limits(s.events) == 0
    ensures Ordered(WithData(s, c)) && !WithData(s, c).terminal
  {
    if Retained(s, c) > 0 {
      LimitsZero(s.events);
      PushedOrdered(s, DataEvent(s, c));
      assert Pushed(s, DataEvent(s, c)).(terminal := false) == Pushed(s, DataEvent(s, c));
    }
  }

  lemma LimitOrdered(s: Log)
    requires Ordered(s) && !s.terminal
    ensures Ordered(WithLimit(s)) && !WithLimit(s).terminal
  {
    var flagged := s.(outputTruncated := true, limitPublished := true);
    assert Ordered(flagged);
    if !s.limitPublished {
      PushedOrdered(flagged, LimitEvent(s));
      assert Pushed(flagged, LimitEvent(s)).(terminal := false) == WithLimit(s);
    }
  }

  /** What the budget keeps of one more chunk, measured by what it has already kept. */
  lemma KeptStep(chunks: seq<Chunk>, c: Chunk, budget: nat)
    ensures |Bytes(Kept(chunks, budget))| <= budget
    ensures var one := KeptOne(c, budget - |Bytes(Kept(chunks, budget))|);
            && Kept(chunks + [c], budget) == Kept(chunks, budget) + one
            && |Bytes(Kept(chunks + [c], budget))| == |Bytes(Kept(chunks, budget))| + |Bytes(one)|
  {
    KeptIsPrefix(chunks, budget);
    KeptAppend(chunks, c, budget);
    BytesConcat(Kept(chunks, budget), KeptOne(c, budget - |Bytes(Kept(chunks, budget))|));
  }

  /** The data event carries exactly what the budget keeps of its chunk. */
  lemma DataEventKept(s: Log, c: Chunk)
    requires 0 <= s.outputBytes <= s.max
    ensures var one := KeptOne(c, s.max - s.outputBytes);
            && |Bytes(one)| == Retained(s, c)
            && one == (if Retained(s, c) == 0 then [] else PieceOf(DataEvent(s, c)))
  {
    KeptOneBytes(c, s.max - s.outputBytes);
  }

  lemma WithDataPieces(s: Log, c: Chunk)
    requires 0 <= s.outputBytes <= s.max
    ensures Pieces(WithData(s, c).events) == Pieces(s.events) + KeptOne(c, s.max - s.outputBytes)
    ensures Limits(WithData(s, c).events) == Limits(s.events)
    ensures WithData(s, c).outputBytes == s.outputBytes + |Bytes(KeptOne(c, s.max - s.outputBytes))|
  {
    DataEventKept(s, c);
    if Retained(s, c) > 0 {
      PushedSpent(s, DataEvent(s, c));
    }
  }

  /** After the data half the pieces already account for the new chunk; the limit count has not moved. */
  lemma DataSpent(s: Log, chunks: seq<Chunk>, c: Chunk)
    requires s.max > 0 && Pieces(s.events) == Kept(chunks, s.max)
    requires s.outputBytes == |Bytes(Pieces(s.events))| <= s.max
    ensures Pieces(WithData(s, c).events) == Kept(chunks + [c], s.max)
    ensures WithData(s, c).outputBytes == |Bytes(Pieces(WithData(s, c).events))|
    ensures Limits(WithData(s, c).events) == Limits(s.events)
  {
    assert s.outputBytes == |Bytes(Kept(chunks, s.max))|;
    KeptStep(chunks, c, s.max);
    WithDataPieces(s, c);
  }

  lemma SizeKept(chunks: seq<Chunk>, c: Chunk, budget: nat)
    ensures |Bytes(Kept(chunks, budget))| == if |Bytes(chunks)| < budget then |Bytes(chunks)| else budget
    ensures |Bytes(chunks + [c])| == |Bytes(chunks)| + |c.data|
  {
    KeptIsPrefix(chunks, budget);
    BytesConcat(chunks, [c]);
    assert |Bytes([c])| == |c.data|;
  }

  /** The limit half leaves the pieces alone and brings the limit count to one. */
  lemma WithLimitPieces(s: Log)
    requires Limits(s.events) == (if s.limitPublished then 1 else 0)
    ensures Pieces(WithLimit(s).events) == Pieces(s.events) && Limits(WithLimit(s).events) == 1
  {
    if !s.limitPublished {
      PushedSpent(s, LimitEvent(s));
      assert PieceOf(LimitEvent(s)) == [];
    }
  }

  /** The whole append, as far as the budget is concerned. */
  lemma AppendSpent(s: Log, chunks: seq<Chunk>, c: Chunk)
    requires Spent(s, chunks)
    ensures var mid := WithData(s, c);
            Spent(if |c.data| > s.max - s.outputBytes then WithLimit(mid) else mid, chunks + [c])
  {
    DataSpent(s, chunks, c);
    SizeKept(chunks, c, s.max);
    SizeKept(chunks + [c], c, s.max);
    if |c.data| > s.max - s.outputBytes {
      WithLimitPieces(WithData(s, c));
    }
  }

  /** Appending a chunk to a live store never fails and extends the accounted history by it. */
  lemma AppendAccounts(s: Log, chunks: seq<Chunk>, c: Chunk)
    requires Accounts(s, chunks) && s.open && !s.terminal
    ensures var (s', ok) := OutputAppended(s, c, Live, Live);
            && ok && Accounts(s', chunks + [c]) && s.events <= s'.events
            && s'.open && !s'.terminal && s'.id == s.id && s'.max == s.max
  {
    AppendOnLive(s, c);
    AppendSpent(s, chunks, c);
    SizeKept(chunks, c, s.max);
    DataOrdered(s, c);
    LimitOrdered(WithData(s, c));
  }

  /** A draft that `publishWinner` may build: a terminal kind with that kind's own fields. */
  predicate TerminalDraft(d: Event) {
    && d.kind.Terminal() && d.executionId == "" && d.sequence == 0
    && ValidEvent(d.(executionId := "x", sequence := 1, truncated := Some(false)))
  }

  /** A terminal draft always ends a live accounted history, carrying the truncation flag. */
  lemma TerminalAccounts(s: Log, chunks: seq<Chunk>, draft: Event)
    requires Accounts(s, chunks) && s.open && !s.terminal && TerminalDraft(draft)
    ensures var (s', ok) := ControlPublished(s, draft, Live);
            && ok && Accounts(s', chunks)
            && s' == Pushed(s, draft.(executionId := s.id, sequence := |s.events| + 1,
                                      truncated := Some(s.outputTruncated))).(terminal := true)
  {
    var e := draft.(executionId := s.id, sequence := |s.events| + 1, truncated := Some(s.outputTruncated));
    assert ValidEvent(e);
    assert ControlPublished(s, draft, Live) == (Pushed(s, e).(terminal := true), true);
    PushedOrdered(s, e);
    PushedSpent(s, e);
  }

  /** The last event is terminal and of this kind. */
  predicate Terminal(s: Log, kind: Kind) {
    |s.events| > 0 && kind.Terminal() && s.events[|s.events|-1].kind == kind
  }

  lemma ClosedAccounts(s: Log, chunks: seq<Chunk>)
    requires Accounts(s, chunks)
    ensures Accounts(s.(open := false), chunks)
  {
  }

  // ---------- Cursor consumers ----------

  /** One poll of a consumer: the store has grown to `log`, and it takes everything past its cursor. */
  function Polled(got: seq<Event>, log: seq<Event>): seq<Event> {
    got + After(log, |got|)
  }

  function PolledAll(got: seq<Event>, logs: seq<seq<Event>>): seq<Event>
    decreases logs
  {
    if logs == [] then got else PolledAll(Polled(got, logs[0]), logs[1..])
  }

  /** A consumer that follows its cursor while the store grows always holds a gap-free prefix of
      the log without duplicates, and has everything the last snapshot held. */
  lemma {:induction false} ConsumerHoldsPrefix(got: seq<Event>, logs: seq<seq<Event>>)
    requires forall i :: 0 <= i < |logs| - 1 ==> logs[i] <= logs[i+1]
    requires |logs| > 0 && got <= logs[0]
    ensures PolledAll(got, logs) == logs[|logs|-1]
    decreases logs
  {
    assert Polled(got, logs[0]) == logs[0];
    if |logs| > 1 {
      ConsumerHoldsPrefix(logs[0], logs[1..]);
    }
  }
}
