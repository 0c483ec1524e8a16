/** The goroutine that copies an execution's events into its log file
    (internal/runner/background_log_writer.go:125-196). What the file system answers is a parameter. */
module LogWriter {
  import opened Wrappers
  import opened EventStore
  import opened Json
  import LogPaging

  /** The answer of one `Write`: the count it reports and whether it reports an error. */
  datatype Answer = Answer(count: int, err: bool)

  function Clamped(count: int, size: nat): nat {
    if count < 0 then 0 else if count > size then size else count
  }

  class File {
    var content: string

    constructor ()
      ensures content == ""
    {
      content := "";
    }

    method Write(data: string, a: Answer) returns (count: int, ok: bool)
      modifies this
      ensures content == old(content) + data[..Clamped(a.count, |data|)]
      ensures count == a.count && ok == !a.err
    {
      content := content + data[..Clamped(a.count, |data|)];
      count, ok := a.count, !a.err;
    }
  }

  /** How many of `size` bytes reach the file, whether that counts as success, and the answers left. A file
      system that stops answering counts as failing. */
  function Sent(size: nat, answers: seq<Answer>): (nat, bool, seq<Answer>)
    ensures Sent(size, answers).0 <= size && (Sent(size, answers).1 ==> Sent(size, answers).0 == size)
    decreases answers
  {
    if size == 0 then (0, true, answers)
    else if answers == [] then (0, false, [])
    else
      var a := answers[0];
      if a.err || a.count <= 0 || a.count > size then (Clamped(a.count, size), false, answers[1..])
      else
        var (n, ok, left) := Sent(size - a.count, answers[1..]);
        (a.count + n, ok, left)
  }

  /** What the answers add up to. */
  function Sum(answers: seq<Answer>): int
    decreases answers
  {
    if answers == [] then 0 else answers[0].count + Sum(answers[1..])
  }

  /** Writes without an error that make progress and add up to exactly `size` bytes. */
  predicate Fill(answers: seq<Answer>, size: nat) {
    Sum(answers) == size && forall i :: 0 <= i < |answers| ==> !answers[i].err && answers[i].count > 0
  }

  lemma {:induction false} SumIsPositive(answers: seq<Answer>)
    requires forall i :: 0 <= i < |answers| ==> !answers[i].err && answers[i].count > 0
    ensures Sum(answers) >= |answers|
    decreases answers
  {
    if answers != [] {
      SumIsPositive(answers[1..]);
    }
  }

  /** Writing succeeds exactly when the file system's first answers, for however many writes, add up to the data
      without an error; then exactly these answers are used up. */
  lemma {:induction false} SentExactly(size: nat, answers: seq<Answer>, k: nat)
    requires k <= |answers|
    ensures Fill(answers[..k], size) ==> Sent(size, answers) == (size, true, answers[k..])
    ensures Sent(size, answers).1 ==> exists n :: 0 <= n <= |answers| && Fill(answers[..n], size)
    decreases answers
  {
    if size == 0 {
      assert Fill(answers[..0], 0);
      if Fill(answers[..k], 0) {
        SumIsPositive(answers[..k]);
      }
    } else if answers != [] {
      var a := answers[0];
      if k > 0 {
        assert answers[..k][1..] == answers[1..][..k-1] && answers[..k][0] == a;
        if Fill(answers[..k], size) {
          SumIsPositive(answers[1..][..k-1]);
        }
      }
      if !a.err && 0 < a.count <= size {
        SentExactly(size - a.count, answers[1..], if k > 0 then k - 1 else 0);
        if Sent(size, answers).1 {
          var n :| 0 <= n <= |answers[1..]| && Fill(answers[1..][..n], size - a.count);
          assert answers[..n+1][1..] == answers[1..][..n] && answers[..n+1][0] == a;
          assert Fill(answers[..n+1], size);
        }
      }
    }
  }

  lemma Spliced(before: string, data: string, sent: nat, n: nat)
    requires sent + n <= |data|
    ensures before + data[..sent] + data[sent..][..n] == before + data[..sent + n]
  {
    assert data[..sent] + data[sent..][..n] == data[..sent + n];
  }

  method WriteAll(file: File, data: string, answers: seq<Answer>) returns (ok: bool, left: seq<Answer>)
    modifies file
    ensures ok == Sent(|data|, answers).1 && left == Sent(|data|, answers).2
    ensures file.content == old(file.content) + data[..Sent(|data|, answers).0]
  {
    var sent := 0;
    left := answers;
    ghost var all := Sent(|data|, answers);
    assert old(file.content) + data[..0] == old(file.content);
    while sent < |data|
      invariant sent <= |data| && file.content == old(file.content) + data[..sent]
      invariant all == (sent + Sent(|data| - sent, left).0, Sent(|data| - sent, left).1, Sent(|data| - sent, left).2)
      decreases |data| - sent
    {
      if left == [] {
        return false, [];
      }
      var a := left[0];
      left := left[1..];
      Spliced(old(file.content), data, sent, Clamped(a.count, |data| - sent));
      var count, fine := file.Write(data[sent..], a);
      if !fine || count <= 0 || count > |data| - sent {
        return false, left;
      }
      sent := sent + count;
    }
    return true, left;
  }

  /** One look at the store: its events so far and whether it is terminal. */
  datatype Poll = Poll(events: seq<Event>, terminal: bool)

  /** The store only grows. */
  predicate Growing(polls: seq<Poll>) {
    forall i, j :: 0 <= i < j < |polls| ==> polls[i].events <= polls[j].events
  }

  datatype Ending = Complete | Waiting | BadEvent | WriteError | SyncError | CloseError | NoTerminal

  predicate Accepted(id: string, e: Event, expected: nat) {
    e.executionId == id && e.sequence == expected && ValidEvent(e)
  }

  /** The first `written` events are in the file, followed by a part of the next line. */
  ghost predicate Holds(json: Codec, content: string, events: seq<Event>, written: nat, torn: nat) {
    && written <= |events|
    && (torn > 0 ==> written < |events| && torn <= |json.marshal(events[written])| + 1)
    && content == LogPaging.Logged(json, events[..written]) +
                  if torn == 0 then "" else (json.marshal(events[written]) + "\n")[..torn]
  }

  /** The events written so far are exactly the ones the writer had to accept, none of them terminal. */
  predicate Copied(id: string, events: seq<Event>, written: nat) {
    && written <= |events|
    && forall i :: 0 <= i < written ==> Accepted(id, events[i], i + 1) && !events[i].kind.Terminal()
  }

  lemma {:induction false} LoggedOne(json: Codec, events: seq<Event>, e: Event)
    ensures LogPaging.Logged(json, events + [e]) == LogPaging.Logged(json, events) + (json.marshal(e) + "\n")
    decreases events
  {
    if events == [] {
      assert [e][1..] == [];
      assert [] + [e] == [e];
      assert LogPaging.Logged(json, [e]) == json.marshal(e) + "\n" + "";
    } else {
      LoggedOne(json, events[1..], e);
      assert (events + [e])[1..] == events[1..] + [e];
    }
  }

  /** A whole line more. */
  lemma HoldsOneMore(json: Codec, content: string, events: seq<Event>, written: nat)
    requires written < |events| && content == LogPaging.Logged(json, events[..written]) + (json.marshal(events[written]) + "\n")
    ensures Holds(json, content, events, written + 1, 0)
  {
    LoggedOne(json, events[..written], events[written]);
    assert events[..written + 1] == events[..written] + [events[written]];
    assert content + "" == content;
  }

  /** One event: checks it and appends its line. */
  method CopyEvent(id: string, json: Codec, events: seq<Event>, written: nat, file: File, answers: seq<Answer>)
    returns (ending: Ending, left: seq<Answer>, torn: nat)
    requires written < |events| && file.content == LogPaging.Logged(json, events[..written])
    modifies file
    ensures ending.Waiting? || ending.BadEvent? || ending.WriteError?
    ensures ending.BadEvent? <==> !Accepted(id, events[written], written + 1)
    ensures ending.Waiting? ==> torn == 0 && file.content == LogPaging.Logged(json, events[..written + 1])
    ensures !ending.Waiting? ==> Holds(json, file.content, events, written, torn)
    ensures !ending.BadEvent? ==> (ending.Waiting? <==> Sent(|json.marshal(events[written])| + 1, answers).1)
    ensures ending.Waiting? ==> left == Sent(|json.marshal(events[written])| + 1, answers).2
  {
    if !Accepted(id, events[written], written + 1) {
      assert file.content + "" == file.content;
      return BadEvent, answers, 0;
    }
    var line := json.marshal(events[written]) + "\n";
    ghost var n := Sent(|line|, answers).0;
    var ok;
    ok, left := WriteAll(file, line, answers);
    if !ok {
      torn := Sent(|line|, answers).0;
      assert n == 0 ==> line[..n] == "";
      return WriteError, left, torn;
    }
    assert line[..n] == line;
    HoldsOneMore(json, file.content, events, written);
    assert LogPaging.Logged(json, events[..written + 1]) + "" == LogPaging.Logged(json, events[..written + 1]);
    return Waiting, left, 0;
  }

  /** What each ending says about the events written. */
  predicate EndsWell(id: string, events: seq<Event>, written: nat, torn: nat, ending: Ending) {
    && written <= |events|
    && match ending
       case Waiting => torn == 0 && Copied(id, events, written)
       case NoTerminal => torn == 0 && Copied(id, events, written)
       case BadEvent => Copied(id, events, written) && written < |events| && !Accepted(id, events[written], written + 1)
       case WriteError => Copied(id, events, written) && written < |events| && Accepted(id, events[written], written + 1)
       case _ => && torn == 0 && written > 0 && Copied(id, events, written - 1)
                 && Accepted(id, events[written-1], written) && events[written-1].kind.Terminal()
  }

  /** A file that takes each of these lines in one write. */
  predicate TakesLines(json: Codec, events: seq<Event>, cursor: nat, answers: seq<Answer>) {
    && cursor <= |events| <= |answers| + cursor
    && forall i :: cursor <= i < |events| ==> answers[i - cursor] == Answer(|json.marshal(events[i])| + 1, false)
  }

  /** One answer has been used for each line. */
  predicate Taken(json: Codec, events: seq<Event>, cursor: nat, answers: seq<Answer>, written: nat, left: seq<Answer>) {
    && cursor <= written && written - cursor <= |answers| && left == answers[written - cursor..]
    && TakesLines(json, events, written, left)
  }

  lemma LineTaken(json: Codec, events: seq<Event>, cursor: nat, answers: seq<Answer>, written: nat, left: seq<Answer>)
    requires written < |events| && Taken(json, events, cursor, answers, written, left)
    ensures Sent(|json.marshal(events[written])| + 1, left) == (|json.marshal(events[written])| + 1, true, left[1..])
    ensures Taken(json, events, cursor, answers, written + 1, left[1..])
  {
  }

  /** The inner loop: everything one poll of the store shows behind the cursor; `Complete` means that the
      terminal event has been written. */
  method CopyPoll(id: string, json: Codec, events: seq<Event>, cursor: nat, file: File, answers: seq<Answer>)
    returns (ending: Ending, written: nat, torn: nat, left: seq<Answer>)
    requires Copied(id, events, cursor) && file.content == LogPaging.Logged(json, events[..cursor])
    modifies file
    ensures ending.Waiting? || ending.BadEvent? || ending.WriteError? || ending.Complete?
    ensures EndsWell(id, events, written, torn, ending) && Holds(json, file.content, events, written, torn)
    ensures ending.Waiting? ==> written == |events| && file.content == LogPaging.Logged(json, events[..written])
    ensures TakesLines(json, events, cursor, answers) ==>
              !ending.WriteError? && (ending.Waiting? ==> Taken(json, events, cursor, answers, written, left))
  {
    written, left, torn, ending := cursor, answers, 0, Waiting;
    ghost var takes := TakesLines(json, events, cursor, answers);
    while written < |events|
      invariant cursor <= written && Copied(id, events, written) && file.content == LogPaging.Logged(json, events[..written])
      invariant takes ==> Taken(json, events, cursor, answers, written, left)
      decreases |events| - written
    {
      if takes {
        LineTaken(json, events, cursor, answers, written, left);
      }
      ending, left, torn := CopyEvent(id, json, events, written, file, left);
      if !ending.Waiting? {
        return;
      }
      written := written + 1;
      if events[written-1].kind.Terminal() {
        assert file.content + "" == file.content;
        return Complete, written, 0, left;
      }
    }
    assert file.content + "" == file.content;
    return Waiting, written, 0, left;
  }

  function Latest(polls: seq<Poll>): seq<Event> {
    if polls == [] then [] else polls[|polls|-1].events
  }

  lemma HoldsLater(id: string, json: Codec, content: string, a: seq<Event>, b: seq<Event>, written: nat, torn: nat, ending: Ending)
    requires a <= b && EndsWell(id, a, written, torn, ending) && Holds(json, content, a, written, torn)
    ensures EndsWell(id, b, written, torn, ending) && Holds(json, content, b, written, torn)
  {
    assert a[..written] == b[..written];
  }

  /** Everything the store has shown so far is in the file, and it was not terminal. */
  ghost predicate UpToDate(id: string, json: Codec, content: string, events: seq<Event>, written: nat) {
    written == |events| && Copied(id, events, written) && content == LogPaging.Logged(json, events)
  }

  lemma UpToDateBehind(id: string, json: Codec, content: string, a: seq<Event>, b: seq<Event>, written: nat)
    requires UpToDate(id, json, content, a, written) && a <= b
    ensures Copied(id, b, written) && content == LogPaging.Logged(json, b[..written])
  {
    assert b[..written] == a;
  }

  lemma UpToDateHolds(id: string, json: Codec, content: string, events: seq<Event>, written: nat)
    requires UpToDate(id, json, content, events, written)
    ensures EndsWell(id, events, written, 0, Waiting) && Holds(json, content, events, written, 0)
  {
    assert events[..written] == events && content + "" == content;
  }

  lemma LatestGrows(polls: seq<Poll>, i: nat)
    requires Growing(polls) && i < |polls|
    ensures Latest(polls[..i]) <= polls[i].events <= Latest(polls) && Latest(polls[..i+1]) == polls[i].events
  {
  }

  /** What remains of a file that takes the lines of a log takes those of an earlier look at it. */
  lemma TakesEarlier(json: Codec, earlier: seq<Event>, all: seq<Event>, written: nat, answers: seq<Answer>)
    requires earlier <= all && TakesLines(json, all, 0, answers) && written <= |earlier|
    ensures TakesLines(json, earlier, written, answers[written..])
  {
  }

  /** The store is terminal as soon as its last event is, and not before. */
  predicate TerminalShown(polls: seq<Poll>) {
    forall p :: p in polls && p.terminal ==> p.events != [] && p.events[|p.events|-1].kind.Terminal()
  }

  /** A log that ends with its terminal event, in a store that shows it, on a file that takes every line. */
  predicate Healthy(id: string, json: Codec, polls: seq<Poll>, answers: seq<Answer>) {
    var events := Latest(polls);
    && LogPaging.LogOf(id, events) && events != [] && events[|events|-1].kind.Terminal()
    && TerminalShown(polls) && TakesLines(json, events, 0, answers)
  }

  /** What a healthy log and file mean for one poll. */
  lemma HealthyPoll(id: string, json: Codec, polls: seq<Poll>, answers: seq<Answer>, i: nat, written: nat)
    requires Healthy(id, json, polls, answers) && Growing(polls) && i < |polls| && written <= |polls[i].events|
    ensures TakesLines(json, polls[i].events, written, answers[written..])
    ensures forall j :: 0 <= j < |polls[i].events| ==> Accepted(id, polls[i].events[j], j + 1)
    ensures polls[i].terminal ==> !Copied(id, polls[i].events, |polls[i].events|)
  {
    LatestGrows(polls, i);
    TakesEarlier(json, polls[i].events, Latest(polls), written, answers);
    assert polls[i] in polls;
  }

  /** One turn of the loop: copies what the store shows now; `ending` is `Waiting` if it may show more. */
  method CopyLook(id: string, json: Codec, polls: seq<Poll>, i: nat, cursor: nat, file: File, answers: seq<Answer>, given: seq<Answer>)
    returns (ending: Ending, written: nat, torn: nat, left: seq<Answer>)
    requires Growing(polls) && i < |polls| && UpToDate(id, json, file.content, Latest(polls[..i]), cursor)
    requires Healthy(id, json, polls, answers) ==> cursor <= |answers| && given == answers[cursor..]
    modifies file
    ensures EndsWell(id, Latest(polls), written, torn, ending) && Holds(json, file.content, Latest(polls), written, torn)
    ensures !ending.SyncError? && !ending.CloseError?
    ensures ending.Waiting? ==> torn == 0 && UpToDate(id, json, file.content, polls[i].events, written) && !polls[i].terminal
    ensures Healthy(id, json, polls, answers) ==>
              ending.Complete? || (ending.Waiting? && written <= |answers| && left == answers[written..])
  {
    ghost var healthy := Healthy(id, json, polls, answers);
    LatestGrows(polls, i);
    UpToDateBehind(id, json, file.content, Latest(polls[..i]), polls[i].events, cursor);
    if healthy {
      HealthyPoll(id, json, polls, answers, i, cursor);
    }
    ending, written, torn, left := CopyPoll(id, json, polls[i].events, cursor, file, given);
    HoldsLater(id, json, file.content, polls[i].events, Latest(polls), written, torn, ending);
    if ending.Waiting? {
      assert polls[i].events[..written] == polls[i].events;
      if polls[i].terminal {
        ending := NoTerminal;
      }
    }
  }

  /** The writer, for as long as the store changes: the file always holds the whole lines of a prefix of
      the store's events and at most a torn part of the next line; it is complete exactly when the
      terminal event is in it, synced and closed, and a healthy file and log get there. */
  method Run(id: string, json: Codec, polls: seq<Poll>, file: File, answers: seq<Answer>, syncs: bool, closes: bool)
    returns (ending: Ending, written: nat, torn: nat)
    requires Growing(polls) && file.content == ""
    modifies file
    ensures EndsWell(id, Latest(polls), written, torn, ending) && Holds(json, file.content, Latest(polls), written, torn)
    ensures ending.Waiting? ==> written == |Latest(polls)| && forall p :: p in polls ==> !p.terminal
    ensures ending.Complete? ==> syncs && closes
    ensures ending.SyncError? ==> !syncs
    ensures ending.CloseError? ==> !closes
    ensures Healthy(id, json, polls, answers) && syncs && closes ==> ending.Complete?
  {
    written, torn, ending := 0, 0, Waiting;
    var left := answers;
    for i := 0 to |polls|
      invariant torn == 0 && ending.Waiting? && UpToDate(id, json, file.content, Latest(polls[..i]), written)
      invariant forall j :: 0 <= j < i ==> !polls[j].terminal
      invariant Healthy(id, json, polls, answers) ==> written <= |answers| && left == answers[written..]
    {
      LatestGrows(polls, i);
      ending, written, torn, left := CopyLook(id, json, polls, i, written, file, answers, left);
      if ending.Complete? {
        ending := if !syncs then SyncError else if !closes then CloseError else Complete;
        return;
      }
      if !ending.Waiting? {
        return;
      }
    }
    assert polls[..|polls|] == polls;
    UpToDateHolds(id, json, file.content, Latest(polls), written);
  }

  /** A log that is complete holds every event of the execution, so a client that follows it gets them all. */
  lemma CompleteHoldsAll(id: string, json: Codec, content: string, events: seq<Event>, written: nat, torn: nat)
    requires EndsWell(id, events, written, torn, Complete) && Holds(json, content, events, written, torn)
    requires LogPaging.LogOf(id, events)
    ensures content == LogPaging.Logged(json, events) && written == |events|
  {
    assert written == |events|;
    assert events[..written] == events;
    assert LogPaging.Logged(json, events) + "" == LogPaging.Logged(json, events);
  }

  /** At every ending the events that are in the file as whole lines are an orderly log of this execution: valid,
      numbered from one, with nothing behind a terminal event. So readers never meet anything else. */
  lemma WrittenIsLog(id: string, events: seq<Event>, written: nat, torn: nat, ending: Ending)
    requires EndsWell(id, events, written, torn, ending)
    ensures LogPaging.LogOf(id, events[..written])
  {
    var log := events[..written];
    forall i | 0 <= i < |log|
      ensures ValidEvent(log[i]) && log[i].sequence == i + 1 && log[i].executionId == id
      ensures i < |log| - 1 ==> !log[i].kind.Terminal()
    {
      assert Accepted(id, events[i], i + 1);
    }
  }
}
