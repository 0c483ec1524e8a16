/** The runner's event stream: frames written by the encoder and read back by the strict client decoder
    (internal/runner/sse_encoder.go:36-78, internal/runnerclient/stream.go). Characters stand for bytes and
    JSON is a parameter. */
module Sse {
  import opened Wrappers
  import opened Decimal
  import opened EventStore
  import opened Json

  const MAX_LINE := 65536
  const MAX_FRAME := 131072

  /** JSON, and whether the consumer takes an event. */
  datatype Env = Env(json: Codec, takes: Event -> bool)

  function TypeName(k: Kind): string {
    match k
    case Started => "started"
    case Stdout => "stdout"
    case Stderr => "stderr"
    case LimitReached => "output_limit_reached"
    case Exited => "exited"
    case Failed => "failed"
    case Cancelled => "cancelled"
    case TimedOut => "timed_out"
  }

  // ---------- The encoder ----------

  const KEEPALIVE := ": keepalive\n\n"

  /** The bytes of an event frame. */
  function EventFrame(env: Env, e: Event): string {
    "id: " + Format(e.sequence) + "\n" + "event: " + TypeName(e.kind) + "\n" + "data: " + env.json.marshal(e) + "\n\n"
  }

  /** `WriteEvent`: builds the frame by successive appends; None when the event is refused. */
  method WriteEvent(env: Env, e: Event) returns (frame: Option<string>)
    ensures frame == if ValidEvent(e) then Some(EventFrame(env, e)) else None
  {
    if e.sequence == 0 || !ValidEvent(e) {
      return None;
    }
    var bytes := "id: ";
    bytes := bytes + Format(e.sequence);
    bytes := bytes + "\n";
    bytes := bytes + "event: ";
    bytes := bytes + TypeName(e.kind);
    bytes := bytes + "\n";
    bytes := bytes + "data: ";
    bytes := bytes + env.json.marshal(e);
    bytes := bytes + "\n\n";
    return Some(bytes);
  }

  // ---------- The decoder ----------

  /** `sseFrame`; the has-flags are the options. */
  datatype Frame = Frame(id: Option<string>, event: Option<string>, data: Option<string>, commentOnly: bool, bytes: nat)

  const NO_FRAME := Frame(None, None, None, false, 0)

  /** `strings.Cut(value, ":")`. */
  function ColonAt(s: string): nat
    ensures ColonAt(s) <= |s|
  {
    if s == "" || s[0] == ':' then 0 else 1 + ColonAt(s[1..])
  }

  function TrimSpace(s: string): string {
    if |s| > 0 && s[0] == ' ' then s[1..] else s
  }

  /** `appendSSELine`. */
  function Appended(f: Frame, line: string): Option<Frame> {
    var g := f.(bytes := f.bytes + |line| + 1);
    if |line| > MAX_FRAME - f.bytes then None
    else if |line| > 0 && line[0] == ':' then
      if f.id.Some? || f.event.Some? || f.data.Some? then None else Some(g.(commentOnly := true))
    else if f.commentOnly then None
    else if ColonAt(line) == |line| then None
    else
      var name, value := line[..ColonAt(line)], TrimSpace(line[ColonAt(line) + 1..]);
      if name == "id" then if f.id.Some? then None else Some(g.(id := Some(value)))
      else if name == "event" then if f.event.Some? then None else Some(g.(event := Some(value)))
      else if name == "data" then if f.data.Some? then None else Some(g.(data := Some(value)))
      else None
  }

  datatype Unframed = Keepalive | Decoded(event: Event) | Malformed

  predicate Missing(field: Option<string>) {
    field.None? || field.value == ""
  }

  /** `decodeSSEFrame`. */
  function Unframe(env: Env, f: Frame): Unframed {
    if f.commentOnly && f.id.None? && f.event.None? && f.data.None? then Keepalive
    else if Missing(f.id) || Missing(f.event) || Missing(f.data) then Malformed
    else
      var sequence := Parse(f.id.value);
      if sequence.None? || Format(sequence.value) != f.id.value then Malformed
      else
        var e := env.json.unmarshal(f.data.value);
        if e.None? || e.value.sequence != sequence.value || TypeName(e.value.kind) != f.event.value then Malformed
        else Decoded(e.value)
  }

  /** The variables of `DecodeSSE`; `consumed` is what the consumer has seen. */
  datatype State = State(frame: Frame, executionId: string, expected: nat, terminal: bool, consumed: seq<Event>)

  const START := State(NO_FRAME, "", 1, false, [])

  datatype Fed = Next(state: State) | Bad | Refused(consumed: seq<Event>)

  /** A blank line: the end of a frame. */
  function Ended(env: Env, s: State): Fed {
    if s.frame.bytes == 0 then Next(s)
    else
      match Unframe(env, s.frame)
      case Malformed => Bad
      case Keepalive => Next(s.(frame := NO_FRAME))
      case Decoded(e) =>
        if s.terminal || e.sequence != s.expected || (s.executionId != "" && e.executionId != s.executionId) then Bad
        else if !env.takes(e) then Refused(s.consumed + [e])
        else Next(State(NO_FRAME, if s.executionId == "" then e.executionId else s.executionId,
                        s.expected + 1, e.kind.Terminal(), s.consumed + [e]))
  }

  function Feed(env: Env, s: State, line: string): Fed {
    if line == "" then Ended(env, s)
    else
      var f := Appended(s.frame, line);
      if f.None? then Bad else Next(s.(frame := f.value))
  }

  /** Where the next line ends: after its LF, or at the end of the stream. */
  function LineEnd(rest: string): nat
    ensures LineEnd(rest) <= |rest|
  {
    if rest == "" then 0 else if rest[0] == '\n' then 1 else 1 + LineEnd(rest[1..])
  }

  predicate HasLF(rest: string) {
    LineEnd(rest) > 0 && rest[LineEnd(rest) - 1] == '\n'
  }

  function TrimSuffix(s: string, c: char): string {
    if |s| > 0 && s[|s|-1] == c then s[..|s|-1] else s
  }

  /** `readSSELine`: the next line without its line end, unless it is too long. */
  function NextLine(rest: string): Option<string> {
    if LineEnd(rest) > MAX_LINE then None
    else Some(TrimSuffix(TrimSuffix(rest[..LineEnd(rest)], '\n'), '\r'))
  }

  datatype Outcome = Success | Mismatch | ConsumerError

  /** `DecodeSSE` from a state on; `failing` says that the transport fails instead of ending. */
  function Decode(env: Env, rest: string, failing: bool, s: State): (Outcome, seq<Event>)
    decreases |rest|
  {
    var line := NextLine(rest);
    if line.None? || (failing && !HasLF(rest)) then (Mismatch, s.consumed)
    else
      match Feed(env, s, line.value)
      case Bad => (Mismatch, s.consumed)
      case Refused(consumed) => (ConsumerError, consumed)
      case Next(s') =>
        if HasLF(rest) then Decode(env, rest[LineEnd(rest)..], failing, s')
        else if s'.frame.bytes != 0 || s'.consumed == [] || !s'.terminal then (Mismatch, s'.consumed)
        else (Success, s'.consumed)
  }

  const BUFFER := 4096

  /** `readSSELine`: reads one line in fragments of the reader's buffer, and says whether the stream ended
      before a LF. None is the error of a line over the limit or of a failing transport. */
  method ReadLine(rest: string, failing: bool) returns (line: Option<string>, eof: bool)
    ensures failing && !HasLF(rest) ==> line.None?
    ensures !(failing && !HasLF(rest)) ==> line == NextLine(rest) && (line.Some? ==> eof == !HasLF(rest))
  {
    var bytes := "";
    while true
      invariant |bytes| <= LineEnd(rest) && bytes == rest[..|bytes|]
      invariant |bytes| <= MAX_LINE
      decreases LineEnd(rest) - |bytes|
    {
      var end := LineEnd(rest);
      var full := end - |bytes| > BUFFER;
      var fragment := if full then rest[|bytes|..|bytes| + BUFFER] else rest[|bytes|..end];
      if |fragment| > MAX_LINE - |bytes| {
        return None, false;
      }
      bytes := bytes + fragment;
      assert bytes == rest[..|bytes|];
      if full {
        continue;
      }
      eof := !HasLF(rest);
      if failing && eof {
        return None, eof;
      }
      return Some(TrimSuffix(TrimSuffix(bytes, '\n'), '\r')), eof;
    }
  }

  method DecodeSSE(env: Env, stream: string, failing: bool) returns (outcome: Outcome, consumed: seq<Event>)
    ensures (outcome, consumed) == Decode(env, stream, failing, START)
  {
    var rest, s := stream, START;
    while true
      invariant Decode(env, rest, failing, s) == Decode(env, stream, failing, START)
      decreases |rest|
    {
      var line, eof := ReadLine(rest, failing);
      if line.None? {
        return Mismatch, s.consumed;
      }
      var fed := Feed(env, s, line.value);
      if fed.Bad? {
        return Mismatch, s.consumed;
      }
      if fed.Refused? {
        return ConsumerError, fed.consumed;
      }
      s := fed.state;
      if eof {
        if s.frame.bytes != 0 || s.consumed == [] || !s.terminal {
          return Mismatch, s.consumed;
        }
        return Success, s.consumed;
      }
      rest := rest[LineEnd(rest)..];
    }
  }

  // ---------- Safety on arbitrary input ----------

  /** What a consumer may ever see: valid events of one execution, numbered from one, with nothing after
      a terminal event. */
  predicate Orderly(events: seq<Event>) {
    && (forall i :: 0 <= i < |events| ==> ValidEvent(events[i]) && events[i].sequence == i + 1)
    && (forall i :: 0 <= i < |events| ==> events[i].executionId == events[0].executionId)
    && (forall i :: 0 <= i < |events| - 1 ==> !events[i].kind.Terminal())
  }

  predicate IsOver(events: seq<Event>) {
    events != [] && events[|events|-1].kind.Terminal()
  }

  predicate StateInv(s: State) {
    && Orderly(s.consumed) && s.expected == |s.consumed| + 1
    && s.executionId == (if s.consumed == [] then "" else s.consumed[0].executionId)
    && s.terminal == IsOver(s.consumed)
  }

  lemma OrderlyExtends(events: seq<Event>, e: Event)
    requires Orderly(events) && !IsOver(events)
    requires ValidEvent(e) && e.sequence == |events| + 1
    requires events == [] || events[0].executionId == "" || e.executionId == events[0].executionId
    ensures Orderly(events + [e]) && IsOver(events + [e]) == e.kind.Terminal()
    ensures (events + [e])[0].executionId == if events == [] then e.executionId else events[0].executionId
  {
  }

  lemma FeedSafe(env: Env, s: State, line: string)
    requires Lawful(env.json) && StateInv(s)
    ensures var fed := Feed(env, s, line);
            && (fed.Refused? ==> Orderly(fed.consumed) && s.consumed < fed.consumed)
            && (fed.Next? ==> StateInv(fed.state) && s.consumed <= fed.state.consumed)
  {
    if line == "" && s.frame.bytes > 0 && Unframe(env, s.frame).Decoded? {
      var e := Unframe(env, s.frame).event;
      assert env.json.unmarshal(s.frame.data.value).Some?;
      if !s.terminal && e.sequence == s.expected && (s.executionId == "" || e.executionId == s.executionId) {
        OrderlyExtends(s.consumed, e);
      }
    }
  }

  /** Whatever arrives, the consumer sees an orderly list, and success means that a terminal event was the
      last thing it saw. */
  lemma {:induction false} DecodeSafe(env: Env, rest: string, failing: bool, s: State)
    requires Lawful(env.json) && StateInv(s)
    ensures var (outcome, consumed) := Decode(env, rest, failing, s);
            && Orderly(consumed) && s.consumed <= consumed
            && (outcome.Success? ==> IsOver(consumed) && !failing)
    decreases |rest|
  {
    if NextLine(rest).Some? {
      FeedSafe(env, s, NextLine(rest).value);
      if HasLF(rest) && Feed(env, s, NextLine(rest).value).Next? {
        DecodeSafe(env, rest[LineEnd(rest)..], failing, Feed(env, s, NextLine(rest).value).state);
      }
    }
  }

  lemma ArbitraryInputIsSafe(env: Env, stream: string, failing: bool)
    requires Lawful(env.json)
    ensures var (outcome, consumed) := Decode(env, stream, failing, START);
            Orderly(consumed) && (outcome.Success? ==> IsOver(consumed) && !failing)
  {
    DecodeSafe(env, stream, failing, START);
  }

  // ---------- Reading back what was written ----------

  predicate Clean(line: string) {
    '\n' !in line && '\r' !in line
  }

  lemma {:induction false} LineEndOf(line: string, rest: string)
    requires '\n' !in line
    ensures LineEnd(line + "\n" + rest) == |line| + 1
    decreases |line|
  {
    var all := line + "\n" + rest;
    if line == "" {
      assert all[0] == '\n';
    } else {
      assert all[0] == line[0] && all[1..] == line[1..] + "\n" + rest;
      LineEndOf(line[1..], rest);
    }
  }

  lemma {:induction false} LineEndOfTail(line: string)
    requires '\n' !in line
    ensures LineEnd(line) == |line|
    decreases |line|
  {
    if line != "" {
      LineEndOfTail(line[1..]);
    }
  }

  /** One clean line at the front of the stream. */
  lemma LineDecodes(env: Env, line: string, rest: string, failing: bool, s: State)
    requires Clean(line)
    ensures var d := Decode(env, line + "\n" + rest, failing, s);
            var fed := Feed(env, s, line);
            if |line| + 1 > MAX_LINE || fed.Bad? then d == (Mismatch, s.consumed)
            else if fed.Refused? then d == (ConsumerError, fed.consumed)
            else d == Decode(env, rest, failing, fed.state)
  {
    var all := line + "\n" + rest;
    LineEndOf(line, rest);
    assert all[|line|] == '\n' && all[|line| + 1..] == rest;
    assert all[..|line| + 1] == line + "\n";
    assert TrimSuffix(line + "\n", '\n') == line;
  }

  /** A stream that ends inside a line is refused. */
  lemma PartialLine(env: Env, line: string, failing: bool, s: State)
    requires Clean(line) && line != ""
    ensures Decode(env, line, failing, s) == (Mismatch, s.consumed)
  {
    LineEndOfTail(line);
    assert line[..|line|] == line;
  }

  lemma {:induction false} ColonOf(name: string, value: string)
    requires ':' !in name
    ensures ColonAt(name + ":" + value) == |name|
    decreases |name|
  {
    var all := name + ":" + value;
    if name == "" {
      assert all[0] == ':';
    } else {
      assert all[0] == name[0] && all[1..] == name[1..] + ":" + value;
      ColonOf(name[1..], value);
    }
  }

  lemma FieldCut(name: string, value: string)
    requires ':' !in name
    ensures var line := name + ": " + value;
            ColonAt(line) == |name| && line[..|name|] == name && TrimSpace(line[|name| + 1..]) == value
  {
    ColonOf(name, " " + value);
    assert name + ":" + (" " + value) == name + ": " + value;
    assert (name + ": " + value)[|name| + 1..] == " " + value;
  }

  lemma NoColonOrLineEnd(k: Kind)
    ensures Clean(TypeName(k)) && 0 < |TypeName(k)| <= 20
  {
  }

  lemma {:induction false} CleanConcat(a: string, b: string)
    requires Clean(a) && Clean(b)
    ensures Clean(a + b)
  {
  }

  lemma CleanDigits(n: nat)
    ensures Clean(Format(n))
  {
    FormatValue(n);
    assert forall c :: c in Format(n) ==> '0' <= c <= '9';
  }

  /** The three lines of an event are clean, and the frame accepts each of them. */
  lemma EventLinesClean(env: Env, e: Event)
    requires Lawful(env.json) && ValidEvent(e)
    ensures Clean("id: " + Format(e.sequence)) && Clean("event: " + TypeName(e.kind)) && Clean("data: " + env.json.marshal(e))
  {
    CleanDigits(e.sequence);
    NoColonOrLineEnd(e.kind);
    CleanConcat("id: ", Format(e.sequence));
    CleanConcat("event: ", TypeName(e.kind));
    CleanConcat("data: ", env.json.marshal(e));
  }

  /** Whether the decoder can hold the longest line of the frame, its data line. */
  predicate Fits(env: Env, e: Event) {
    |"data: " + env.json.marshal(e)| + 1 <= MAX_LINE
  }

  function WithField(f: Frame, name: string, value: string): Frame {
    var g := f.(bytes := f.bytes + |name| + |value| + 3);
    if name == "id" then g.(id := Some(value))
    else if name == "event" then g.(event := Some(value))
    else g.(data := Some(value))
  }

  lemma FieldAppended(f: Frame, name: string, value: string)
    requires name == "id" || name == "event" || name == "data"
    requires !f.commentOnly && |name| + 2 + |value| <= MAX_FRAME - f.bytes
    requires name == "id" ==> f.id.None?
    requires name == "event" ==> f.event.None?
    requires name == "data" ==> f.data.None?
    ensures Appended(f, name + ": " + value) == Some(WithField(f, name, value))
  {
    FieldCut(name, value);
    assert (name + ": " + value)[0] == name[0];
  }

  /** The frame after one, two and three lines of an event. */
  function IdFrame(e: Event): Frame {
    WithField(NO_FRAME, "id", Format(e.sequence))
  }

  function TypeFrame(e: Event): Frame {
    WithField(IdFrame(e), "event", TypeName(e.kind))
  }

  function DataFrame(env: Env, e: Event): Frame {
    WithField(TypeFrame(e), "data", env.json.marshal(e))
  }

  lemma FramesOf(env: Env, e: Event)
    requires e.sequence < UINT64_LIMIT
    ensures Appended(NO_FRAME, "id: " + Format(e.sequence)) == Some(IdFrame(e))
    ensures Appended(IdFrame(e), "event: " + TypeName(e.kind)) == Some(TypeFrame(e))
    ensures Fits(env, e) ==> Appended(TypeFrame(e), "data: " + env.json.marshal(e)) == Some(DataFrame(env, e))
  {
    Uint64Length(e.sequence);
    NoColonOrLineEnd(e.kind);
    FieldAppended(NO_FRAME, "id", Format(e.sequence));
    assert "id" + ": " == "id: ";
    FieldAppended(IdFrame(e), "event", TypeName(e.kind));
    assert "event" + ": " == "event: ";
    if Fits(env, e) {
      FieldAppended(TypeFrame(e), "data", env.json.marshal(e));
      assert "data" + ": " == "data: ";
    }
  }

  lemma DataFrameDecodes(env: Env, e: Event)
    requires Lawful(env.json) && ValidEvent(e) && e.sequence < UINT64_LIMIT
    ensures Unframe(env, DataFrame(env, e)) == Decoded(e)
  {
    Uint64Length(e.sequence);
    ParseFormat(e.sequence);
    NoColonOrLineEnd(e.kind);
  }

  // ---------- Streams ----------

  datatype Item = Keep | Send(event: Event)

  function ItemFrame(env: Env, i: Item): string {
    if i.Keep? then KEEPALIVE else EventFrame(env, i.event)
  }

  /** What the encoder writes for a list of events and keepalives. */
  function Written(env: Env, items: seq<Item>): string
    decreases items
  {
    if items == [] then "" else ItemFrame(env, items[0]) + Written(env, items[1..])
  }

  function Events(items: seq<Item>): seq<Event>
    decreases items
  {
    if items == [] then []
    else (if items[0].Keep? then [] else [items[0].event]) + Events(items[1..])
  }

  /** The decoder's state between frames. */
  function Between(events: seq<Event>): State {
    State(NO_FRAME, if events == [] then "" else events[0].executionId, |events| + 1, IsOver(events), events)
  }

  /** An event that may follow what was consumed already. */
  predicate Follows(env: Env, events: seq<Event>, e: Event) {
    && Orderly(events + [e]) && e.sequence < UINT64_LIMIT && env.takes(e)
  }

  lemma FollowsNeeds(env: Env, events: seq<Event>, e: Event)
    requires Follows(env, events, e)
    ensures ValidEvent(e) && e.sequence == |events| + 1 && !IsOver(events) && Orderly(events)
    ensures events != [] ==> e.executionId == events[0].executionId
  {
    var all := events + [e];
    assert all[|events|] == e;
    assert forall i :: 0 <= i < |events| ==> all[i] == events[i];
    if events != [] {
      assert all[|events|].executionId == all[0].executionId;
      assert !all[|events|-1].kind.Terminal();
    }
  }

  /** The blank line after the three lines of an event. */
  lemma EventEnds(env: Env, events: seq<Event>, e: Event)
    requires Lawful(env.json) && Follows(env, events, e)
    ensures Ended(env, Between(events).(frame := DataFrame(env, e))) == Next(Between(events + [e]))
  {
    FollowsNeeds(env, events, e);
    DataFrameDecodes(env, e);
  }

  /** A line that the frame takes. */
  lemma FieldLine(env: Env, line: string, rest: string, failing: bool, s: State, f: Frame)
    requires Clean(line) && line != "" && |line| + 1 <= MAX_LINE && Appended(s.frame, line) == Some(f)
    ensures Decode(env, line + "\n" + rest, failing, s) == Decode(env, rest, failing, s.(frame := f))
  {
    LineDecodes(env, line, rest, failing, s);
  }

  lemma FrameText(id: string, event: string, data: string, rest: string)
    ensures id + "\n" + event + "\n" + data + "\n\n" + rest ==
            id + "\n" + (event + "\n" + (data + "\n" + ("" + "\n" + rest)))
  {
    assert "\n\n" == "\n" + "\n";
  }

  lemma HeadDecodes(env: Env, e: Event, rest: string, failing: bool, s: State)
    requires Lawful(env.json) && ValidEvent(e) && e.sequence < UINT64_LIMIT && s.frame == NO_FRAME
    ensures Decode(env, "id: " + Format(e.sequence) + "\n" + ("event: " + TypeName(e.kind) + "\n" + rest), failing, s)
            == Decode(env, rest, failing, s.(frame := TypeFrame(e)))
  {
    EventLinesClean(env, e);
    FramesOf(env, e);
    Uint64Length(e.sequence);
    NoColonOrLineEnd(e.kind);
    FieldLine(env, "id: " + Format(e.sequence), "event: " + TypeName(e.kind) + "\n" + rest, failing, s, IdFrame(e));
    FieldLine(env, "event: " + TypeName(e.kind), rest, failing, s.(frame := IdFrame(e)), TypeFrame(e));
  }

  lemma TailDecodes(env: Env, events: seq<Event>, e: Event, rest: string, failing: bool)
    requires Lawful(env.json) && Follows(env, events, e)
    ensures Decode(env, "data: " + env.json.marshal(e) + "\n" + ("" + "\n" + rest), failing,
                   Between(events).(frame := TypeFrame(e))) ==
            if Fits(env, e) then Decode(env, rest, failing, Between(events + [e])) else (Mismatch, events)
  {
    FollowsNeeds(env, events, e);
    EventLinesClean(env, e);
    FramesOf(env, e);
    var s := Between(events);
    LineDecodes(env, "data: " + env.json.marshal(e), "" + "\n" + rest, failing, s.(frame := TypeFrame(e)));
    if Fits(env, e) {
      LineDecodes(env, "", rest, failing, s.(frame := DataFrame(env, e)));
      EventEnds(env, events, e);
    }
  }

  /** One event frame: handed to the consumer when its data line fits, refused when it does not. */
  lemma FrameDecodes(env: Env, events: seq<Event>, e: Event, rest: string, failing: bool)
    requires Lawful(env.json) && Follows(env, events, e)
    ensures Decode(env, EventFrame(env, e) + rest, failing, Between(events)) ==
            if Fits(env, e) then Decode(env, rest, failing, Between(events + [e])) else (Mismatch, events)
  {
    FollowsNeeds(env, events, e);
    var id, event, data := "id: " + Format(e.sequence), "event: " + TypeName(e.kind), "data: " + env.json.marshal(e);
    FrameText(id, event, data, rest);
    assert EventFrame(env, e) == id + "\n" + event + "\n" + data + "\n\n";
    HeadDecodes(env, e, data + "\n" + ("" + "\n" + rest), failing, Between(events));
    TailDecodes(env, events, e, rest, failing);
  }

  const COMMENT := ": keepalive"

  lemma KeepaliveDecodes(env: Env, rest: string, failing: bool, s: State)
    requires s.frame == NO_FRAME
    ensures Decode(env, KEEPALIVE + rest, failing, s) == Decode(env, rest, failing, s)
  {
    var f := NO_FRAME.(commentOnly := true, bytes := 12);
    assert Appended(NO_FRAME, COMMENT) == Some(f);
    assert KEEPALIVE + rest == COMMENT + "\n" + ("" + "\n" + rest);
    FieldLine(env, COMMENT, "" + "\n" + rest, failing, s, f);
    LineDecodes(env, "", rest, failing, s.(frame := f));
  }

  /** What has been handed over after one more item. */
  function With(events: seq<Event>, i: Item): seq<Event> {
    if i.Keep? then events else events + [i.event]
  }

  predicate ItemFits(env: Env, i: Item) {
    i.Keep? || Fits(env, i.event)
  }

  /** One frame of a written stream. */
  lemma ItemDecodes(env: Env, events: seq<Event>, i: Item, later: string, failing: bool)
    requires Lawful(env.json) && (i.Send? ==> Follows(env, events, i.event))
    ensures Decode(env, ItemFrame(env, i) + later, failing, Between(events)) ==
            if ItemFits(env, i) then Decode(env, later, failing, Between(With(events, i))) else (Mismatch, events)
  {
    if i.Keep? {
      KeepaliveDecodes(env, later, failing, Between(events));
    } else {
      FrameDecodes(env, events, i.event, later, failing);
    }
  }

  /** The items in front of the first event that does not fit. */
  function Fitting(env: Env, items: seq<Item>): seq<Item>
    decreases items
  {
    if items == [] || !ItemFits(env, items[0]) then []
    else [items[0]] + Fitting(env, items[1..])
  }

  predicate AllFit(env: Env, items: seq<Item>) {
    forall i :: 0 <= i < |items| ==> ItemFits(env, items[i])
  }

  lemma {:induction false} FittingAll(env: Env, items: seq<Item>)
    ensures Fitting(env, items) == items <==> AllFit(env, items)
    decreases items
  {
    if items != [] && ItemFits(env, items[0]) {
      FittingAll(env, items[1..]);
      assert Fitting(env, items)[1..] == Fitting(env, items[1..]);
    }
  }

  /** Every event in turn may follow the ones before it. */
  predicate Writable(env: Env, events: seq<Event>) {
    && Orderly(events)
    && forall i :: 0 <= i < |events| ==> events[i].sequence < UINT64_LIMIT && env.takes(events[i])
  }

  lemma OrderlyPrefix(a: seq<Event>, b: seq<Event>)
    requires Orderly(b) && a <= b
    ensures Orderly(a)
  {
  }

  lemma FirstFollows(env: Env, events: seq<Event>, e: Event, later: seq<Event>)
    requires Writable(env, events + ([e] + later))
    ensures Follows(env, events, e)
  {
    var all := events + ([e] + later);
    assert all == (events + [e]) + later && all[|events|] == e;
    OrderlyPrefix(events + [e], all);
  }

  lemma WithEvents(events: seq<Event>, i: Item, later: seq<Event>)
    ensures events + ((if i.Keep? then [] else [i.event]) + later) == With(events, i) + later
  {
  }

  lemma ItemFollows(env: Env, events: seq<Event>, items: seq<Item>)
    requires items != [] && Writable(env, events + Events(items))
    ensures items[0].Send? ==> Follows(env, events, items[0].event)
    ensures events + Events(items) == With(events, items[0]) + Events(items[1..])
  {
    WithEvents(events, items[0], Events(items[1..]));
    if items[0].Send? {
      FirstFollows(env, events, items[0].event, Events(items[1..]));
    }
  }

  /** What decoding a written stream comes to. */
  function Handed(env: Env, events: seq<Event>, items: seq<Item>, rest: string, failing: bool): (Outcome, seq<Event>) {
    if Fitting(env, items) == items then Decode(env, rest, failing, Between(events + Events(items)))
    else (Mismatch, events + Events(Fitting(env, items)))
  }

  lemma HandedItem(env: Env, events: seq<Event>, items: seq<Item>, rest: string, failing: bool)
    requires items != []
    ensures Handed(env, events, items, rest, failing) ==
            if ItemFits(env, items[0]) then Handed(env, With(events, items[0]), items[1..], rest, failing)
            else (Mismatch, events)
  {
    var fit := Fitting(env, items);
    if ItemFits(env, items[0]) {
      assert fit[1..] == Fitting(env, items[1..]);
      assert fit == items <==> fit[1..] == items[1..];
      WithEvents(events, items[0], Events(items[1..]));
      WithEvents(events, items[0], Events(fit[1..]));
    } else {
      assert events + [] == events;
    }
  }

  /** Decoding a written stream hands over exactly the events in front of the first one that does not
      fit, and goes on after the stream when all of them do. */
  lemma {:induction false} WrittenDecodes(env: Env, events: seq<Event>, items: seq<Item>, rest: string, failing: bool)
    requires Lawful(env.json) && Writable(env, events + Events(items))
    ensures Decode(env, Written(env, items) + rest, failing, Between(events)) == Handed(env, events, items, rest, failing)
    decreases items
  {
    if items == [] {
      assert "" + rest == rest;
      assert events + [] == events;
    } else {
      var later := Written(env, items[1..]) + rest;
      assert Written(env, items) + rest == ItemFrame(env, items[0]) + later;
      HandedItem(env, events, items, rest, failing);
      ItemFollows(env, events, items);
      ItemDecodes(env, events, items[0], later, failing);
      if ItemFits(env, items[0]) {
        WrittenDecodes(env, With(events, items[0]), items[1..], rest, failing);
      }
    }
  }

  /** Round trip: an orderly list that ends in its terminal event is read back as it was written, with
      keepalives anywhere between the frames, exactly when every data line is within the decoder's
      limit; otherwise the events in front of the first one that is not are handed over. */
  lemma RoundTrip(env: Env, items: seq<Item>)
    requires Lawful(env.json) && Writable(env, Events(items)) && IsOver(Events(items))
    ensures var (outcome, consumed) := Decode(env, Written(env, items), false, START);
            && consumed == Events(Fitting(env, items))
            && (outcome.Success? <==> AllFit(env, items))
            && (AllFit(env, items) ==> consumed == Events(items))
  {
    FittingAll(env, items);
    WrittenDecodes(env, [], items, "", false);
    assert [] + Events(items) == Events(items);
    assert Written(env, items) + "" == Written(env, items);
    assert Between([]) == START;
    assert [] + Events(Fitting(env, items)) == Events(Fitting(env, items));
    EmptyDecodes(env, Events(items));
  }

  lemma EmptyDecodes(env: Env, events: seq<Event>)
    ensures Decode(env, "", false, Between(events)) == (if IsOver(events) then Success else Mismatch, events)
  {
  }

  // ---------- Truncation ----------

  /** What the end of the stream between two frames comes to. */
  function AtEnd(events: seq<Event>): (Outcome, seq<Event>) {
    (if IsOver(events) then Success else Mismatch, events)
  }

  lemma EndInFrame(env: Env, s: State)
    requires s.frame.bytes > 0 && Unframe(env, s.frame).Malformed?
    ensures Decode(env, "", false, s) == (Mismatch, s.consumed)
  {
  }

  lemma CleanPrefix(line: string, n: nat)
    requires Clean(line) && n <= |line|
    ensures Clean(line[..n])
  {
  }

  /** A cut inside the first line of the stream, or behind it. */
  lemma CutLine(env: Env, line: string, rest: string, n: nat, s: State, f: Frame)
    requires Clean(line) && line != "" && |line| + 1 <= MAX_LINE && Appended(s.frame, line) == Some(f)
    requires 0 < n <= |line + "\n" + rest|
    ensures Decode(env, (line + "\n" + rest)[..n], false, s) ==
            if n <= |line| then (Mismatch, s.consumed) else Decode(env, rest[..n - |line| - 1], false, s.(frame := f))
  {
    var all := line + "\n" + rest;
    if n <= |line| {
      assert all[..n] == line[..n];
      CleanPrefix(line, n);
      PartialLine(env, line[..n], false, s);
    } else {
      assert all[..n] == line + "\n" + rest[..n - |line| - 1];
      FieldLine(env, line, rest[..n - |line| - 1], false, s, f);
    }
  }

  /** A cut behind or in the data line and the blank line. */
  lemma CutTail(env: Env, events: seq<Event>, e: Event, n: nat)
    requires Lawful(env.json) && Follows(env, events, e) && Fits(env, e)
    requires n <= |"data: " + env.json.marshal(e)| + 1
    ensures Decode(env, ("data: " + env.json.marshal(e) + "\n" + "\n")[..n], false, Between(events).(frame := TypeFrame(e))) ==
            if n == |"data: " + env.json.marshal(e)| + 1 then AtEnd(events + [e]) else (Mismatch, events)
  {
    FollowsNeeds(env, events, e);
    EventLinesClean(env, e);
    FramesOf(env, e);
    var s, data := Between(events), "data: " + env.json.marshal(e);
    if n == 0 {
      EndInFrame(env, s.(frame := TypeFrame(e)));
    } else {
      CutLine(env, data, "\n", n, s.(frame := TypeFrame(e)), DataFrame(env, e));
      if n == |data| + 1 {
        EventEnds(env, events, e);
        assert Decode(env, "", false, s.(frame := DataFrame(env, e))) == AtEnd(events + [e]);
      }
    }
  }

  /** A line that leaves a frame incomplete. */
  predicate Opens(env: Env, line: string, s: State, f: Frame) {
    && Clean(line) && line != "" && |line| + 1 <= MAX_LINE && Appended(s.frame, line) == Some(f)
    && f.bytes > 0 && Unframe(env, f).Malformed?
  }

  lemma CutTwoLines(env: Env, a: string, b: string, rest: string, n: nat, s: State, f: Frame, g: Frame)
    requires Opens(env, a, s, f) && Opens(env, b, s.(frame := f), g)
    requires 0 < n <= |a + "\n" + (b + "\n" + rest)|
    ensures Decode(env, (a + "\n" + (b + "\n" + rest))[..n], false, s) ==
            if n < |a| + |b| + 2 then (Mismatch, s.consumed)
            else Decode(env, rest[..n - |a| - |b| - 2], false, s.(frame := g))
  {
    CutLine(env, a, b + "\n" + rest, n, s, f);
    if n == |a| + 1 {
      EndInFrame(env, s.(frame := f));
    } else if n > |a| + 1 {
      CutLine(env, b, rest, n - |a| - 1, s.(frame := f), g);
    }
  }

  lemma HeadOpens(env: Env, e: Event, s: State)
    requires Lawful(env.json) && ValidEvent(e) && e.sequence < UINT64_LIMIT && s.frame == NO_FRAME
    ensures Opens(env, "id: " + Format(e.sequence), s, IdFrame(e))
    ensures Opens(env, "event: " + TypeName(e.kind), s.(frame := IdFrame(e)), TypeFrame(e))
  {
    EventLinesClean(env, e);
    FramesOf(env, e);
    Uint64Length(e.sequence);
    NoColonOrLineEnd(e.kind);
  }

  lemma FrameParts(env: Env, e: Event)
    ensures EventFrame(env, e) == "id: " + Format(e.sequence) + "\n" +
              ("event: " + TypeName(e.kind) + "\n" + ("data: " + env.json.marshal(e) + "\n" + "\n"))
  {
    var id, event, data := "id: " + Format(e.sequence), "event: " + TypeName(e.kind), "data: " + env.json.marshal(e);
    FrameText(id, event, data, "");
    assert EventFrame(env, e) == id + "\n" + event + "\n" + data + "\n\n";
    assert data + "\n" + ("" + "\n" + "") == data + "\n" + "\n";
  }

  lemma CutParts(env: Env, events: seq<Event>, e: Event, id: string, event: string, n: nat)
    requires Lawful(env.json) && Follows(env, events, e) && Fits(env, e)
    requires Opens(env, id, Between(events), IdFrame(e))
    requires Opens(env, event, Between(events).(frame := IdFrame(e)), TypeFrame(e))
    requires 0 < n <= |id| + |event| + 2 + |"data: " + env.json.marshal(e)| + 1
    ensures Decode(env, (id + "\n" + (event + "\n" + ("data: " + env.json.marshal(e) + "\n" + "\n")))[..n], false, Between(events)) ==
            if n == |id| + |event| + 2 + |"data: " + env.json.marshal(e)| + 1 then AtEnd(events + [e]) else (Mismatch, events)
  {
    var head := |id| + |event| + 2;
    CutTwoLines(env, id, event, "data: " + env.json.marshal(e) + "\n" + "\n", n, Between(events), IdFrame(e), TypeFrame(e));
    if n >= head {
      CutTail(env, events, e, n - head);
    }
  }

  /** A cut inside an event frame: only the last LF may be missing. */
  lemma CutFrame(env: Env, events: seq<Event>, e: Event, n: nat)
    requires Lawful(env.json) && Follows(env, events, e) && Fits(env, e) && 0 < n < |EventFrame(env, e)|
    ensures Decode(env, EventFrame(env, e)[..n], false, Between(events)) ==
            if n == |EventFrame(env, e)| - 1 then AtEnd(events + [e]) else (Mismatch, events)
  {
    FollowsNeeds(env, events, e);
    HeadOpens(env, e, Between(events));
    FrameParts(env, e);
    CutParts(env, events, e, "id: " + Format(e.sequence), "event: " + TypeName(e.kind), n);
  }

  lemma CutKeepalive(env: Env, events: seq<Event>, n: nat)
    requires 0 < n < |KEEPALIVE|
    ensures Decode(env, KEEPALIVE[..n], false, Between(events)) ==
            if n == |KEEPALIVE| - 1 then AtEnd(events) else (Mismatch, events)
  {
    var f := NO_FRAME.(commentOnly := true, bytes := 12);
    assert Appended(NO_FRAME, COMMENT) == Some(f);
    assert KEEPALIVE == COMMENT + "\n" + "\n";
    CutLine(env, COMMENT, "\n", n, Between(events), f);
    if n == |KEEPALIVE| - 1 {
      assert Decode(env, "", false, Between(events).(frame := f)) == AtEnd(events);
    }
  }

  /** A cut inside a frame. */
  lemma CutItem(env: Env, events: seq<Event>, i: Item, n: nat)
    requires Lawful(env.json) && ItemFits(env, i) && (i.Send? ==> Follows(env, events, i.event))
    requires 0 < n < |ItemFrame(env, i)|
    ensures Decode(env, ItemFrame(env, i)[..n], false, Between(events)) ==
            if n == |ItemFrame(env, i)| - 1 then AtEnd(With(events, i)) else (Mismatch, events)
  {
    if i.Keep? {
      CutKeepalive(env, events, n);
    } else {
      CutFrame(env, events, i.event, n);
    }
  }

  function Size(env: Env): Item -> nat {
    i => |ItemFrame(env, i)|
  }

  function Total(size: Item -> nat, items: seq<Item>): nat
    decreases items
  {
    if items == [] then 0 else size(items[0]) + Total(size, items[1..])
  }

  /** The number of bytes that are written. */
  function Length(env: Env, items: seq<Item>): nat {
    Total(Size(env), items)
  }

  lemma {:induction false} WrittenSize(env: Env, items: seq<Item>)
    ensures |Written(env, items)| == Length(env, items)
    decreases items
  {
    if items != [] {
      WrittenSize(env, items[1..]);
    }
  }

  /** What is left of a written stream of which only the first n bytes arrive: whole frames, where the
      last LF of the last one does not count. */
  function Survived(size: Item -> nat, events: seq<Event>, items: seq<Item>, n: nat): (Outcome, seq<Event>)
    decreases items
  {
    if n == 0 || items == [] then AtEnd(events)
    else if n >= size(items[0]) then Survived(size, With(events, items[0]), items[1..], n - size(items[0]))
    else if n == size(items[0]) - 1 then AtEnd(With(events, items[0]))
    else (Mismatch, events)
  }

  lemma CutText(frame: string, later: string, n: nat)
    requires n <= |frame + later|
    ensures (frame + later)[..n] == if n >= |frame| then frame + later[..n - |frame|] else frame[..n]
  {
  }

  /** A cut behind the first frame, and a cut inside it. */
  lemma CutBehind(env: Env, events: seq<Event>, i: Item, later: string, n: nat)
    requires Lawful(env.json) && ItemFits(env, i) && (i.Send? ==> Follows(env, events, i.event))
    requires |ItemFrame(env, i)| <= n <= |ItemFrame(env, i) + later|
    ensures Decode(env, (ItemFrame(env, i) + later)[..n], false, Between(events)) ==
            Decode(env, later[..n - Size(env)(i)], false, Between(With(events, i)))
  {
    CutText(ItemFrame(env, i), later, n);
    ItemDecodes(env, events, i, later[..n - |ItemFrame(env, i)|], false);
  }

  lemma CutInside(env: Env, events: seq<Event>, i: Item, later: string, n: nat)
    requires Lawful(env.json) && ItemFits(env, i) && (i.Send? ==> Follows(env, events, i.event))
    requires 0 < n < |ItemFrame(env, i)|
    ensures Decode(env, (ItemFrame(env, i) + later)[..n], false, Between(events)) ==
            if n == Size(env)(i) - 1 then AtEnd(With(events, i)) else (Mismatch, events)
  {
    CutText(ItemFrame(env, i), later, n);
    CutItem(env, events, i, n);
  }

  /** A list that may still be written behind `events`, and read back. */
  ghost predicate Ready(env: Env, events: seq<Event>, items: seq<Item>) {
    Lawful(env.json) && Writable(env, events + Events(items)) && AllFit(env, items)
  }

  lemma ReadyStep(env: Env, events: seq<Event>, items: seq<Item>)
    requires Ready(env, events, items) && items != []
    ensures Ready(env, With(events, items[0]), items[1..])
    ensures ItemFits(env, items[0]) && (items[0].Send? ==> Follows(env, events, items[0].event))
  {
    ItemFollows(env, events, items);
  }

  /** Decoding the first n bytes of a written stream comes to what survives. */
  ghost predicate Cuts(env: Env, events: seq<Event>, items: seq<Item>, n: nat)
    requires n <= |Written(env, items)|
  {
    Decode(env, Written(env, items)[..n], false, Between(events)) == Survived(Size(env), events, items, n)
  }

  lemma CutsBehind(env: Env, events: seq<Event>, items: seq<Item>, n: nat)
    requires Ready(env, events, items) && items != [] && 0 < |ItemFrame(env, items[0])| <= n <= |Written(env, items)|
    requires Cuts(env, With(events, items[0]), items[1..], n - |ItemFrame(env, items[0])|)
    ensures Cuts(env, events, items, n)
  {
    ReadyStep(env, events, items);
    CutBehind(env, events, items[0], Written(env, items[1..]), n);
  }

  lemma CutsInside(env: Env, events: seq<Event>, items: seq<Item>, n: nat)
    requires Ready(env, events, items) && items != [] && 0 < n < |ItemFrame(env, items[0])| && n <= |Written(env, items)|
    ensures Cuts(env, events, items, n)
  {
    ReadyStep(env, events, items);
    CutInside(env, events, items[0], Written(env, items[1..]), n);
  }

  lemma FrameNotEmpty(env: Env, i: Item)
    ensures |ItemFrame(env, i)| >= 2
  {
  }

  lemma {:induction false} TruncatedDecodes(env: Env, events: seq<Event>, items: seq<Item>, n: nat)
    requires Ready(env, events, items) && n <= |Written(env, items)|
    ensures Cuts(env, events, items, n)
    decreases items
  {
    if n == 0 || items == [] {
      EmptyDecodes(env, events);
    } else {
      FrameNotEmpty(env, items[0]);
      if n >= |ItemFrame(env, items[0])| {
        assert Ready(env, With(events, items[0]), items[1..]) by {
          ReadyStep(env, events, items);
        }
        TruncatedDecodes(env, With(events, items[0]), items[1..], n - |ItemFrame(env, items[0])|);
        CutsBehind(env, events, items, n);
      } else {
        CutsInside(env, events, items, n);
      }
    }
  }

  lemma PrefixOfWhole(part: seq<Event>, front: seq<Event>, back: seq<Event>)
    requires part <= front
    ensures part <= front + back
  {
  }

  lemma {:induction false} SurvivedPrefix(size: Item -> nat, events: seq<Event>, items: seq<Item>, n: nat)
    ensures Survived(size, events, items, n).1 <= events + Events(items)
    decreases items
  {
    var survived := Survived(size, events, items, n).1;
    if n == 0 || items == [] || n < size(items[0]) - 1 {
      PrefixOfWhole(survived, events, Events(items));
    } else {
      WithEvents(events, items[0], Events(items[1..]));
      if n >= size(items[0]) {
        SurvivedPrefix(size, With(events, items[0]), items[1..], n - size(items[0]));
      } else {
        PrefixOfWhole(survived, With(events, items[0]), Events(items[1..]));
      }
    }
  }

  /** The stream ends with its only terminal event. */
  predicate EndsOnce(items: seq<Item>) {
    && items != [] && items[|items|-1].Send? && items[|items|-1].event.kind.Terminal()
    && forall i :: 0 <= i < |items| - 1 && items[i].Send? ==> !items[i].event.kind.Terminal()
  }

  /** The keepalives behind the last event. */
  function Trailing(items: seq<Item>): (k: nat)
    ensures k <= |items|
  {
    if items == [] || !items[|items|-1].Keep? then 0 else 1 + Trailing(items[..|items|-1])
  }

  /** The stream up to its last event. */
  function Body(items: seq<Item>): seq<Item> {
    items[..|items| - Trailing(items)]
  }

  lemma {:induction false} EventsPair(a: seq<Item>, b: seq<Item>)
    ensures Events(a + b) == Events(a) + Events(b)
    decreases a
  {
    if a == [] {
      assert a + b == b;
    } else {
      assert (a + b)[1..] == a[1..] + b;
      EventsPair(a[1..], b);
    }
  }

  lemma {:induction false} BodyEvents(items: seq<Item>)
    ensures Events(Body(items)) == Events(items)
    ensures Body(items) == [] || Body(items)[|Body(items)|-1].Send?
    ensures forall i :: |Body(items)| <= i < |items| ==> items[i].Keep?
  {
    if items == [] || !items[|items|-1].Keep? {
      assert Body(items) == items;
    } else {
      var front := items[..|items|-1];
      BodyEvents(front);
      assert Body(items) == Body(front);
      assert items == front + [Keep];
      EventsPair(front, [Keep]);
      assert Events([Keep]) == [];
    }
  }

  /** A cut among keepalives of 13 bytes is not noticed between two of them or when only a last line feed is
      missing; m counts from the end of the terminal event's frame. */
  predicate Unnoticed(m: int) {
    m == -1 || m == 0 || (m >= 12 && Unnoticed(m - 13))
  }

  /** A keepalive has 13 bytes, and no frame is shorter than two. */
  ghost predicate LongFrames(size: Item -> nat) {
    size(Keep) == 13 && forall i :: size(i) >= 2
  }

  lemma {:induction false} SurvivedKeepalives(size: Item -> nat, events: seq<Event>, items: seq<Item>, m: nat)
    requires size(Keep) == 13 && (forall i :: 0 <= i < |items| ==> items[i].Keep?)
    requires IsOver(events) && m <= Total(size, items)
    ensures Survived(size, events, items, m).0.Success? <==> Unnoticed(m)
    decreases items
  {
    if items != [] && m >= 13 {
      SurvivedKeepalives(size, events, items[1..], m - 13);
    }
  }

  /** A stream that stops early is taken for complete exactly when its terminal event has arrived, but for a
      last line feed, and the cut behind it goes unnoticed. */
  lemma {:induction false} SurvivedExactly(size: Item -> nat, events: seq<Event>, body: seq<Item>, tail: seq<Item>, n: nat)
    requires LongFrames(size) && (forall i :: 0 <= i < |tail| ==> tail[i].Keep?)
    requires EndsOnce(body) && !IsOver(events) && n <= Total(size, body + tail)
    ensures Total(size, body) >= 2
    ensures Survived(size, events, body + tail, n).0.Success? <==> Unnoticed(n - Total(size, body))
    decreases body
  {
    var items := body + tail;
    assert items[0] == body[0] && items[1..] == body[1..] + tail;
    if |body| == 1 {
      assert body[1..] == [] && items[1..] == tail;
      if n >= size(items[0]) {
        SurvivedKeepalives(size, With(events, items[0]), tail, n - size(items[0]));
      }
    } else {
      SurvivedExactly(size, With(events, items[0]), body[1..], tail, if n >= size(items[0]) then n - size(items[0]) else 0);
    }
  }

  lemma {:induction false} EventsNotEmpty(items: seq<Item>)
    requires items != [] && items[|items|-1].Send?
    ensures Events(items) != []
    decreases items
  {
    if |items| > 1 {
      EventsNotEmpty(items[1..]);
    }
  }

  lemma {:induction false} OrderlyEndsOnce(events: seq<Event>, items: seq<Item>)
    requires Orderly(events + Events(items))
    requires items != [] && items[|items|-1].Send? && items[|items|-1].event.kind.Terminal()
    ensures EndsOnce(items)
    decreases items
  {
    if |items| > 1 {
      var rest := items[1..];
      WithEvents(events, items[0], Events(rest));
      assert rest[|rest|-1] == items[|items|-1];
      OrderlyEndsOnce(With(events, items[0]), rest);
      EventsNotEmpty(rest);
      if items[0].Send? {
        assert (With(events, items[0]) + Events(rest))[|events|] == items[0].event;
      }
    }
  }

  lemma BodyEndsOnce(items: seq<Item>)
    requires Orderly(Events(items)) && IsOver(Events(items))
    ensures EndsOnce(Body(items))
  {
    BodyEvents(items);
    BodyEndsOver(items);
    assert [] + Events(Body(items)) == Events(items);
    OrderlyEndsOnce([], Body(items));
  }

  /** What decoding the first n bytes of a written stream comes to. */
  function Cut(env: Env, items: seq<Item>, n: nat): (Outcome, seq<Event>)
    requires n <= |Written(env, items)|
  {
    Decode(env, Written(env, items)[..n], false, START)
  }

  lemma CutSurvives(env: Env, items: seq<Item>, n: nat)
    requires Ready(env, [], items) && n <= |Written(env, items)|
    ensures Cut(env, items, n) == Survived(Size(env), [], items, n)
  {
    assert Between([]) == START;
    TruncatedDecodes(env, [], items, n);
  }

  lemma SurvivedBody(size: Item -> nat, items: seq<Item>, n: nat)
    requires LongFrames(size) && n <= Total(size, items) && EndsOnce(Body(items))
    ensures Survived(size, [], items, n).0.Success? <==> Unnoticed(n - Total(size, Body(items)))
  {
    BodyEvents(items);
    var tail := items[|Body(items)|..];
    assert Body(items) + tail == items;
    SurvivedExactly(size, [], Body(items), tail, n);
  }

  /** Whether the first n bytes are taken for a complete stream. */
  predicate IsTaken(env: Env, items: seq<Item>, n: nat)
    requires n <= |Written(env, items)|
  {
    Cut(env, items, n).0.Success?
  }

  lemma TakenExactly(env: Env, items: seq<Item>, n: nat)
    requires Ready(env, [], items) && n <= |Written(env, items)| && EndsOnce(Body(items))
    ensures IsTaken(env, items, n) <==> Unnoticed(n - Length(env, Body(items)))
  {
    CutSurvives(env, items, n);
    WrittenSize(env, items);
    FramesAreLong(env);
    SurvivedBody(Size(env), items, n);
  }

  lemma CutIsPrefix(env: Env, items: seq<Item>, n: nat)
    requires Ready(env, [], items) && n <= |Written(env, items)|
    ensures Cut(env, items, n).1 <= Events(items)
  {
    CutSurvives(env, items, n);
    SurvivedPrefix(Size(env), [], items, n);
    assert [] + Events(items) == Events(items);
  }

  /** Truncation of a stream that ends with its terminal event and any number of keepalives: every prefix hands
      over a prefix of the events, and it is taken for complete exactly when it reaches the end of the terminal
      event's frame, except perhaps for its last line feed, and is not cut inside a later keepalive, again except
      for its last line feed. */
  lemma TruncationIsDetected(env: Env, items: seq<Item>, n: nat)
    requires Lawful(env.json) && Writable(env, Events(items)) && AllFit(env, items) && IsOver(Events(items))
    requires n <= |Written(env, items)|
    ensures Cut(env, items, n).1 <= Events(items)
    ensures IsTaken(env, items, n) <==> Unnoticed(n - Length(env, Body(items)))
  {
    assert [] + Events(items) == Events(items);
    BodyEndsOnce(items);
    CutIsPrefix(env, items, n);
    TakenExactly(env, items, n);
  }

  lemma FramesAreLong(env: Env)
    ensures LongFrames(Size(env))
  {
  }

  lemma BodyEndsOver(items: seq<Item>)
    requires IsOver(Events(items))
    ensures var body := Body(items);
            body != [] && body[|body|-1].Send? && body[|body|-1].event.kind.Terminal()
  {
    BodyEvents(items);
    var body := Body(items);
    assert body != [];
    var front, last := body[..|body|-1], body[|body|-1];
    assert body == front + [last];
    EventsPair(front, [last]);
    assert [last][1..] == [] && Events([last]) == [last.event];
  }

  lemma EventsSend(e: Event, rest: seq<Item>)
    ensures Events([Send(e)] + rest) == [e] + Events(rest)
  {
    assert ([Send(e)] + rest)[1..] == rest;
  }

  lemma LastSend(items: seq<Item>)
    requires items != [] && items[|items|-1].Send? && items[|items|-1].event.kind.Terminal()
    ensures IsOver(Events(items)) && Body(items) == items
  {
    var front, last := items[..|items|-1], items[|items|-1];
    assert items == front + [last] && [last] == [Send(last.event)] + [];
    EventsPair(front, [last]);
    EventsSend(last.event, []);
    assert items[..|items|] == items;
  }

  // ---------- Cases ----------

  const FIRST := Event("exec_1", 1, Started, [], None, None, None, "", "")
  const EXIT := Event("exec_1", 2, Exited, [], Some(0), Some(5), Some(false), "", "")

  function OutputEvent(data: seq<Byte>): Event {
    Event("exec_1", 2, Stdout, data, None, None, None, "", "")
  }

  lemma ShortStream()
    ensures var items := [Send(FIRST), Send(EXIT)];
            Events(items) == [FIRST, EXIT] && Orderly(Events(items)) && IsOver(Events(items)) && Body(items) == items
  {
    var items := [Send(FIRST), Send(EXIT)];
    assert [Send(EXIT)] == [Send(EXIT)] + [] && items == [Send(FIRST)] + [Send(EXIT)];
    EventsSend(EXIT, []);
    EventsSend(FIRST, [Send(EXIT)]);
    assert Orderly([FIRST, EXIT]);
    LastSend(items);
  }

  lemma WrittenNotEmpty(env: Env, items: seq<Item>)
    requires items != []
    ensures |Written(env, items)| >= 2
  {
    FrameNotEmpty(env, items[0]);
  }

  /** Of the stream of an execution without output the last line feed is lost, and it is accepted. */
  lemma LostLineFeedIsAccepted(env: Env)
    requires Lawful(env.json) && env.takes(FIRST) && env.takes(EXIT) && Fits(env, FIRST) && Fits(env, EXIT)
    ensures var items := [Send(FIRST), Send(EXIT)];
            |Written(env, items)| >= 2 && IsTaken(env, items, |Written(env, items)| - 1)
  {
    var items := [Send(FIRST), Send(EXIT)];
    ShortStream();
    WrittenNotEmpty(env, items);
    WrittenSize(env, items);
    assert Writable(env, Events(items)) && AllFit(env, items);
    TruncationIsDetected(env, items, |Written(env, items)| - 1);
  }

  /** A stream with an event that does not fit ends in a mismatch after the events in front of it. */
  lemma ItemsMismatch(env: Env, items: seq<Item>)
    requires Lawful(env.json) && Writable(env, Events(items)) && !AllFit(env, items)
    ensures Decode(env, Written(env, items), false, START) == (Mismatch, Events(Fitting(env, items)))
  {
    FittingAll(env, items);
    WrittenDecodes(env, [], items, "", false);
    assert [] + Events(items) == Events(items) && Between([]) == START;
    assert [] + Events(Fitting(env, items)) == Events(Fitting(env, items));
    assert Written(env, items) + "" == Written(env, items);
  }

  /** An output event whose data line is too long is written and then refused. */
  lemma LongLineIsRefused(env: Env, data: seq<Byte>)
    requires Lawful(env.json) && data != [] && |env.json.marshal(OutputEvent(data))| == MAX_LINE
    requires env.takes(FIRST) && env.takes(OutputEvent(data)) && env.takes(EXIT.(sequence := 3)) && Fits(env, FIRST)
    ensures var items := [Send(FIRST), Send(OutputEvent(data)), Send(EXIT.(sequence := 3))];
            Decode(env, Written(env, items), false, START) == (Mismatch, [FIRST])
  {
    var items := [Send(FIRST), Send(OutputEvent(data)), Send(EXIT.(sequence := 3))];
    LongItems(env, data);
    ItemsMismatch(env, items);
  }

  lemma LongItems(env: Env, data: seq<Byte>)
    requires data != [] && |env.json.marshal(OutputEvent(data))| == MAX_LINE && Fits(env, FIRST)
    ensures var items := [Send(FIRST), Send(OutputEvent(data)), Send(EXIT.(sequence := 3))];
            && Events(items) == [FIRST, OutputEvent(data), EXIT.(sequence := 3)] && Orderly(Events(items)) && IsOver(Events(items))
            && Fitting(env, items) == [Send(FIRST)] && Events([Send(FIRST)]) == [FIRST] && !AllFit(env, items)
  {
    var out, last := OutputEvent(data), EXIT.(sequence := 3);
    var tail := [Send(out), Send(last)];
    var items := [Send(FIRST)] + tail;
    assert tail == [Send(out)] + [Send(last)] && [Send(last)] == [Send(last)] + [] && [Send(FIRST)] == [Send(FIRST)] + [];
    EventsSend(last, []);
    EventsSend(out, [Send(last)]);
    EventsSend(FIRST, tail);
    EventsSend(FIRST, []);
    assert Orderly([FIRST, out, last]);
    assert items[1..] == tail && Fitting(env, tail) == [] && Fitting(env, items) == [Send(FIRST)];
    assert !ItemFits(env, items[1]);
    assert items == [Send(FIRST), Send(out), Send(last)];
  }

  /** The largest chunk a pipe reader hands on (internal/runner/pipe_reader.go:9). */
  const PIPE_BUFFER := 32768

  /** Base64 of the data and a bounded rest: what an output event takes as JSON. */
  ghost predicate Compact(json: Codec, rest: nat) {
    forall e :: ValidEvent(e) && e.kind.Output() ==> |json.marshal(e)| <= 4 * ((|e.data| + 2) / 3) + rest
  }

  /** No output event of the runner is too long: with at most 32 KiB of data it fits as long as its other fields
      take less than 21 KiB. */
  lemma PipeChunksFit(env: Env, e: Event, rest: nat)
    requires Compact(env.json, rest) && rest <= 21_504
    requires ValidEvent(e) && e.kind.Output() && |e.data| <= PIPE_BUFFER
    ensures Fits(env, e)
  {
    assert (|e.data| + 2) / 3 <= 10_923;
  }
}
