/** The background log: one JSON line per event, written while the execution runs and read in pages by a
    sequence cursor (internal/runner/background_log_writer.go, internal/runner/background_log_reader.go).
    Characters stand for bytes. */
module LogPaging {
  import opened Wrappers
  import opened Decimal
  import opened EventStore
  import opened Json
  import Sse

  // ---------- The file ----------

  function Logged(json: Codec, events: seq<Event>): string
    decreases events
  {
    if events == [] then "" else json.marshal(events[0]) + "\n" + Logged(json, events[1..])
  }

  /** `splitCompleteNDJSONLine` over a whole file: the lines that end in a LF, and the torn rest. */
  function Lines(file: string): seq<string>
    decreases |file|
  {
    if !Sse.HasLF(file) then [] else [file[..Sse.LineEnd(file) - 1]] + Lines(file[Sse.LineEnd(file)..])
  }

  function Torn(file: string): string
    decreases |file|
  {
    if !Sse.HasLF(file) then file else Torn(file[Sse.LineEnd(file)..])
  }

  // ---------- The reader ----------

  datatype Page = Page(events: seq<Event>, next: nat, complete: bool)

  datatype ReadResult = Got(page: Page) | Corrupt | InvalidCursor

  datatype Reader = Reader(json: Codec, maxEvents: nat, maxBytes: nat)

  function Texts(json: Codec, events: seq<Event>): nat {
    if events == [] then 0 else Texts(json, events[..|events|-1]) + |json.marshal(events[|events|-1])|
  }

  /** The length of the page as JSON: the two field names, the events with their commas, the cursor and
      the flag. */
  function Size(json: Codec, p: Page): nat {
    27 + Texts(json, p.events) + (if p.events == [] then 0 else |p.events| - 1)
    + |Format(p.next)| + (if p.complete then 17 else 18)
  }

  function Stored(json: Codec, line: string): Option<Event> {
    if line == "" then None else json.unmarshal(line)
  }

  /** The variables of the scan loop: the page so far, the last sequence seen, the terminal one if any. */
  datatype Scan = Scan(page: Page, last: nat, terminal: nat)

  datatype Verdict = Continue(scan: Scan) | Stop(scan: Scan) | Bad

  /** The page with one more event. */
  function Candidate(p: Page, e: Event): Page {
    Page(p.events + [e], e.sequence, e.kind.Terminal())
  }

  /** The body of the scan loop. */
  function Scanned(r: Reader, id: string, cursor: nat, line: string, s: Scan): Verdict {
    var e := Stored(r.json, line);
    if e.None? || e.value.executionId != id || e.value.sequence != s.last + 1 || s.terminal != 0 then Bad
    else
      var s' := s.(last := e.value.sequence, terminal := if e.value.kind.Terminal() then e.value.sequence else 0);
      if e.value.sequence <= cursor then Continue(s')
      else if |s.page.events| >= r.maxEvents then Stop(s')
      else
        var page := Candidate(s.page, e.value);
        if Size(r.json, page) > r.maxBytes then if s.page.events == [] then Bad else Stop(s')
        else if |page.events| == r.maxEvents || Size(r.json, page) == r.maxBytes then Stop(s'.(page := page))
        else Continue(s'.(page := page))
  }

  datatype Outcome = Done(scan: Scan, whole: bool) | Broken

  /** The scan loop over the lines that are left; a line that does not fit the scanner's buffer ends it. */
  function ScanAll(r: Reader, id: string, cursor: nat, lines: seq<string>, torn: string, s: Scan): Outcome
    decreases lines
  {
    if lines == [] then if |torn| >= r.maxBytes then Broken else Done(s, true)
    else if |lines[0]| + 1 > r.maxBytes then Broken
    else
      match Scanned(r, id, cursor, lines[0], s)
      case Bad => Broken
      case Stop(s') => Done(s', false)
      case Continue(s') => ScanAll(r, id, cursor, lines[1..], torn, s')
  }

  function Begin(cursor: nat): Scan {
    Scan(Page([], cursor, false), 0, 0)
  }

  function Finished(r: Reader, cursor: nat, o: Outcome): ReadResult {
    if o.Broken? then Corrupt
    else if o.whole && cursor > o.scan.last then InvalidCursor
    else
      var page := o.scan.page.(complete := o.scan.terminal != 0 && o.scan.terminal <= o.scan.page.next);
      if Size(r.json, page) > r.maxBytes then Corrupt else Got(page)
  }

  function ReadLines(r: Reader, id: string, cursor: nat, file: string): ReadResult {
    Finished(r, cursor, ScanAll(r, id, cursor, Lines(file), Torn(file), Begin(cursor)))
  }

  method Read(r: Reader, id: string, cursor: nat, file: string) returns (result: ReadResult)
    ensures result == ReadLines(r, id, cursor, file)
  {
    var rest, s, whole := file, Begin(cursor), true;
    ghost var all := ScanAll(r, id, cursor, Lines(file), Torn(file), s);
    while whole && Sse.HasLF(rest)
      invariant if whole then ScanAll(r, id, cursor, Lines(rest), Torn(rest), s) == all else all == Done(s, false)
      decreases whole, |rest|
    {
      var end := Sse.LineEnd(rest);
      if end > r.maxBytes {
        return Corrupt;
      }
      var line := rest[..end - 1];
      rest := rest[end..];
      var verdict := Scanned(r, id, cursor, line, s);
      match verdict {
        case Bad => return Corrupt;
        case Stop(last) => s, whole := last, false;
        case Continue(more) => s := more;
      }
    }
    if whole && |rest| >= r.maxBytes {
      return Corrupt;
    }
    if whole && cursor > s.last {
      return InvalidCursor;
    }
    var page := s.page.(complete := s.terminal != 0 && s.terminal <= s.page.next);
    if Size(r.json, page) > r.maxBytes {
      return Corrupt;
    }
    return Got(page);
  }

  // ---------- From bytes to lines ----------

  predicate LinesOf(json: Codec, events: seq<Event>, lines: seq<string>) {
    |lines| == |events| && forall i :: 0 <= i < |events| ==> lines[i] == json.marshal(events[i])
  }

  lemma OneLine(line: string, rest: string)
    requires '\n' !in line
    ensures Lines(line + "\n" + rest) == [line] + Lines(rest) && Torn(line + "\n" + rest) == Torn(rest)
  {
    Sse.LineEndOf(line, rest);
    assert (line + "\n" + rest)[|line|] == '\n' && (line + "\n" + rest)[|line| + 1..] == rest;
    assert (line + "\n" + rest)[..|line|] == line;
  }

  /** A file of whole lines and a torn rest is split into exactly these. */
  lemma {:induction false} LinesOfLog(json: Codec, events: seq<Event>, torn: string)
    requires Lawful(json) && (forall e :: e in events ==> ValidEvent(e)) && '\n' !in torn
    ensures LinesOf(json, events, Lines(Logged(json, events) + torn)) && Torn(Logged(json, events) + torn) == torn
    decreases events
  {
    if events == [] {
      assert "" + torn == torn;
      Sse.LineEndOfTail(torn);
    } else {
      assert ValidEvent(events[0]);
      LinesOfLog(json, events[1..], torn);
      OneLine(json.marshal(events[0]), Logged(json, events[1..]) + torn);
      assert Logged(json, events) + torn == json.marshal(events[0]) + "\n" + (Logged(json, events[1..]) + torn);
    }
  }

  // ---------- Pages of a log ----------

  /** What the writer stores: the orderly events of one execution. */
  predicate LogOf(id: string, events: seq<Event>) {
    Sse.Orderly(events) && forall i :: 0 <= i < |events| ==> events[i].executionId == id
  }

  /** The page with the events from one cursor to another. */
  function PageFor(events: seq<Event>, from: nat, to: nat): Page
    requires from < to <= |events|
  {
    Page(events[from..to], to, events[to-1].kind.Terminal())
  }

  /** An event that fits into a page of its own. */
  predicate Readable(r: Reader, e: Event) {
    Size(r.json, Candidate(Page([], 0, false), e)) <= r.maxBytes
  }

  predicate AllReadable(r: Reader, events: seq<Event>) {
    r.maxEvents > 0 && forall i :: 0 <= i < |events| ==> Readable(r, events[i])
  }

  lemma TextsOne(json: Codec, events: seq<Event>, e: Event)
    ensures Texts(json, events + [e]) == Texts(json, events) + |json.marshal(e)|
  {
    assert (events + [e])[..|events|] == events;
  }

  lemma ReadableLine(r: Reader, e: Event)
    requires Readable(r, e)
    ensures |r.json.marshal(e)| + 1 <= r.maxBytes
  {
    TextsOne(r.json, [], e);
    assert [] + [e] == [e];
  }

  lemma {:induction false} LongerNumber(m: nat, n: nat)
    requires m <= n
    ensures |Format(m)| <= |Format(n)|
    decreases n
  {
    if m >= 10 {
      LongerNumber(m / 10, n / 10);
    }
  }

  /** One more event always makes the page longer. */
  lemma SizeGrows(json: Codec, events: seq<Event>, from: nat, to: nat)
    requires Lawful(json) && Sse.Orderly(events) && from < to < |events|
    ensures Size(json, PageFor(events, from, to + 1)) > Size(json, PageFor(events, from, to))
  {
    assert events[from..to + 1] == events[from..to] + [events[to]];
    TextsOne(json, events[from..to], events[to]);
    assert ValidEvent(events[to]) && |json.marshal(events[to])| > 0;
    assert !events[to-1].kind.Terminal();
    LongerNumber(to, to + 1);
  }

  function TerminalAt(events: seq<Event>, i: nat): nat
    requires i <= |events|
  {
    if i > 0 && events[i-1].kind.Terminal() then i else 0
  }

  /** The scan after the first i lines of a log, with room left on the page. */
  predicate At(r: Reader, events: seq<Event>, cursor: nat, i: nat, s: Scan) {
    && i <= |events| && s.last == i && s.terminal == TerminalAt(events, i)
    && (i <= cursor ==> s.page.events == [] && s.page.next == cursor)
    && (i > cursor ==> && s.page == PageFor(events, cursor, i)
                       && i - cursor < r.maxEvents && Size(r.json, s.page) < r.maxBytes)
  }

  /** The page is as long as the limits allow. */
  predicate Fills(r: Reader, events: seq<Event>, cursor: nat, to: nat) {
    && cursor < to <= |events|
    && to - cursor <= r.maxEvents && Size(r.json, PageFor(events, cursor, to)) <= r.maxBytes
    && (to == |events| || to - cursor == r.maxEvents || Size(r.json, PageFor(events, cursor, to + 1)) > r.maxBytes)
  }

  /** The scan stopped because the page is full. */
  predicate Full(r: Reader, events: seq<Event>, cursor: nat, s: Scan) {
    && Fills(r, events, cursor, s.page.next) && s.page == PageFor(events, cursor, s.page.next)
    && (s.terminal != 0 && s.terminal <= s.page.next <==> s.page.complete)
  }

  lemma CandidateIs(events: seq<Event>, id: string, cursor: nat, i: nat, p: Page)
    requires LogOf(id, events) && cursor <= i < |events|
    requires if i == cursor then p.events == [] else p == PageFor(events, cursor, i)
    ensures Candidate(p, events[i]) == PageFor(events, cursor, i + 1)
  {
    assert events[cursor..i + 1] == events[cursor..i] + [events[i]];
  }

  /** What the next event does to a page with room. */
  lemma NextFits(r: Reader, id: string, events: seq<Event>, cursor: nat, i: nat, p: Page)
    requires Lawful(r.json) && LogOf(id, events) && cursor <= i < |events|
    requires if i == cursor then p.events == [] else p == PageFor(events, cursor, i)
    ensures Candidate(p, events[i]) == PageFor(events, cursor, i + 1)
    ensures i == cursor ==> (Readable(r, events[i]) <==> Size(r.json, PageFor(events, cursor, i + 1)) <= r.maxBytes)
    ensures i + 1 < |events| ==>
              Size(r.json, PageFor(events, cursor, i + 2)) > Size(r.json, PageFor(events, cursor, i + 1))
  {
    CandidateIs(events, id, cursor, i, p);
    if i == cursor {
      assert Candidate(p, events[i]) == Candidate(Page([], 0, false), events[i]);
    }
    if i + 1 < |events| {
      SizeGrows(r.json, events, cursor, i + 1);
    }
  }

  lemma LineStored(r: Reader, id: string, events: seq<Event>, i: nat, last: nat)
    requires Lawful(r.json) && LogOf(id, events) && i < |events|
    ensures Stored(r.json, r.json.marshal(events[i])) == Some(events[i])
    ensures events[i].executionId == id && events[i].sequence == i + 1 && TerminalAt(events, i) == 0
  {
    assert ValidEvent(events[i]);
  }

  lemma LineSkipped(r: Reader, id: string, events: seq<Event>, cursor: nat, i: nat, s: Scan)
    requires Lawful(r.json) && LogOf(id, events) && i < |events| && i < cursor && At(r, events, cursor, i, s)
    ensures var v := Scanned(r, id, cursor, r.json.marshal(events[i]), s);
            v.Continue? && At(r, events, cursor, i + 1, v.scan)
  {
    LineStored(r, id, events, i, s.last);
  }

  /** The loop body for an event behind the cursor. */
  lemma LineWanted(r: Reader, id: string, cursor: nat, line: string, e: Event, s: Scan)
    requires Stored(r.json, line) == Some(e) && e.executionId == id && e.sequence == s.last + 1 > cursor
    requires s.terminal == 0 && |s.page.events| < r.maxEvents
    ensures var page := Candidate(s.page, e);
            var s' := Scan(s.page, e.sequence, if e.kind.Terminal() then e.sequence else 0);
            Scanned(r, id, cursor, line, s) ==
            if Size(r.json, page) > r.maxBytes then if s.page.events == [] then Bad else Stop(s')
            else if |page.events| == r.maxEvents || Size(r.json, page) == r.maxBytes then Stop(s'.(page := page))
            else Continue(s'.(page := page))
  {
  }

  /** The page from the cursor to event j has no room left. */
  predicate ClosedBefore(r: Reader, events: seq<Event>, cursor: nat, j: nat)
    requires cursor < j <= |events|
  {
    j - cursor >= r.maxEvents || Size(r.json, PageFor(events, cursor, j)) >= r.maxBytes
  }

  /** The verdict on the next event of the page, from how it changes the page. */
  lemma WantedVerdict(r: Reader, id: string, events: seq<Event>, cursor: nat, i: nat, line: string, s: Scan)
    requires cursor <= i < |events| && At(r, events, cursor, i, s) && r.maxEvents > 0
    requires Stored(r.json, line) == Some(events[i]) && events[i].executionId == id && events[i].sequence == i + 1
    requires TerminalAt(events, i) == 0 && Candidate(s.page, events[i]) == PageFor(events, cursor, i + 1)
    requires i + 1 < |events| ==>
               Size(r.json, PageFor(events, cursor, i + 2)) > Size(r.json, PageFor(events, cursor, i + 1))
    ensures var v := Scanned(r, id, cursor, line, s);
            && (v.Bad? <==> i == cursor && Size(r.json, PageFor(events, cursor, i + 1)) > r.maxBytes)
            && (v.Stop? ==> Full(r, events, cursor, v.scan) && ClosedBefore(r, events, cursor, i + 1))
            && (v.Continue? ==> At(r, events, cursor, i + 1, v.scan))
  {
    LineWanted(r, id, cursor, line, events[i], s);
  }

  lemma LineTaken(r: Reader, id: string, events: seq<Event>, cursor: nat, i: nat, s: Scan)
    requires Lawful(r.json) && LogOf(id, events) && r.maxEvents > 0
    requires cursor <= i < |events| && At(r, events, cursor, i, s)
    ensures var v := Scanned(r, id, cursor, r.json.marshal(events[i]), s);
            && (v.Bad? <==> i == cursor && !Readable(r, events[i]))
            && (v.Stop? ==> Full(r, events, cursor, v.scan) && ClosedBefore(r, events, cursor, i + 1))
            && (v.Continue? ==> At(r, events, cursor, i + 1, v.scan))
  {
    LineStored(r, id, events, i, s.last);
    NextFits(r, id, events, cursor, i, s.page);
    WantedVerdict(r, id, events, cursor, i, r.json.marshal(events[i]), s);
  }

  lemma ScanLine(r: Reader, id: string, cursor: nat, lines: seq<string>, torn: string, i: nat, s: Scan)
    requires i < |lines| && |lines[i]| + 1 <= r.maxBytes
    ensures ScanAll(r, id, cursor, lines[i..], torn, s) ==
            match Scanned(r, id, cursor, lines[i], s)
            case Bad => Broken
            case Stop(s1) => Done(s1, false)
            case Continue(s1) => ScanAll(r, id, cursor, lines[i+1..], torn, s1)
  {
    assert lines[i..][0] == lines[i] && lines[i..][1..] == lines[i+1..];
  }

  /** How a scan of the log ends: with every line taken or with a full page. */
  predicate Ends(r: Reader, events: seq<Event>, cursor: nat, o: Outcome) {
    o.Done? && if o.whole then At(r, events, cursor, |events|, o.scan) else Full(r, events, cursor, o.scan)
  }

  /** The line of an event is within the scanner's buffer. */
  predicate LineFits(r: Reader, e: Event) {
    |r.json.marshal(e)| + 1 <= r.maxBytes
  }

  /** Event j does not stand in the way of a read at this cursor: its line is within the buffer or is not
      reached, and the first event of the page fits into a page of its own. */
  predicate Passable(r: Reader, events: seq<Event>, cursor: nat, j: nat)
    requires j < |events|
  {
    if j < cursor then LineFits(r, events[j])
    else if j == cursor then Readable(r, events[j])
    else LineFits(r, events[j]) || ClosedBefore(r, events, cursor, j)
  }

  /** The torn rest of the file is within the buffer or is not reached. */
  predicate TornPassable(r: Reader, events: seq<Event>, cursor: nat, torn: string) {
    |torn| < r.maxBytes || (cursor < |events| && ClosedBefore(r, events, cursor, |events|))
  }

  /** Nothing from line i on stands in the way. */
  predicate PassableFrom(r: Reader, events: seq<Event>, cursor: nat, torn: string, i: nat) {
    (forall j :: i <= j < |events| ==> Passable(r, events, cursor, j)) && TornPassable(r, events, cursor, torn)
  }

  /** A page without room stays without room. */
  lemma {:induction false} ClosedStays(r: Reader, events: seq<Event>, cursor: nat, j: nat, k: nat)
    requires Lawful(r.json) && Sse.Orderly(events) && cursor < j <= k <= |events| && ClosedBefore(r, events, cursor, j)
    ensures ClosedBefore(r, events, cursor, k)
    decreases k - j
  {
    if j < k {
      SizeGrows(r.json, events, cursor, j);
      ClosedStays(r, events, cursor, j + 1, k);
    }
  }

  lemma ClosedPasses(r: Reader, events: seq<Event>, cursor: nat, torn: string, i: nat)
    requires Lawful(r.json) && Sse.Orderly(events) && cursor < i <= |events| && ClosedBefore(r, events, cursor, i)
    ensures PassableFrom(r, events, cursor, torn, i)
  {
    forall j | i <= j <= |events|
      ensures ClosedBefore(r, events, cursor, j)
    {
      ClosedStays(r, events, cursor, i, j);
    }
  }

  /** One line in front of the rest. */
  lemma PassableFirst(r: Reader, events: seq<Event>, cursor: nat, torn: string, i: nat)
    requires i < |events|
    ensures PassableFrom(r, events, cursor, torn, i) <==>
            Passable(r, events, cursor, i) && PassableFrom(r, events, cursor, torn, i + 1)
  {
  }

  /** With room on the page the next line must be within the buffer. */
  lemma LineNeeded(r: Reader, events: seq<Event>, cursor: nat, i: nat, s: Scan)
    requires i < |events| && At(r, events, cursor, i, s) && Passable(r, events, cursor, i)
    ensures LineFits(r, events[i])
  {
    if i == cursor {
      ReadableLine(r, events[i]);
    }
  }

  /** The scan of the rest of a log ends as it should exactly when nothing stands in the way; otherwise it
      breaks. */
  ghost predicate ScansExactly(r: Reader, id: string, events: seq<Event>, lines: seq<string>, torn: string, cursor: nat, i: nat, s: Scan)
    requires i <= |lines|
  {
    var o := ScanAll(r, id, cursor, lines[i..], torn, s);
    if PassableFrom(r, events, cursor, torn, i) then Ends(r, events, cursor, o) else o.Broken?
  }

  /** What a verdict on line i says about the event and about the rest. */
  predicate VerdictIs(r: Reader, events: seq<Event>, cursor: nat, torn: string, i: nat, v: Verdict)
    requires i < |events|
  {
    && (v.Bad? <==> i == cursor && !Readable(r, events[i]))
    && (v.Stop? ==> Full(r, events, cursor, v.scan) && PassableFrom(r, events, cursor, torn, i + 1))
    && (v.Continue? ==> At(r, events, cursor, i + 1, v.scan))
  }

  /** A verdict on a line behind the cursor, with what its event closes. */
  lemma TakenVerdict(r: Reader, events: seq<Event>, cursor: nat, torn: string, i: nat, v: Verdict)
    requires Lawful(r.json) && Sse.Orderly(events) && cursor <= i < |events|
    requires v.Bad? <==> i == cursor && !Readable(r, events[i])
    requires v.Stop? ==> Full(r, events, cursor, v.scan) && ClosedBefore(r, events, cursor, i + 1)
    requires v.Continue? ==> At(r, events, cursor, i + 1, v.scan)
    ensures VerdictIs(r, events, cursor, torn, i, v)
  {
    if v.Stop? {
      ClosedPasses(r, events, cursor, torn, i + 1);
    }
  }

  /** The verdict on any line of a log, skipped or wanted. */
  lemma LineVerdict(r: Reader, id: string, events: seq<Event>, cursor: nat, torn: string, i: nat, s: Scan)
    requires Lawful(r.json) && LogOf(id, events) && r.maxEvents > 0 && i < |events| && At(r, events, cursor, i, s)
    ensures VerdictIs(r, events, cursor, torn, i, Scanned(r, id, cursor, r.json.marshal(events[i]), s))
  {
    if i < cursor {
      LineSkipped(r, id, events, cursor, i, s);
    } else {
      LineTaken(r, id, events, cursor, i, s);
      TakenVerdict(r, events, cursor, torn, i, Scanned(r, id, cursor, r.json.marshal(events[i]), s));
    }
  }

  lemma {:induction false} LogScanned(r: Reader, id: string, events: seq<Event>, lines: seq<string>, torn: string,
                                      cursor: nat, i: nat, s: Scan)
    requires Lawful(r.json) && LogOf(id, events) && r.maxEvents > 0 && LinesOf(r.json, events, lines)
    requires At(r, events, cursor, i, s)
    ensures ScansExactly(r, id, events, lines, torn, cursor, i, s)
    decreases |events| - i
  {
    if i == |events| {
      EndScanned(r, id, events, lines, torn, cursor, s);
    } else if LineFits(r, events[i]) {
      LineVerdict(r, id, events, cursor, torn, i, s);
      var v := Scanned(r, id, cursor, lines[i], s);
      if v.Continue? {
        LogScanned(r, id, events, lines, torn, cursor, i + 1, v.scan);
      }
      FittingScanned(r, id, events, lines, torn, cursor, i, s);
    } else {
      LongScanned(r, id, events, lines, torn, cursor, i, s);
    }
  }

  lemma LongScanned(r: Reader, id: string, events: seq<Event>, lines: seq<string>, torn: string, cursor: nat, i: nat, s: Scan)
    requires LinesOf(r.json, events, lines) && i < |events| && !LineFits(r, events[i]) && At(r, events, cursor, i, s)
    ensures ScansExactly(r, id, events, lines, torn, cursor, i, s)
  {
    if Passable(r, events, cursor, i) {
      LineNeeded(r, events, cursor, i, s);
    }
    assert lines[i..][0] == lines[i];
  }

  lemma EndScanned(r: Reader, id: string, events: seq<Event>, lines: seq<string>, torn: string, cursor: nat, s: Scan)
    requires LinesOf(r.json, events, lines) && At(r, events, cursor, |events|, s)
    ensures ScansExactly(r, id, events, lines, torn, cursor, |events|, s)
  {
    assert lines[|events|..] == [];
  }

  /** A line within the buffer, from what is known of its verdict and of the rest. */
  lemma FittingScanned(r: Reader, id: string, events: seq<Event>, lines: seq<string>, torn: string, cursor: nat, i: nat, s: Scan)
    requires LinesOf(r.json, events, lines) && i < |events| && LineFits(r, events[i])
    requires var v := Scanned(r, id, cursor, lines[i], s);
             && VerdictIs(r, events, cursor, torn, i, v)
             && (v.Continue? ==> ScansExactly(r, id, events, lines, torn, cursor, i + 1, v.scan))
    ensures ScansExactly(r, id, events, lines, torn, cursor, i, s)
  {
    ScanLine(r, id, cursor, lines, torn, i, s);
    PassableFirst(r, events, cursor, torn, i);
  }

  /** A page answers a cursor exactly: the events right behind the cursor, as many as the limits allow and
      at least one if there is one, and `complete` when the terminal event has been reached. */
  predicate Answers(r: Reader, events: seq<Event>, cursor: nat, p: Page) {
    && cursor <= p.next <= |events| && p.events == events[cursor..p.next]
    && |p.events| <= r.maxEvents && Size(r.json, p) <= r.maxBytes
    && (cursor < |events| ==> Fills(r, events, cursor, p.next))
    && (p.complete <==> p.next == |events| && Sse.IsOver(events))
  }

  /** The page without events can be written at this cursor. */
  predicate EmptyFits(r: Reader, cursor: nat) {
    Size(r.json, Page([], cursor, false)) <= r.maxBytes
  }

  /** The least limit the reader's constructor admits is enough for every cursor below 10^19. */
  lemma EmptyAlwaysFits(r: Reader, cursor: nat)
    requires r.maxBytes >= 64 && cursor < Pow10(19)
    ensures EmptyFits(r, cursor)
  {
    FormatLength(cursor, 19);
  }

  lemma TerminalIsLast(events: seq<Event>, i: nat)
    requires Sse.Orderly(events) && 0 < i <= |events|
    ensures events[i-1].kind.Terminal() <==> i == |events| && Sse.IsOver(events)
  {
  }

  lemma WholeAnswers(r: Reader, events: seq<Event>, cursor: nat, s: Scan)
    requires Sse.Orderly(events) && At(r, events, cursor, |events|, s) && (cursor == |events| ==> EmptyFits(r, cursor))
    ensures cursor <= |events| ==>
              var p := s.page.(complete := s.terminal != 0 && s.terminal <= s.page.next);
              Size(r.json, p) <= r.maxBytes && Answers(r, events, cursor, p)
  {
    if |events| > 0 {
      TerminalIsLast(events, |events|);
    }
    if cursor == |events| {
      assert events[cursor..cursor] == [];
    }
  }

  lemma FullAnswers(r: Reader, events: seq<Event>, cursor: nat, s: Scan)
    requires Sse.Orderly(events) && Full(r, events, cursor, s)
    ensures var p := s.page.(complete := s.terminal != 0 && s.terminal <= s.page.next);
            p == s.page && cursor <= |events| && Answers(r, events, cursor, p)
  {
    TerminalIsLast(events, s.page.next);
  }

  lemma EndsAnswers(r: Reader, events: seq<Event>, cursor: nat, o: Outcome)
    requires Sse.Orderly(events) && Ends(r, events, cursor, o) && (cursor == |events| ==> EmptyFits(r, cursor))
    ensures var result := Finished(r, cursor, o);
            if cursor > |events| then result == InvalidCursor
            else result.Got? && Answers(r, events, cursor, result.page)
  {
    if o.whole {
      WholeAnswers(r, events, cursor, o.scan);
    } else {
      FullAnswers(r, events, cursor, o.scan);
    }
  }

  /** Exactly when a read of any log succeeds: every line it has to look at is within the scanner's buffer, and
      the event behind the cursor fits into a page of its own. A read that succeeds answers the cursor, one
      that does not reports a corrupt log. Only the last line of the file may be torn. */
  lemma ReadSucceedsExactly(r: Reader, id: string, events: seq<Event>, torn: string, cursor: nat)
    requires Lawful(r.json) && LogOf(id, events) && r.maxEvents > 0 && '\n' !in torn
    requires cursor == |events| ==> EmptyFits(r, cursor)
    ensures var result := ReadLines(r, id, cursor, Logged(r.json, events) + torn);
            if !PassableFrom(r, events, cursor, torn, 0) then result == Corrupt
            else if cursor > |events| then result == InvalidCursor
            else result.Got? && Answers(r, events, cursor, result.page)
  {
    var lines := Lines(Logged(r.json, events) + torn);
    LinesOfLog(r.json, events, torn);
    assert lines[0..] == lines;
    LogScanned(r, id, events, lines, torn, cursor, 0, Begin(cursor));
    var o := ScanAll(r, id, cursor, lines, torn, Begin(cursor));
    if PassableFrom(r, events, cursor, torn, 0) {
      EndsAnswers(r, events, cursor, o);
    }
  }

  /** Reading a log of readable events of which only the last line may be torn. */
  lemma ReadLog(r: Reader, id: string, events: seq<Event>, torn: string, cursor: nat)
    requires Lawful(r.json) && LogOf(id, events) && AllReadable(r, events)
    requires '\n' !in torn && |torn| < r.maxBytes && EmptyFits(r, cursor)
    ensures var result := ReadLines(r, id, cursor, Logged(r.json, events) + torn);
            if cursor > |events| then result == InvalidCursor
            else result.Got? && Answers(r, events, cursor, result.page)
  {
    forall j: nat | j < |events|
      ensures Passable(r, events, cursor, j)
    {
      ReadableLine(r, events[j]);
    }
    ReadSucceedsExactly(r, id, events, torn, cursor);
  }

  // ---------- Following a growing file ----------

  /** How many whole lines the first n bytes of a log hold. */
  function Whole(json: Codec, events: seq<Event>, n: nat): nat
    ensures Whole(json, events, n) <= |events|
    decreases events
  {
    if events == [] || n < |json.marshal(events[0])| + 1 then 0
    else 1 + Whole(json, events[1..], n - |json.marshal(events[0])| - 1)
  }

  lemma {:induction false} WholeGrows(json: Codec, events: seq<Event>, m: nat, n: nat)
    requires m <= n
    ensures Whole(json, events, m) <= Whole(json, events, n)
    decreases events
  {
    if events != [] && m >= |json.marshal(events[0])| + 1 {
      WholeGrows(json, events[1..], m - |json.marshal(events[0])| - 1, n - |json.marshal(events[0])| - 1);
    }
  }

  lemma {:induction false} WholeIsAll(json: Codec, events: seq<Event>)
    ensures Whole(json, events, |Logged(json, events)|) == |events|
    decreases events
  {
    if events != [] {
      WholeIsAll(json, events[1..]);
    }
  }

  /** What the first n bytes of a log hold behind the last whole line. */
  function TornAt(json: Codec, events: seq<Event>, n: nat): string
    decreases events
  {
    if events == [] then ""
    else if n < |json.marshal(events[0])| + 1 then json.marshal(events[0])[..n]
    else TornAt(json, events[1..], n - |json.marshal(events[0])| - 1)
  }

  lemma FirstLine(json: Codec, events: seq<Event>, k: nat)
    requires 0 < k <= |events|
    ensures Logged(json, events[..k]) == json.marshal(events[0]) + "\n" + Logged(json, events[1..][..k-1])
  {
    assert events[..k][1..] == events[1..][..k-1];
  }

  /** Any prefix of the log's bytes is whole lines and one torn line, which a scanner can hold if it can hold
      the lines of the log. */
  lemma {:induction false} PrefixOfLog(r: Reader, events: seq<Event>, n: nat)
    requires Lawful(r.json) && n <= |Logged(r.json, events)| && r.maxBytes > 0
    requires forall i :: 0 <= i < |events| ==> ValidEvent(events[i])
    ensures Logged(r.json, events)[..n] == Logged(r.json, events[..Whole(r.json, events, n)]) + TornAt(r.json, events, n)
    ensures '\n' !in TornAt(r.json, events, n)
    ensures (forall i :: 0 <= i < |events| ==> LineFits(r, events[i])) ==> |TornAt(r.json, events, n)| < r.maxBytes
    decreases events
  {
    if events != [] {
      var text, rest := r.json.marshal(events[0]), Logged(r.json, events[1..]);
      assert ValidEvent(events[0]);
      if n < |text| + 1 {
        assert (text + "\n" + rest)[..n] == text[..n];
        assert "" + text[..n] == text[..n];
      } else {
        PrefixOfLog(r, events[1..], n - |text| - 1);
        assert (text + "\n" + rest)[..n] == text + "\n" + rest[..n - |text| - 1];
        var k := Whole(r.json, events, n);
        FirstLine(r.json, events, k);
        Reassociate(text, Logged(r.json, events[1..][..k-1]), TornAt(r.json, events, n));
      }
    }
  }

  lemma Reassociate(a: string, b: string, c: string)
    ensures a + "\n" + (b + c) == a + "\n" + b + c
  {
  }

  lemma LogPrefix(id: string, events: seq<Event>, k: nat)
    requires LogOf(id, events) && k <= |events|
    ensures LogOf(id, events[..k])
  {
  }

  /** Reading while the file grows: whatever part of the log has been written, the page answers the cursor
      on the whole lines in it. */
  lemma ReadWhileGrowing(r: Reader, id: string, events: seq<Event>, n: nat, cursor: nat)
    requires Lawful(r.json) && LogOf(id, events) && AllReadable(r, events) && r.maxBytes > 0 && EmptyFits(r, cursor)
    requires n <= |Logged(r.json, events)|
    ensures var written := events[..Whole(r.json, events, n)];
            var result := ReadLines(r, id, cursor, Logged(r.json, events)[..n]);
            if cursor > |written| then result == InvalidCursor
            else result.Got? && Answers(r, written, cursor, result.page)
  {
    PrefixOfLog(r, events, n);
    forall i | 0 <= i < |events|
      ensures LineFits(r, events[i])
    {
      ReadableLine(r, events[i]);
    }
    LogPrefix(id, events, Whole(r.json, events, n));
    ReadLog(r, id, events[..Whole(r.json, events, n)], TornAt(r.json, events, n), cursor);
  }

  /** A client that follows `next` over a growing file; `sizes` are the file sizes its reads find. It
      stops with None at the first error. */
  function Followed(r: Reader, id: string, log: string, sizes: seq<nat>, cursor: nat): Option<seq<Event>>
    requires forall i :: 0 <= i < |sizes| ==> sizes[i] <= |log|
    decreases sizes
  {
    if sizes == [] then Some([])
    else
      var result := ReadLines(r, id, cursor, log[..sizes[0]]);
      if !result.Got? then None
      else
        var later := Followed(r, id, log, sizes[1..], result.page.next);
        if later.None? then None else Some(result.page.events + later.value)
  }

  predicate Ascending(sizes: seq<nat>, limit: nat) {
    && (forall i :: 0 <= i < |sizes| ==> sizes[i] <= limit)
    && (forall i, j :: 0 <= i < j < |sizes| ==> sizes[i] <= sizes[j])
  }

  /** What every read of a client relies on. */
  ghost predicate Served(r: Reader, id: string, events: seq<Event>) {
    && Lawful(r.json) && LogOf(id, events) && AllReadable(r, events) && r.maxBytes > 0
    && forall c :: 0 <= c <= |events| ==> EmptyFits(r, c)
  }

  lemma OnePage(r: Reader, id: string, events: seq<Event>, n: nat, cursor: nat)
    requires Served(r, id, events) && n <= |Logged(r.json, events)| && cursor <= Whole(r.json, events, n)
    ensures var result := ReadLines(r, id, cursor, Logged(r.json, events)[..n]);
            && result.Got? && cursor <= result.page.next <= Whole(r.json, events, n)
            && result.page.events == events[cursor..result.page.next]
            && (cursor < Whole(r.json, events, n) ==> result.page.next > cursor)
  {
    assert EmptyFits(r, cursor);
    ReadWhileGrowing(r, id, events, n, cursor);
    AnswersAdvance(r, events, Whole(r.json, events, n), cursor, ReadLines(r, id, cursor, Logged(r.json, events)[..n]).page);
  }

  lemma AnswersAdvance(r: Reader, events: seq<Event>, k: nat, cursor: nat, p: Page)
    requires k <= |events| && Answers(r, events[..k], cursor, p)
    ensures cursor <= p.next <= k && p.events == events[cursor..p.next] && (cursor < k ==> p.next > cursor)
  {
    assert events[..k][cursor..p.next] == events[cursor..p.next];
  }

  lemma Joins(events: seq<Event>, from: nat, to: nat, later: seq<Event>)
    requires from <= to <= |events| && later <= events[to..]
    ensures events[from..to] + later <= events[from..]
    ensures later == events[to..] ==> events[from..to] + later == events[from..]
  {
    assert events[from..to] + events[to..] == events[from..];
  }

  /** The reads behind the first one, from where its page ends. */
  lemma FollowedStep(r: Reader, id: string, log: string, sizes: seq<nat>, cursor: nat)
    requires sizes != [] && (forall i :: 0 <= i < |sizes| ==> sizes[i] <= |log|)
    requires ReadLines(r, id, cursor, log[..sizes[0]]).Got?
    requires Followed(r, id, log, sizes[1..], ReadLines(r, id, cursor, log[..sizes[0]]).page.next).Some?
    ensures var page := ReadLines(r, id, cursor, log[..sizes[0]]).page;
            Followed(r, id, log, sizes, cursor) ==
            Some(page.events + Followed(r, id, log, sizes[1..], page.next).value)
  {
  }

  /** Following the cursor from any place never fails and yields the events behind it once each, in
      order and without gaps. */
  lemma {:induction false} FollowingYieldsEachOnce(r: Reader, id: string, events: seq<Event>, sizes: seq<nat>, cursor: nat)
    requires Served(r, id, events) && Ascending(sizes, |Logged(r.json, events)|) && cursor <= |events|
    requires sizes != [] ==> cursor <= Whole(r.json, events, sizes[0])
    ensures var got := Followed(r, id, Logged(r.json, events), sizes, cursor);
            got.Some? && got.value <= events[cursor..]
    decreases sizes
  {
    if sizes != [] {
      var log := Logged(r.json, events);
      OnePage(r, id, events, sizes[0], cursor);
      var next := ReadLines(r, id, cursor, log[..sizes[0]]).page.next;
      if |sizes| > 1 {
        WholeGrows(r.json, events, sizes[0], sizes[1]);
      }
      FollowingYieldsEachOnce(r, id, events, sizes[1..], next);
      FollowedStep(r, id, log, sizes, cursor);
      Joins(events, cursor, next, Followed(r, id, log, sizes[1..], next).value);
    }
  }

  /** Once the log is complete, as many reads as there are events left are enough to get all of them. */
  lemma {:induction false} FollowingReachesTheEnd(r: Reader, id: string, events: seq<Event>, sizes: seq<nat>, cursor: nat)
    requires Served(r, id, events) && cursor <= |events| <= cursor + |sizes|
    requires forall i :: 0 <= i < |sizes| ==> sizes[i] == |Logged(r.json, events)|
    ensures Followed(r, id, Logged(r.json, events), sizes, cursor) == Some(events[cursor..])
    decreases sizes
  {
    if sizes == [] {
      assert events[cursor..] == [];
    } else {
      var log := Logged(r.json, events);
      WholeIsAll(r.json, events);
      OnePage(r, id, events, sizes[0], cursor);
      var next := ReadLines(r, id, cursor, log[..sizes[0]]).page.next;
      FollowingReachesTheEnd(r, id, events, sizes[1..], next);
      FollowedStep(r, id, log, sizes, cursor);
      Joins(events, cursor, next, events[next..]);
    }
  }

  // ---------- Events that no page can hold ----------

  /** An event that does not fit into a page of its own stops a reader at its cursor. */
  lemma UnreadableStops(r: Reader, id: string, events: seq<Event>, torn: string, cursor: nat)
    requires Lawful(r.json) && LogOf(id, events) && '\n' !in torn && r.maxEvents > 0
    requires cursor < |events| && !Readable(r, events[cursor])
    ensures ReadLines(r, id, cursor, Logged(r.json, events) + torn) == Corrupt
  {
    assert !Passable(r, events, cursor, cursor);
    ReadSucceedsExactly(r, id, events, torn, cursor);
  }

  /** A line that the scanner cannot hold stops every reader at or behind its event, and every reader in front of
      it whose page has room up to it, although the events of that page are readable. */
  lemma LongLineStops(r: Reader, id: string, events: seq<Event>, torn: string, cursor: nat, j: nat)
    requires Lawful(r.json) && LogOf(id, events) && '\n' !in torn && r.maxEvents > 0
    requires j < |events| && !LineFits(r, events[j]) && (cursor == |events| ==> EmptyFits(r, cursor))
    requires cursor >= j || !ClosedBefore(r, events, cursor, j)
    ensures ReadLines(r, id, cursor, Logged(r.json, events) + torn) == Corrupt
  {
    if cursor == j && Readable(r, events[j]) {
      ReadableLine(r, events[j]);
    }
    assert !Passable(r, events, cursor, j);
    ReadSucceedsExactly(r, id, events, torn, cursor);
  }

  /** The log as a whole: every cursor is answered exactly when every event fits into a page of its own. */
  lemma EveryCursorIsAnsweredExactly(r: Reader, id: string, events: seq<Event>, torn: string)
    requires Lawful(r.json) && LogOf(id, events) && r.maxEvents > 0 && '\n' !in torn && |torn| < r.maxBytes
    requires forall c :: 0 <= c <= |events| ==> EmptyFits(r, c)
    ensures AllReadable(r, events) <==>
            forall c :: 0 <= c <= |events| ==> ReadLines(r, id, c, Logged(r.json, events) + torn).Got?
  {
    if AllReadable(r, events) {
      forall c | 0 <= c <= |events|
        ensures ReadLines(r, id, c, Logged(r.json, events) + torn).Got?
      {
        ReadLog(r, id, events, torn, c);
      }
    } else {
      var c: nat :| c < |events| && !Readable(r, events[c]);
      UnreadableStops(r, id, events, torn, c);
    }
  }

  /** Everything a read delivers, of any file, fits into a page of its own. */
  predicate PageReadable(r: Reader, p: Page) {
    forall i :: 0 <= i < |p.events| ==> Readable(r, p.events[i])
  }

  lemma {:induction false} TextsContain(json: Codec, events: seq<Event>, e: Event)
    ensures Texts(json, events + [e]) >= |json.marshal(e)| == Texts(json, [e])
  {
    TextsOne(json, events, e);
    TextsOne(json, [], e);
    assert [] + [e] == [e];
  }

  lemma {:induction false} ScanDelivers(r: Reader, id: string, cursor: nat, lines: seq<string>, torn: string, s: Scan)
    requires PageReadable(r, s.page)
    ensures var o := ScanAll(r, id, cursor, lines, torn, s); o.Done? ==> PageReadable(r, o.scan.page)
    decreases lines
  {
    if lines != [] && |lines[0]| + 1 <= r.maxBytes && !Scanned(r, id, cursor, lines[0], s).Bad? {
      var e := Stored(r.json, lines[0]).value;
      TextsContain(r.json, s.page.events, e);
      var v := Scanned(r, id, cursor, lines[0], s);
      assert PageReadable(r, v.scan.page);
      if v.Continue? {
        ScanDelivers(r, id, cursor, lines[1..], torn, v.scan);
      }
    }
  }

  lemma DeliveredIsReadable(r: Reader, id: string, cursor: nat, file: string)
    ensures var result := ReadLines(r, id, cursor, file);
            result.Got? ==> PageReadable(r, result.page)
  {
    ScanDelivers(r, id, cursor, Lines(file), Torn(file), Begin(cursor));
  }

  lemma {:induction false} FollowedIsReadable(r: Reader, id: string, log: string, sizes: seq<nat>, cursor: nat)
    requires forall i :: 0 <= i < |sizes| ==> sizes[i] <= |log|
    ensures var got := Followed(r, id, log, sizes, cursor);
            got.Some? ==> forall i :: 0 <= i < |got.value| ==> Readable(r, got.value[i])
    decreases sizes
  {
    if sizes != [] {
      var result := ReadLines(r, id, cursor, log[..sizes[0]]);
      DeliveredIsReadable(r, id, cursor, log[..sizes[0]]);
      if result.Got? {
        FollowedIsReadable(r, id, log, sizes[1..], result.page.next);
      }
    }
  }

  /** The client's side: over a finished log, enough reads from the start deliver every event exactly when every
      event fits into a page of its own. */
  lemma ClientGetsAllExactly(r: Reader, id: string, events: seq<Event>, sizes: seq<nat>)
    requires Lawful(r.json) && LogOf(id, events) && r.maxEvents > 0 && r.maxBytes > 0
    requires forall c :: 0 <= c <= |events| ==> EmptyFits(r, c)
    requires |sizes| >= |events| && forall i :: 0 <= i < |sizes| ==> sizes[i] == |Logged(r.json, events)|
    ensures Followed(r, id, Logged(r.json, events), sizes, 0) == Some(events) <==> AllReadable(r, events)
  {
    assert events[0..] == events;
    FollowedIsReadable(r, id, Logged(r.json, events), sizes, 0);
    if AllReadable(r, events) {
      FollowingReachesTheEnd(r, id, events, sizes, 0);
    }
  }

  /** A concrete log: with a page limit of 300 bytes, a first event of 100 bytes is readable, but the line of the
      300 bytes long second event keeps a client from ever getting even the first. */
  lemma LongLineHidesEarlierEvents(r: Reader, id: string, first: Event, second: Event)
    requires Lawful(r.json) && LogOf(id, [first, second]) && r.maxEvents == 10 && r.maxBytes == 300
    requires |r.json.marshal(first)| == 100 && |r.json.marshal(second)| == 300
    ensures Readable(r, first)
    ensures forall cursor :: 0 <= cursor <= 2 ==> ReadLines(r, id, cursor, Logged(r.json, [first, second])) == Corrupt
  {
    var events := [first, second];
    TextsOne(r.json, [], first);
    assert [] + [first] == [first] && events[0] == first && events[1] == second;
    assert PageFor(events, 0, 1) == Candidate(Page([], 0, false), first);
    assert Logged(r.json, events) + "" == Logged(r.json, events);
    forall cursor | 0 <= cursor <= 2
      ensures ReadLines(r, id, cursor, Logged(r.json, events)) == Corrupt
    {
      LongLineStops(r, id, events, "", cursor, 1);
    }
  }

  // ---------- Any file at all ----------

  /** The page of a scan over anything: contiguous events of this execution right behind the cursor. */
  predicate Contiguous(id: string, cursor: nat, p: Page) {
    && p.next == cursor + |p.events|
    && forall i :: 0 <= i < |p.events| ==>
         ValidEvent(p.events[i]) && p.events[i].executionId == id && p.events[i].sequence == cursor + i + 1
  }

  predicate PageInv(r: Reader, id: string, cursor: nat, s: Scan) {
    && Contiguous(id, cursor, s.page) && |s.page.events| <= r.maxEvents
    && (s.last <= cursor ==> s.page.events == [])
  }

  lemma ContiguousGrows(id: string, cursor: nat, p: Page, e: Event)
    requires Contiguous(id, cursor, p) && ValidEvent(e) && e.executionId == id && e.sequence == p.next + 1
    ensures Contiguous(id, cursor, Candidate(p, e))
  {
  }

  lemma ScannedSafe(r: Reader, id: string, cursor: nat, line: string, s: Scan)
    requires Lawful(r.json) && PageInv(r, id, cursor, s) && (s.last > cursor ==> s.last == s.page.next)
    ensures var v := Scanned(r, id, cursor, line, s);
            && (v.Stop? ==> PageInv(r, id, cursor, v.scan))
            && (v.Continue? ==> PageInv(r, id, cursor, v.scan) && (v.scan.last > cursor ==> v.scan.last == v.scan.page.next))
  {
    var e := Stored(r.json, line);
    if e.Some? && e.value.executionId == id && e.value.sequence == s.last + 1 > cursor {
      assert r.json.unmarshal(line) == e;
      ContiguousGrows(id, cursor, s.page, e.value);
      if s.terminal == 0 && |s.page.events| < r.maxEvents {
        LineWanted(r, id, cursor, line, e.value, s);
      }
    }
  }

  lemma {:induction false} ScanSafe(r: Reader, id: string, cursor: nat, lines: seq<string>, torn: string, s: Scan)
    requires Lawful(r.json) && PageInv(r, id, cursor, s) && (s.last > cursor ==> s.last == s.page.next)
    ensures var o := ScanAll(r, id, cursor, lines, torn, s);
            o.Done? ==> PageInv(r, id, cursor, o.scan)
    decreases lines
  {
    if lines != [] && |lines[0]| + 1 <= r.maxBytes {
      ScannedSafe(r, id, cursor, lines[0], s);
      var v := Scanned(r, id, cursor, lines[0], s);
      if v.Continue? {
        ScanSafe(r, id, cursor, lines[1..], torn, v.scan);
      }
    }
  }

  /** Whatever the file holds, a page that is returned holds valid events of the execution, contiguous
      behind the cursor, ends at its cursor, and keeps both limits. */
  lemma AnyFileIsSafe(r: Reader, id: string, cursor: nat, file: string)
    requires Lawful(r.json)
    ensures var result := ReadLines(r, id, cursor, file);
            result.Got? ==>
              && result.page.next == cursor + |result.page.events|
              && |result.page.events| <= r.maxEvents && Size(r.json, result.page) <= r.maxBytes
              && forall i :: 0 <= i < |result.page.events| ==>
                   && ValidEvent(result.page.events[i]) && result.page.events[i].executionId == id
                   && result.page.events[i].sequence == cursor + i + 1
  {
    ScanSafe(r, id, cursor, Lines(file), Torn(file), Begin(cursor));
  }
}
