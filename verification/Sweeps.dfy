/** Keyset sweeps: the bounded candidate sweep, the scanner that wakes what it finds, and the idempotency
    collector with its two-part cursor (internal/reconcile/candidate_sweeper.go:43-82,
    internal/reconcile/candidate_scanner.go:56-85, internal/reconcile/idempotency_gc.go:52-77). */
module Sweeps {
  import opened Wrappers
  import opened Ordering

  predicate Ascending(keys: seq<string>) {
    forall i, j :: 0 <= i < j < |keys| ==> Less(keys[i], keys[j])
  }

  // ---------- The candidate sweep ----------

  /** A store: the page behind a cursor, or an error. */
  type Source = (string, nat) -> Option<seq<string>>

  datatype Outcome = Done | StoreError | Oversized | NotAdvancing | ConsumerError | TooManyPages

  /** The check of the inner loop: every ID is behind the one before it. */
  predicate Advancing(previous: string, page: seq<string>) {
    page == [] || (AdvancesTo(previous, page[0]) && forall i :: 1 <= i < |page| ==> AdvancesTo(page[i-1], page[i]))
  }

  predicate AdvancesTo(previous: string, id: string) {
    id != "" && Less(previous, id)
  }

  /** `Sweep` from a cursor on, when the consumer has been given some IDs already: how it ends and what the
      consumer has been given then. */
  function Swept(source: Source, takes: seq<string> -> bool, after: string, given: seq<string>, limit: nat, pages: nat)
    : (Outcome, seq<string>)
    decreases pages
  {
    if pages == 0 then (TooManyPages, given)
    else
      var page := source(after, limit);
      if page.None? then (StoreError, given)
      else if |page.value| > limit then (Oversized, given)
      else if !Advancing(after, page.value) then (NotAdvancing, given)
      else if page.value == [] then (Done, given)
      else if !takes(page.value) then (ConsumerError, given)
      else if |page.value| < limit then (Done, given + page.value)
      else Swept(source, takes, page.value[|page.value|-1], given + page.value, limit, pages - 1)
  }

  method CheckPage(after: string, page: seq<string>) returns (ok: bool)
    ensures ok == Advancing(after, page)
  {
    var previous := after;
    for i := 0 to |page|
      invariant previous == if i == 0 then after else page[i-1]
      invariant i > 0 ==> AdvancesTo(after, page[0])
      invariant forall j :: 1 <= j < i ==> AdvancesTo(page[j-1], page[j])
    {
      if page[i] == "" || !Less(previous, page[i]) {
        assert !AdvancesTo(previous, page[i]);
        return false;
      }
      previous := page[i];
    }
    return true;
  }

  method Sweep(source: Source, takes: seq<string> -> bool, limit: nat, maxPages: nat) returns (outcome: Outcome, given: seq<string>)
    ensures (outcome, given) == Swept(source, takes, "", [], limit, maxPages)
  {
    var after := "";
    given := [];
    for pageNumber := 0 to maxPages
      invariant Swept(source, takes, after, given, limit, maxPages - pageNumber) == Swept(source, takes, "", [], limit, maxPages)
    {
      var page := source(after, limit);
      if page.None? {
        return StoreError, given;
      }
      if |page.value| > limit {
        return Oversized, given;
      }
      var ok := CheckPage(after, page.value);
      if !ok {
        return NotAdvancing, given;
      }
      if |page.value| == 0 {
        return Done, given;
      }
      if !takes(page.value) {
        return ConsumerError, given;
      }
      given := given + page.value;
      if |page.value| < limit {
        return Done, given;
      }
      after := page.value[|page.value|-1];
    }
    return TooManyPages, given;
  }

  /** What is behind a cursor. */
  function Behind(keys: seq<string>, after: string): seq<string>
    decreases keys
  {
    if keys == [] || Less(after, keys[0]) then keys else Behind(keys[1..], after)
  }

  function Taken(keys: seq<string>, limit: nat): seq<string> {
    if |keys| < limit then keys else keys[..limit]
  }

  /** A store that does not change during the sweep and answers by keyset. */
  ghost predicate Answers(source: Source, keys: seq<string>) {
    && Ascending(keys) && (forall i :: 0 <= i < |keys| ==> keys[i] != "")
    && forall after, limit :: source(after, limit) == Some(Taken(Behind(keys, after), limit))
  }

  lemma {:induction false} BehindFirst(keys: seq<string>, i: nat)
    requires Ascending(keys) && 0 < i <= |keys|
    ensures Behind(keys, keys[i-1]) == keys[i..]
    decreases keys
  {
    LessIrreflexive(keys[i-1]);
    if i == 1 {
      assert keys[1..] == [] || Less(keys[0], keys[1]);
    } else {
      assert Less(keys[0], keys[i-1]);
      if Less(keys[i-1], keys[0]) {
        LessTransitive(keys[0], keys[i-1], keys[0]);
        LessIrreflexive(keys[0]);
      }
      BehindFirst(keys[1..], i - 1);
    }
  }

  /** The cursor behind the first i keys. */
  function Cursor(keys: seq<string>, i: nat): string
    requires i <= |keys|
  {
    if i == 0 then "" else keys[i-1]
  }

  lemma BehindCursor(keys: seq<string>, i: nat)
    requires Ascending(keys) && i <= |keys| && forall k :: 0 <= k < |keys| ==> keys[k] != ""
    ensures Behind(keys, Cursor(keys, i)) == keys[i..]
  {
    if i > 0 {
      BehindFirst(keys, i);
    } else {
      assert keys[0..] == keys;
    }
  }

  function PageEnd(keys: seq<string>, i: nat, limit: nat): nat
    requires i <= |keys|
    ensures i <= PageEnd(keys, i, limit) <= |keys|
  {
    if |keys| - i < limit then |keys| else i + limit
  }

  /** The page behind the first i keys. */
  lemma PageAt(source: Source, keys: seq<string>, i: nat, limit: nat)
    requires Answers(source, keys) && i <= |keys|
    ensures source(Cursor(keys, i), limit) == Some(keys[i..PageEnd(keys, i, limit)])
    ensures Advancing(Cursor(keys, i), keys[i..PageEnd(keys, i, limit)])
  {
    BehindCursor(keys, i);
    var end := PageEnd(keys, i, limit);
    assert Taken(keys[i..], limit) == keys[i..end];
    if i < end {
      assert AdvancesTo(Cursor(keys, i), keys[i]);
      forall j | 1 <= j < end - i
        ensures AdvancesTo(keys[i..end][j-1], keys[i..end][j])
      {
        assert Less(keys[i+j-1], keys[i+j]);
      }
    }
  }

  lemma SweptStep(source: Source, takes: seq<string> -> bool, after: string, given: seq<string>, limit: nat, pages: nat,
                  page: seq<string>)
    requires pages > 0 && source(after, limit) == Some(page) && |page| <= limit && Advancing(after, page) && takes(page)
    ensures Swept(source, takes, after, given, limit, pages) ==
            if page == [] then (Done, given)
            else if |page| < limit then (Done, given + page)
            else Swept(source, takes, page[|page|-1], given + page, limit, pages - 1)
  {
  }

  function Capacity(limit: nat, pages: nat): nat {
    if pages == 0 then 0 else limit + Capacity(limit, pages - 1)
  }

  lemma {:induction false} CapacityIsProduct(limit: nat, pages: nat)
    ensures Capacity(limit, pages) == limit * pages
  {
    if pages > 0 {
      CapacityIsProduct(limit, pages - 1);
    }
  }

  /** How a sweep over fixed keys ends when the first i have been given. */
  ghost predicate EndsAsMeant(source: Source, takes: seq<string> -> bool, keys: seq<string>, i: nat, limit: nat, pages: nat)
    requires i <= |keys|
  {
    Swept(source, takes, Cursor(keys, i), keys[..i], limit, pages) ==
    if |keys| - i < Capacity(limit, pages) then (Done, keys) else (TooManyPages, keys[..i + Capacity(limit, pages)])
  }

  lemma LastPage(source: Source, takes: seq<string> -> bool, keys: seq<string>, i: nat, limit: nat, pages: nat)
    requires Answers(source, keys) && i <= |keys| && |keys| - i < limit && pages > 0 && takes(keys[i..])
    ensures EndsAsMeant(source, takes, keys, i, limit, pages)
  {
    PageAt(source, keys, i, limit);
    assert keys[i..PageEnd(keys, i, limit)] == keys[i..];
    SweptStep(source, takes, Cursor(keys, i), keys[..i], limit, pages, keys[i..]);
    assert keys[..i] + keys[i..] == keys;
    if i == |keys| {
      assert keys[..i] == keys;
    }
  }

  lemma FullPage(source: Source, takes: seq<string> -> bool, keys: seq<string>, i: nat, limit: nat, pages: nat)
    requires Answers(source, keys) && 0 < limit && i + limit <= |keys| && pages > 0 && takes(keys[i..i+limit])
    requires EndsAsMeant(source, takes, keys, i + limit, limit, pages - 1)
    ensures EndsAsMeant(source, takes, keys, i, limit, pages)
  {
    PageAt(source, keys, i, limit);
    SweptStep(source, takes, Cursor(keys, i), keys[..i], limit, pages, keys[i..i+limit]);
    assert keys[..i] + keys[i..i+limit] == keys[..i+limit];
    assert keys[i..i+limit][limit-1] == Cursor(keys, i + limit);
  }

  lemma {:induction false} SweptFrom(source: Source, takes: seq<string> -> bool, keys: seq<string>, i: nat, limit: nat, pages: nat)
    requires Answers(source, keys) && (forall page :: takes(page)) && limit > 0 && i <= |keys|
    ensures EndsAsMeant(source, takes, keys, i, limit, pages)
    decreases pages
  {
    if pages > 0 {
      if |keys| - i < limit {
        LastPage(source, takes, keys, i, limit, pages);
      } else {
        SweptFrom(source, takes, keys, i + limit, limit, pages - 1);
        FullPage(source, takes, keys, i, limit, pages);
      }
    }
  }

  /** Over a store that does not change, a sweep that returns nil has given every matching ID to the consumer
      exactly once, in increasing order. It returns nil exactly when there are fewer of them than the pages
      can hold: a store that fills the last page exactly is swept completely and reported as too large. */
  lemma SweepVisitsEachOnce(source: Source, takes: seq<string> -> bool, keys: seq<string>, limit: nat, maxPages: nat)
    requires Answers(source, keys) && (forall page :: takes(page)) && limit > 0
    ensures var (outcome, given) := Swept(source, takes, "", [], limit, maxPages);
            && (outcome.Done? <==> |keys| < limit * maxPages)
            && (outcome.Done? ==> given == keys)
            && (!outcome.Done? ==> outcome.TooManyPages? && limit * maxPages <= |keys| && given == keys[..limit * maxPages])
  {
    SweptFrom(source, takes, keys, 0, limit, maxPages);
    CapacityIsProduct(limit, maxPages);
    assert keys[..0] == [] && Cursor(keys, 0) == "";
  }

  /** The page does not go on at position i. */
  predicate HaltsAt(cursor: string, page: seq<string>, i: int) {
    0 <= i < |page| && !AdvancesTo(if i == 0 then cursor else page[i-1], page[i])
  }

  /** What the sweep met behind this cursor if it ended so. */
  ghost predicate EndedAt(source: Source, takes: seq<string> -> bool, limit: nat, cursor: string, outcome: Outcome) {
    match source(cursor, limit)
    case None => outcome.StoreError? || outcome.TooManyPages?
    case Some(page) =>
      && !outcome.StoreError?
      && (outcome.Oversized? ==> |page| > limit)
      && (outcome.NotAdvancing? ==> exists i :: HaltsAt(cursor, page, i))
      && (outcome.ConsumerError? ==> 0 < |page| <= limit && !takes(page))
      && (outcome.Done? ==> page == [] || (|page| < limit && takes(page)))
  }

  /** Whatever the store and the consumer answer, a sweep ends for what it says: it succeeds with a page that is not
      full, and fails for the store's error, a page that is too large or does not go on, or the consumer's error; and it
      met this at its first cursor or behind an ID that the consumer has been given. */
  lemma {:induction false} SweepEndsForCause(source: Source, takes: seq<string> -> bool, after: string, given: seq<string>, limit: nat, pages: nat)
    ensures var (outcome, last) := Swept(source, takes, after, given, limit, pages);
            given <= last && exists cursor :: (cursor == after || cursor in last) && EndedAt(source, takes, limit, cursor, outcome)
    decreases pages
  {
    if pages > 0 && source(after, limit).Some? {
      var page := source(after, limit).value;
      if !Advancing(after, page) {
        NotAdvancingAt(after, page);
      }
      if page != [] && |page| == limit && Advancing(after, page) && takes(page) {
        SweepEndsForCause(source, takes, page[|page|-1], given + page, limit, pages - 1);
        var (outcome, last) := Swept(source, takes, page[|page|-1], given + page, limit, pages - 1);
        assert last[|given| + |page| - 1] == page[|page|-1];
        var cursor :| (cursor == page[|page|-1] || cursor in last) && EndedAt(source, takes, limit, cursor, outcome);
        assert cursor in last;
      } else {
        assert EndedAt(source, takes, limit, after, Swept(source, takes, after, given, limit, pages).0);
      }
    } else {
      assert EndedAt(source, takes, limit, after, Swept(source, takes, after, given, limit, pages).0);
    }
  }

  lemma NotAdvancingAt(cursor: string, page: seq<string>)
    requires !Advancing(cursor, page)
    ensures exists i :: HaltsAt(cursor, page, i)
  {
    if AdvancesTo(cursor, page[0]) {
      var i :| 1 <= i < |page| && !AdvancesTo(page[i-1], page[i]);
      assert HaltsAt(cursor, page, i);
    } else {
      assert HaltsAt(cursor, page, 0);
    }
  }

  /** Whatever the store answers, the consumer is given increasing IDs: none twice. */
  lemma {:induction false} AnySweepAscends(source: Source, takes: seq<string> -> bool, after: string, given: seq<string>,
                                           limit: nat, pages: nat)
    requires Ascending(given) && (given != [] ==> after == given[|given|-1])
    ensures Ascending(Swept(source, takes, after, given, limit, pages).1)
    decreases pages
  {
    if pages > 0 && source(after, limit).Some? {
      var page := source(after, limit).value;
      if Advancing(after, page) && page != [] {
        GivenAscends(given, after, page);
        if |page| == limit && takes(page) {
          AnySweepAscends(source, takes, page[|page|-1], given + page, limit, pages - 1);
        }
      }
    }
  }

  lemma GivenAscends(given: seq<string>, after: string, page: seq<string>)
    requires Ascending(given) && (given != [] ==> after == given[|given|-1]) && Advancing(after, page)
    ensures Ascending(given + page)
  {
    AdvancingAscends(after, page);
    if given == [] {
      assert given + page == page;
    } else {
      AscendingPair(given, page);
    }
  }

  lemma {:induction false} AdvancingAscends(after: string, page: seq<string>)
    requires Advancing(after, page)
    ensures Ascending(page)
    decreases page
  {
    if page != [] {
      var n := |page| - 1;
      AdvancingAscends(after, page[..n]);
      assert n > 0 ==> AdvancesTo(page[n-1], page[n]);
      forall i | 0 <= i < n
        ensures Less(page[i], page[n])
      {
        BelowAll(page[..n], page[n], i);
      }
    }
  }

  lemma BelowAll(a: seq<string>, x: string, i: nat)
    requires Ascending(a) && i < |a| && Less(a[|a|-1], x)
    ensures Less(a[i], x)
  {
    if i < |a| - 1 {
      LessTransitive(a[i], a[|a|-1], x);
    }
  }

  lemma AscendingPair(a: seq<string>, b: seq<string>)
    requires Ascending(a) && Ascending(b) && a != [] && (b != [] ==> Less(a[|a|-1], b[0]))
    ensures Ascending(a + b)
  {
    forall i, j | 0 <= i < |a| && 0 <= j < |b|
      ensures Less(a[i], b[j])
    {
      if j > 0 {
        LessTransitive(a[|a|-1], b[0], b[j]);
      }
      BelowAll(a, b[j], i);
    }
  }

  /** A store that answers by keyset. */
  function SourceOf(keys: seq<string>): Source {
    (after: string, limit: nat) => Some(Taken(Behind(keys, after), limit))
  }

  /** The case in which the last page is exactly full: the only candidate has been given to the consumer, and the
      sweep reports too many pages. */
  lemma FullLastPageIsReported(takes: seq<string> -> bool)
    requires forall page :: takes(page)
    ensures Swept(SourceOf(["a"]), takes, "", [], 1, 1) == (TooManyPages, ["a"])
  {
    assert Answers(SourceOf(["a"]), ["a"]);
    SweepVisitsEachOnce(SourceOf(["a"]), takes, ["a"], 1, 1);
    assert ["a"][..1] == ["a"];
  }

  // ---------- The scanner ----------

  datatype ScanResult = ScanResult(discovered: nat, submitted: nat, duplicates: nat, wakeFailures: nat)

  function Elements(ids: seq<string>): set<string> {
    set id | id in ids
  }

  function Woken(ids: seq<string>, wakes: string -> bool): set<string> {
    set id | id in ids && wakes(id)
  }

  /** The first occurrence of each ID. */
  function Fresh(ids: seq<string>): seq<string> {
    if ids == [] then []
    else
      var front, last := ids[..|ids|-1], ids[|ids|-1];
      Fresh(front) + if last in front then [] else [last]
  }

  function Tallied(ids: seq<string>, wakes: string -> bool): ScanResult {
    if ids == [] then ScanResult(0, 0, 0, 0)
    else
      var front, last := ids[..|ids|-1], ids[|ids|-1];
      var r := Tallied(front, wakes);
      if last in front then r.(duplicates := r.duplicates + 1)
      else if wakes(last) then r.(discovered := r.discovered + 1, submitted := r.submitted + 1)
      else r.(discovered := r.discovered + 1, wakeFailures := r.wakeFailures + 1)
  }

  lemma ScanStep(ids: seq<string>, i: nat, wakes: string -> bool)
    requires i < |ids|
    ensures var r := Tallied(ids[..i], wakes);
            Tallied(ids[..i+1], wakes) ==
            if ids[i] in ids[..i] then r.(duplicates := r.duplicates + 1)
            else if wakes(ids[i]) then r.(discovered := r.discovered + 1, submitted := r.submitted + 1)
            else r.(discovered := r.discovered + 1, wakeFailures := r.wakeFailures + 1)
    ensures Fresh(ids[..i+1]) == if ids[i] in ids[..i] then Fresh(ids[..i]) else Fresh(ids[..i]) + [ids[i]]
    ensures forall id :: id in ids[..i+1] <==> id in ids[..i] || id == ids[i]
  {
    assert ids[..i+1][..i] == ids[..i];
    assert ids[..i+1] == ids[..i] + [ids[i]];
    assert Fresh(ids[..i]) + [] == Fresh(ids[..i]);
  }

  /** The consumer of `ScanOnce` over the IDs of all pages; `woken` lists the calls of wake in order. */
  method ScanOnce(ids: seq<string>, wakes: string -> bool) returns (result: ScanResult, woken: seq<string>)
    ensures result == Tallied(ids, wakes) && woken == Fresh(ids)
  {
    var seen: set<string> := {};
    result, woken := ScanResult(0, 0, 0, 0), [];
    for i := 0 to |ids|
      invariant forall id :: id in seen <==> id in ids[..i]
      invariant result == Tallied(ids[..i], wakes) && woken == Fresh(ids[..i])
    {
      ScanStep(ids, i, wakes);
      if ids[i] in seen {
        result := result.(duplicates := result.duplicates + 1);
        continue;
      }
      seen := seen + {ids[i]};
      result := result.(discovered := result.discovered + 1);
      woken := woken + [ids[i]];
      if !wakes(ids[i]) {
        result := result.(wakeFailures := result.wakeFailures + 1);
        continue;
      }
      result := result.(submitted := result.submitted + 1);
    }
    assert ids[..|ids|] == ids;
  }

  lemma {:induction false} FreshElements(ids: seq<string>)
    ensures Elements(Fresh(ids)) == Elements(ids) && |Fresh(ids)| == |Elements(ids)|
  {
    if ids != [] {
      var front, last := ids[..|ids|-1], ids[|ids|-1];
      FreshElements(front);
      assert ids == front + [last];
      ElementsAppend(front, last);
      ElementsAppend(Fresh(front), last);
      if last in front {
        assert last in Elements(front);
        assert Fresh(ids) == Fresh(front) + [] == Fresh(front);
      }
    }
  }

  lemma ElementsAppend(ids: seq<string>, id: string)
    ensures Elements(ids + [id]) == Elements(ids) + {id}
    ensures |Elements(ids) + {id}| == |Elements(ids)| + if id in ids then 0 else 1
  {
    if id in ids {
      assert Elements(ids) + {id} == Elements(ids);
    }
  }

  lemma {:induction false} TalliedCounts(ids: seq<string>, wakes: string -> bool)
    ensures var r := Tallied(ids, wakes);
            && r.discovered == |Fresh(ids)| && r.duplicates == |ids| - |Fresh(ids)|
            && r.submitted == |Woken(ids, wakes)| && r.submitted + r.wakeFailures == r.discovered
  {
    if ids != [] {
      var front, last := ids[..|ids|-1], ids[|ids|-1];
      TalliedCounts(front, wakes);
      assert ids == front + [last];
      WokenAppend(front, last, wakes);
      if last in front {
        assert Fresh(ids) == Fresh(front) + [] == Fresh(front);
      }
    }
  }

  lemma WokenAppend(ids: seq<string>, id: string, wakes: string -> bool)
    ensures |Woken(ids + [id], wakes)| == |Woken(ids, wakes)| + if id !in ids && wakes(id) then 1 else 0
  {
    if wakes(id) {
      assert Woken(ids + [id], wakes) == Woken(ids, wakes) + {id};
      assert id in ids ==> Woken(ids, wakes) + {id} == Woken(ids, wakes);
    } else {
      assert Woken(ids + [id], wakes) == Woken(ids, wakes);
    }
  }

  lemma LastIsNew(ids: seq<string>)
    requires Ascending(ids) && ids != []
    ensures ids[|ids|-1] !in ids[..|ids|-1]
  {
    LessIrreflexive(ids[|ids|-1]);
  }

  lemma {:induction false} FreshAscending(ids: seq<string>)
    requires Ascending(ids)
    ensures Fresh(ids) == ids
  {
    if ids != [] {
      var front, last := ids[..|ids|-1], ids[|ids|-1];
      FreshAscending(front);
      LastIsNew(ids);
      assert ids == front + [last];
    }
  }

  /** Each ID is woken exactly once, the counters account for every ID that came in, and over a sweep,
      which only gives increasing IDs, there are no duplicates. */
  lemma ScanWakesEachOnce(ids: seq<string>, wakes: string -> bool)
    ensures var r := Tallied(ids, wakes);
            && |Fresh(ids)| == |Elements(ids)| == r.discovered && Elements(Fresh(ids)) == Elements(ids)
            && r.duplicates == |ids| - r.discovered
            && r.submitted == |Woken(ids, wakes)| && r.submitted + r.wakeFailures == r.discovered
    ensures Ascending(ids) ==> Fresh(ids) == ids
  {
    FreshElements(ids);
    TalliedCounts(ids, wakes);
    if Ascending(ids) {
      FreshAscending(ids);
    }
  }

  // ---------- The idempotency collector ----------

  /** A record's primary key; the cursor is such a pair, too. */
  datatype Key = Key(scope: string, name: string)

  predicate KeyLess(a: Key, b: Key) {
    Less(a.scope, b.scope) || (a.scope == b.scope && Less(a.name, b.name))
  }

  /** What the store says about one batch: how many records it has deleted, and the last of them. */
  datatype Batch = Batch(deleted: nat, last: Key)

  datatype CollectEnd = Complete | Failed | Stuck | ContextEnded

  /** The check on the cursor of a full batch. */
  predicate Advances(after: Key, last: Key) {
    && last.scope != "" && last.name != "" && !Less(last.scope, after.scope)
    && (last.scope == after.scope ==> Less(after.name, last.name))
  }

  /** `SweepOnce` from a cursor on: the records deleted in all, how it ends, and the cursors it asks with. The
      context ends when there are no more answers; an answer of None is an error. */
  function Collected(after: Key, total: nat, limit: nat, answers: seq<Option<Batch>>): (nat, CollectEnd, seq<Key>)
    decreases answers
  {
    if answers == [] then (total, ContextEnded, [])
    else if answers[0].None? then (total, Failed, [after])
    else
      var batch := answers[0].value;
      if batch.deleted < limit then (total + batch.deleted, Complete, [after])
      else if !Advances(after, batch.last) then (total + batch.deleted, Stuck, [after])
      else
        var (all, end, cursors) := Collected(batch.last, total + batch.deleted, limit, answers[1..]);
        (all, end, [after] + cursors)
  }

  method SweepOnce(limit: nat, answers: seq<Option<Batch>>) returns (total: nat, end: CollectEnd)
    ensures var (all, e, _) := Collected(Key("", ""), 0, limit, answers); total == all && end == e
  {
    total := 0;
    var after := Key("", "");
    for i := 0 to |answers|
      invariant Collected(after, total, limit, answers[i..]).0 == Collected(Key("", ""), 0, limit, answers).0
      invariant Collected(after, total, limit, answers[i..]).1 == Collected(Key("", ""), 0, limit, answers).1
    {
      assert answers[i..][1..] == answers[i+1..];
      if answers[i].None? {
        return total, Failed;
      }
      var batch := answers[i].value;
      total := total + batch.deleted;
      if batch.deleted < limit {
        return total, Complete;
      }
      if batch.last.scope == "" || batch.last.name == "" || Less(batch.last.scope, after.scope)
         || (batch.last.scope == after.scope && !Less(after.name, batch.last.name)) {
        return total, Stuck;
      }
      after := batch.last;
    }
    return total, ContextEnded;
  }

  lemma AdvancesIsLess(after: Key, last: Key)
    requires Advances(after, last)
    ensures KeyLess(after, last)
  {
    LessTotal(after.scope, last.scope);
  }

  lemma KeyLessTransitive(a: Key, b: Key, c: Key)
    requires KeyLess(a, b) && KeyLess(b, c)
    ensures KeyLess(a, c)
  {
    if Less(a.scope, b.scope) && Less(b.scope, c.scope) {
      LessTransitive(a.scope, b.scope, c.scope);
    } else if a.scope == b.scope == c.scope {
      LessTransitive(a.name, b.name, c.name);
    }
  }

  function Deleted(answers: seq<Option<Batch>>): nat
    decreases answers
  {
    if answers == [] then 0 else (if answers[0].None? then 0 else answers[0].value.deleted) + Deleted(answers[1..])
  }

  /** Whatever the store answers, the cursors it is asked with strictly increase, the total is what it said it had
      deleted, and success means that its last batch was not full. */
  lemma {:induction false} AnyCollectionAdvances(after: Key, total: nat, limit: nat, answers: seq<Option<Batch>>)
    ensures var (all, end, cursors) := Collected(after, total, limit, answers);
            && (forall i, j :: 0 <= i < j < |cursors| ==> KeyLess(cursors[i], cursors[j]))
            && (cursors != [] ==> cursors[0] == after) && |cursors| <= |answers|
            && all == total + Deleted(answers[..|cursors|])
            && (end.Complete? <==> cursors != [] && answers[|cursors|-1].Some? && answers[|cursors|-1].value.deleted < limit)
    decreases answers
  {
    if answers != [] && answers[0].Some? {
      var batch := answers[0].value;
      if batch.deleted >= limit && Advances(after, batch.last) {
        var rest := Collected(batch.last, total + batch.deleted, limit, answers[1..]).2;
        AnyCollectionAdvances(batch.last, total + batch.deleted, limit, answers[1..]);
        AdvancesIsLess(after, batch.last);
        forall j | 0 <= j < |rest|
          ensures KeyLess(after, rest[j])
        {
          if j > 0 {
            KeyLessTransitive(after, rest[0], rest[j]);
          }
        }
        assert answers[..|rest| + 1][1..] == answers[1..][..|rest|];
        assert rest != [] ==> answers[1..][|rest|-1] == answers[|rest|];
      } else {
        assert answers[..1][1..] == [];
      }
    } else if answers != [] {
      assert answers[..1][1..] == [];
    }
  }

  /** The records that may go, in primary key order. */
  predicate KeysAscend(keys: seq<Key>) {
    && (forall i :: 0 <= i < |keys| ==> keys[i].scope != "" && keys[i].name != "")
    && forall i, j :: 0 <= i < j < |keys| ==> KeyLess(keys[i], keys[j])
  }

  /** The answers of a store that nobody else changes: it deletes the first records behind the cursor, at most
      `limit`, and these are the first that are left. */
  function Batches(keys: seq<Key>, limit: nat): seq<Option<Batch>>
    requires limit > 0
    decreases |keys|
  {
    if |keys| < limit then [Some(Batch(|keys|, if keys == [] then Key("", "") else keys[|keys|-1]))]
    else [Some(Batch(limit, keys[limit-1]))] + Batches(keys[limit..], limit)
  }

  /** The first full batch of a sweep. */
  lemma FullBatch(after: Key, total: nat, limit: nat, last: Key, rest: seq<Option<Batch>>)
    requires Advances(after, last)
    ensures var whole := Collected(after, total, limit, [Some(Batch(limit, last))] + rest);
            var part := Collected(last, total + limit, limit, rest);
            whole.0 == part.0 && whole.1 == part.1
  {
    assert ([Some(Batch(limit, last))] + rest)[1..] == rest;
  }

  lemma KeysBehind(keys: seq<Key>, i: nat)
    requires KeysAscend(keys) && 0 < i <= |keys|
    ensures KeysAscend(keys[i..]) && forall j :: 0 <= j < |keys| - i ==> KeyLess(keys[i-1], keys[i..][j])
  {
    forall j | 0 <= j < |keys| - i
      ensures keys[i..][j] == keys[i + j] && KeyLess(keys[i-1], keys[i..][j])
    {
    }
  }

  /** Over such a store a sweep succeeds and deletes every record that may go. */
  lemma {:induction false} FixedStoreIsEmptied(keys: seq<Key>, after: Key, total: nat, limit: nat)
    requires KeysAscend(keys) && limit > 0 && forall i :: 0 <= i < |keys| ==> KeyLess(after, keys[i])
    ensures var (all, end, _) := Collected(after, total, limit, Batches(keys, limit));
            end.Complete? && all == total + |keys|
    decreases |keys|
  {
    if |keys| >= limit {
      LessIsAdvance(after, keys[limit-1]);
      KeysBehind(keys, limit);
      FixedStoreIsEmptied(keys[limit..], keys[limit-1], total + limit, limit);
      FullBatch(after, total, limit, keys[limit-1], Batches(keys[limit..], limit));
    }
  }

  lemma LessIsAdvance(a: Key, b: Key)
    requires KeyLess(a, b) && b.scope != "" && b.name != ""
    ensures Advances(a, b)
  {
    LessIrreflexive(a.scope);
    if Less(b.scope, a.scope) && Less(a.scope, b.scope) {
      LessTransitive(a.scope, b.scope, a.scope);
    }
  }

  /** The first cursor is before every record. */
  lemma FirstCursor(keys: seq<Key>)
    requires KeysAscend(keys)
    ensures forall i :: 0 <= i < |keys| ==> KeyLess(Key("", ""), keys[i])
  {
  }
}
