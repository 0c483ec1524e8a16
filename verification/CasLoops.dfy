/** The bounded compare-and-swap loops of renew, delete and lease expiry around one sandbox record
    (internal/application/renew.go:16-58, internal/application/sandbox_service.go:160-202,
    internal/reconcile/ttl_expiration.go:47-81). What other writers do and what the clock says are
    parameters, so the loops are followed through every competition. */
module CasLoops {
  import opened Wrappers
  import opened TimeText
  import opened SandboxStore
  import HeapOrder
  import Lifecycle
  import TtlHeap

  /** `rivals(n)` are the calls of others right before the n-th store call of the loop, and `clock(k)` is
      what the clock says in attempt k. */
  datatype World = World(rivals: nat -> seq<Call>, clock: nat -> Instant)

  /** The record asks for termination and is scheduled for no later than now. */
  predicate Terminating(r: Record, now: Instant) {
    r.desired.WantTerminated? && r.nextReconcile.Some? && r.nextReconcile.value <= now
  }

  /** The compare-and-swap contract: only a caller that names the current revision changes the record, and
      then to exactly what it asked for. */
  ghost predicate Swaps(db: Db) {
    forall r, n, op ::
      && (db(r, n, op).1.Updated? ==> r.revision == n && db(r, n, op) == (Written(r, op), Updated(Written(r, op))))
      && (!db(r, n, op).1.Updated? ==> db(r, n, op).0 == r)
      && (db(r, n, op).1.NoChange? ==> op.UpdateDesired? && db(r, n, op).1.record == r && Terminating(r, op.now))
  }

  lemma SqliteSwaps()
    ensures Swaps(Applied)
  {
  }

  /** How a loop ends. */
  datatype Ended = Committed(record: Record) | Unneeded | Refused(why: Lifecycle.RenewCheck) | Rejected | Exhausted

  method Race(store: Store, calls: seq<Call>)
    modifies store
    ensures store.record == Raced(Applied, old(store.record), calls)
  {
    for i := 0 to |calls|
      invariant Raced(Applied, store.record, calls[i..]) == Raced(Applied, old(store.record), calls)
    {
      assert calls[i..][1..] == calls[i+1..];
      var _ := store.Execute(calls[i].revision, calls[i].op);
    }
  }

  /** A record with the revision of a record read earlier is that record, whoever wrote in between. */
  lemma {:induction false} SameRevision(db: Db, r: Record, calls: seq<Call>)
    requires Swaps(db)
    ensures r.revision <= Raced(db, r, calls).revision
    ensures Raced(db, r, calls).revision == r.revision ==> Raced(db, r, calls) == r
    decreases calls
  {
    if calls != [] {
      SameRevision(db, db(r, calls[0].revision, calls[0].op).0, calls[1..]);
    }
  }

  predicate NoRivals(w: World) {
    forall n :: 0 <= n <= 6 ==> w.rivals(n) == []
  }

  predicate ClockAscends(w: World) {
    w.clock(0) <= w.clock(1) <= w.clock(2)
  }

  // ---------- Renew ----------

  /** The attempts from the k-th on, when `snap` has been read and the store holds `r`. */
  function RenewTried(db: Db, p: Lifecycle.Policy, w: World, requested: Instant, r: Record, snap: Record, k: nat): (Record, Ended)
    decreases Lifecycle.RENEW_ATTEMPTS - k
  {
    if k >= Lifecycle.RENEW_ATTEMPTS then (r, Exhausted)
    else if Lifecycle.ValidateRenew(p, snap, requested, w.clock(k)).Same? then (r, Unneeded)
    else if !Lifecycle.ValidateRenew(p, snap, requested, w.clock(k)).Extend?
    then (r, Refused(Lifecycle.ValidateRenew(p, snap, requested, w.clock(k))))
    else
      var (r', reply) := db(Raced(db, r, w.rivals(2 * k)), snap.revision, Renew(w.clock(k), requested));
      match reply
      case Updated(u) => (r', Committed(u))
      case NoChange(u) => (r', Committed(u))
      case Invalid => (r', Rejected)
      case Conflict =>
        if k == Lifecycle.RENEW_ATTEMPTS - 1 then (r', Exhausted)
        else
          var again := Raced(db, r', w.rivals(2 * k + 1));
          RenewTried(db, p, w, requested, again, again, k + 1)
  }

  method RenewLease(store: Store, p: Lifecycle.Policy, w: World, requested: Instant) returns (ended: Ended)
    modifies store
    ensures (store.record, ended) == RenewTried(Applied, p, w, requested, old(store.record), old(store.record), 0)
  {
    var current := store.Get();
    for attempt := 0 to Lifecycle.RENEW_ATTEMPTS
      invariant RenewTried(Applied, p, w, requested, store.record, current, attempt)
                == RenewTried(Applied, p, w, requested, old(store.record), old(store.record), 0)
    {
      var decision := Lifecycle.ValidateRenew(p, current, requested, w.clock(attempt));
      if decision.Same? {
        return Unneeded;
      }
      if !decision.Extend? {
        return Refused(decision);
      }
      Race(store, w.rivals(2 * attempt));
      var reply := store.Execute(current.revision, Renew(w.clock(attempt), requested));
      match reply {
        case Updated(u) => return Committed(u);
        case NoChange(u) => return Committed(u);
        case Invalid => return Rejected;
        case Conflict =>
      }
      if attempt == Lifecycle.RENEW_ATTEMPTS - 1 {
        break;
      }
      Race(store, w.rivals(2 * attempt + 1));
      current := store.Get();
    }
    return Exhausted;
  }

  /** The commit of attempt k made `u` of `before`: by that attempt's clock reading the lease had not run out, the new
      end is later and within the policy's bounds, and nothing else has changed but revision and schedule. */
  predicate RenewedFrom(p: Lifecycle.Policy, w: World, requested: Instant, before: Record, k: nat, u: Record) {
    && k < 3
    && before.desired.WantRunning? && !before.observed.Terminated?
    && w.clock(k) < before.expiry < u.expiry == requested
    && 0 < p.minimum && w.clock(k) + p.minimum <= u.expiry <= w.clock(k) + p.maximum
    && u == before.(revision := before.revision + 1, expiry := requested, nextReconcile := Some(w.clock(k)))
  }

  /** Over any store that keeps the contract, and whatever the others do, a renewal that commits leaves its
      result in the store and replaced a record that allowed it: not terminating, not expired, and with an
      earlier expiry; the new one lies within the policy's bounds from one of the looks at the clock. */
  lemma {:induction false} RenewalReplacesWhatItChecked(db: Db, p: Lifecycle.Policy, w: World, requested: Instant, r: Record, k: nat)
    requires Swaps(db)
    ensures var (r', ended) := RenewTried(db, p, w, requested, r, r, k);
            ended.Committed? ==> r' == ended.record && exists before, j :: RenewedFrom(p, w, requested, before, j, r')
    decreases Lifecycle.RENEW_ATTEMPTS - k
  {
    Lifecycle.ValidatedExactly(p, r, requested, w.clock(k));
    if k < Lifecycle.RENEW_ATTEMPTS && Lifecycle.RenewAllowed(p, r, requested, w.clock(k)) {
      var raced := Raced(db, r, w.rivals(2 * k));
      SameRevision(db, r, w.rivals(2 * k));
      var (r', reply) := db(raced, r.revision, Renew(w.clock(k), requested));
      if reply.Updated? {
        assert RenewedFrom(p, w, requested, raced, k, r');
      } else if reply.Conflict? && k < Lifecycle.RENEW_ATTEMPTS - 1 {
        RenewalReplacesWhatItChecked(db, p, w, requested, Raced(db, r', w.rivals(2 * k + 1)), k + 1);
      }
    }
  }

  /** The first look decides, whatever store and rivals there are: a renewal is refused at once, and with which
      error, by the record that was read, the bounds and the clock; asking for the end the lease already has
      succeeds without a write; and nothing else keeps the loop from its store call. */
  lemma FirstLookDecides(db: Db, p: Lifecycle.Policy, w: World, requested: Instant, r: Record)
    requires 0 < p.minimum <= p.maximum && requested != ZERO
    ensures var now, tried := w.clock(0), RenewTried(db, p, w, requested, r, r, 0);
            if r.desired.WantTerminated? || r.observed.Terminated? || r.expiry <= now then tried == (r, Refused(Lifecycle.Expiring))
            else if requested == r.expiry then tried == (r, Unneeded)
            else if requested < r.expiry then tried == (r, Refused(Lifecycle.LeaseConflict))
            else if requested < now + p.minimum || now + p.maximum < requested || now + p.maximum >= YEAR_10000
            then tried == (r, Refused(Lifecycle.InvalidExpiration))
            else db(Raced(db, r, w.rivals(0)), r.revision, Renew(now, requested)).1.Updated? ==> tried.1.Committed?
  {
    Lifecycle.ValidatedExactly(p, r, requested, w.clock(0));
  }

  /** The store takes the texts of this renewal in the order in which they are meant. */
  predicate TextsAgree(now: Instant, expiry: Instant, requested: Instant) {
    Ordered(now, expiry) && Ordered(expiry, requested)
  }

  /** What the store says to an allowed renewal of the record it holds. */
  lemma RenewOnce(p: Lifecycle.Policy, r: Record, now: Instant, requested: Instant)
    requires Lifecycle.RenewAllowed(p, r, requested, now) && now != ZERO
    ensures Applied(r, r.revision, Renew(now, requested)) ==
            if TextsAgree(now, r.expiry, requested)
            then (Written(r, Renew(now, requested)), Updated(Written(r, Renew(now, requested))))
            else (r, Conflict)
  {
    RenewExactly(r, r.revision, now, requested);
  }

  /** Retries are only exhausted when in every attempt a writer came in between or the store refused an
      allowed renewal of the very record it held. */
  lemma {:induction false} ExhaustedRenewalLostEachTime(db: Db, p: Lifecycle.Policy, w: World, requested: Instant, r: Record, k: nat, j: nat)
    requires Swaps(db) && RenewTried(db, p, w, requested, r, r, k).1.Exhausted? && k <= j < Lifecycle.RENEW_ATTEMPTS
    ensures w.rivals(2 * j) != [] ||
            exists snap :: Lifecycle.RenewAllowed(p, snap, requested, w.clock(j)) && RefusesCurrent(db, snap, Renew(w.clock(j), requested))
    decreases Lifecycle.RENEW_ATTEMPTS - k
  {
    var raced := Raced(db, r, w.rivals(2 * k));
    var (r', reply) := db(raced, r.revision, Renew(w.clock(k), requested));
    if j > k {
      ExhaustedRenewalLostEachTime(db, p, w, requested, Raced(db, r', w.rivals(2 * k + 1)), k + 1, j);
    } else if w.rivals(2 * k) == [] {
      assert RefusesCurrent(db, r, Renew(w.clock(j), requested));
    }
  }

  /** The caller names the current revision and gets a conflict all the same. */
  predicate RefusesCurrent(db: Db, r: Record, op: Op) {
    db(r, r.revision, op).1.Conflict?
  }

  /** The three attempts without rivals, for a store that takes attempt k exactly if `agrees(k)`. */
  lemma AttemptsAlone(db: Db, p: Lifecycle.Policy, w: World, requested: Instant, r: Record, agrees: nat -> bool)
    requires NoRivals(w) && ClockAscends(w) && Lifecycle.RenewAllowed(p, r, requested, w.clock(0))
    requires forall k :: 0 <= k < 3 && Lifecycle.RenewAllowed(p, r, requested, w.clock(k)) ==>
               db(r, r.revision, Renew(w.clock(k), requested)) ==
               if agrees(k) then (Written(r, Renew(w.clock(k), requested)), Updated(Written(r, Renew(w.clock(k), requested))))
               else (r, Conflict)
    ensures var (r', ended) := RenewTried(db, p, w, requested, r, r, 0);
            && (ended.Committed? <==> exists k :: 0 <= k < 3 && Lifecycle.RenewAllowed(p, r, requested, w.clock(k)) && agrees(k))
            && (ended.Committed? ==> r'.expiry == requested)
            && (!ended.Committed? ==> r' == r && (ended.Exhausted? || ended.Refused?))
  {
    assert w.rivals(0) == w.rivals(1) == w.rivals(2) == w.rivals(3) == w.rivals(4) == [];
    var third := RenewTried(db, p, w, requested, r, r, 2);
    var second := RenewTried(db, p, w, requested, r, r, 1);
    if agrees(0) {
    } else if !Lifecycle.RenewAllowed(p, r, requested, w.clock(1)) {
      assert second.0 == r && second.1.Refused?;
      assert !Lifecycle.RenewAllowed(p, r, requested, w.clock(2));
    } else if agrees(1) {
    } else {
      assert second == third;
      if Lifecycle.RenewAllowed(p, r, requested, w.clock(2)) {
        assert third == if agrees(2) then (Written(r, Renew(w.clock(2), requested)), Committed(Written(r, Renew(w.clock(2), requested))))
                        else (r, Exhausted);
      }
    }
  }

  /** Without any competitor an allowed renewal commits exactly when in one of the attempts it is still
      allowed and the texts are in the order of time; otherwise it fails although nobody interfered, and the
      record stays as it is. */
  lemma RenewalAlone(p: Lifecycle.Policy, w: World, requested: Instant, r: Record)
    requires NoRivals(w) && ClockAscends(w) && w.clock(0) != ZERO
    requires Lifecycle.RenewAllowed(p, r, requested, w.clock(0))
    ensures var (r', ended) := RenewTried(Applied, p, w, requested, r, r, 0);
            && (ended.Committed? <==> exists k :: 0 <= k < 3 && Lifecycle.RenewAllowed(p, r, requested, w.clock(k))
                                                  && TextsAgree(w.clock(k), r.expiry, requested))
            && (ended.Committed? ==> r'.expiry == requested)
            && (!ended.Committed? ==> r' == r && (ended.Exhausted? || ended.Refused?))
  {
    var agrees := (k: nat) => TextsAgree(w.clock(k), r.expiry, requested);
    forall k | 0 <= k < 3 && Lifecycle.RenewAllowed(p, r, requested, w.clock(k))
      ensures Applied(r, r.revision, Renew(w.clock(k), requested)) ==
              if agrees(k) then (Written(r, Renew(w.clock(k), requested)), Updated(Written(r, Renew(w.clock(k), requested))))
              else (r, Conflict)
    {
      RenewOnce(p, r, w.clock(k), requested);
    }
    AttemptsAlone(Applied, p, w, requested, r, agrees);
  }

  // ---------- Delete ----------

  function DeleteTried(db: Db, w: World, r: Record, snap: Record, k: nat): (Record, Ended)
    decreases Lifecycle.DELETE_ATTEMPTS - k
  {
    if k >= Lifecycle.DELETE_ATTEMPTS then (r, Exhausted)
    else if snap.observed.Terminated? then (r, Unneeded)
    else
      var (r', reply) := db(Raced(db, r, w.rivals(2 * k)), snap.revision, UpdateDesired(w.clock(k)));
      match reply
      case Updated(u) => (r', Committed(u))
      case NoChange(u) => (r', Committed(u))
      case Invalid => (r', Rejected)
      case Conflict =>
        if k == Lifecycle.DELETE_ATTEMPTS - 1 then (r', Exhausted)
        else
          var again := Raced(db, r', w.rivals(2 * k + 1));
          DeleteTried(db, w, again, again, k + 1)
  }

  method Delete(store: Store, w: World) returns (ended: Ended)
    modifies store
    ensures (store.record, ended) == DeleteTried(Applied, w, old(store.record), old(store.record), 0)
  {
    var current := store.Get();
    for attempt := 0 to Lifecycle.DELETE_ATTEMPTS
      invariant DeleteTried(Applied, w, store.record, current, attempt)
                == DeleteTried(Applied, w, old(store.record), old(store.record), 0)
    {
      if current.observed.Terminated? {
        return Unneeded;
      }
      Race(store, w.rivals(2 * attempt));
      var reply := store.Execute(current.revision, UpdateDesired(w.clock(attempt)));
      match reply {
        case Updated(u) => return Committed(u);
        case NoChange(u) => return Committed(u);
        case Invalid => return Rejected;
        case Conflict =>
      }
      if attempt == Lifecycle.DELETE_ATTEMPTS - 1 {
        return Exhausted;
      }
      Race(store, w.rivals(2 * attempt + 1));
      current := store.Get();
    }
    return Exhausted;
  }

  /** Whatever the others do, a delete that reports success leaves a record that asks for termination now. */
  lemma {:induction false} DeleteAsksForTermination(db: Db, w: World, r: Record, k: nat)
    requires Swaps(db)
    ensures var (r', ended) := DeleteTried(db, w, r, r, k);
            ended.Committed? ==> r' == ended.record
                                 && exists j :: 0 <= j < Lifecycle.DELETE_ATTEMPTS && Terminating(r', w.clock(j))
    decreases Lifecycle.DELETE_ATTEMPTS - k
  {
    if k < Lifecycle.DELETE_ATTEMPTS && !r.observed.Terminated? {
      var (r', reply) := db(Raced(db, r, w.rivals(2 * k)), r.revision, UpdateDesired(w.clock(k)));
      if reply.Conflict? {
        if k < Lifecycle.DELETE_ATTEMPTS - 1 {
          DeleteAsksForTermination(db, w, Raced(db, r', w.rivals(2 * k + 1)), k + 1);
        }
      } else if !reply.Invalid? {
        assert Terminating(r', w.clock(k));
      }
    }
  }

  /** A repeated delete that the store neither applies nor takes for done. */
  predicate Stuck(r: Record, now: Instant) {
    r.desired.WantTerminated? && r.nextReconcile.Some? && Inverted(now, r.nextReconcile.value)
  }

  lemma DeleteMatches(r: Record, now: Instant)
    ensures Matches(r, r.revision, UpdateDesired(now)) <==>
            r.desired.WantRunning? || r.nextReconcile.None? || Ordered(now, r.nextReconcile.value)
  {
    if r.nextReconcile.Some? {
      EarlierExactly(now, r.nextReconcile.value);
    }
  }

  lemma OrderedOrNot(a: Instant, b: Instant)
    ensures !Ordered(a, b) && a < b <==> Inverted(a, b)
  {
    if Inverted(a, b) {
      InvertedIsBefore(a, b);
    }
  }

  /** The store takes a delete of the record it holds unless `stuck`. */
  predicate Deletes(db: Db, r: Record, now: Instant, stuck: bool) {
    if stuck then db(r, r.revision, UpdateDesired(now)) == (r, Conflict)
    else db(r, r.revision, UpdateDesired(now)).1.Updated? || db(r, r.revision, UpdateDesired(now)).1.NoChange?
  }

  lemma DeleteOnce(r: Record, now: Instant)
    ensures Deletes(Applied, r, now, Stuck(r, now))
  {
    DeleteMatches(r, now);
    if r.nextReconcile.Some? {
      OrderedOrNot(now, r.nextReconcile.value);
    }
  }

  /** The two attempts without rivals. */
  lemma DeletesAlone(db: Db, w: World, r: Record, first: bool, second: bool)
    requires NoRivals(w) && !r.observed.Terminated?
    requires Deletes(db, r, w.clock(0), first) && Deletes(db, r, w.clock(1), second)
    ensures var (r', ended) := DeleteTried(db, w, r, r, 0);
            && (ended.Exhausted? <==> first && second)
            && (!ended.Exhausted? ==> ended.Committed?)
            && (ended.Exhausted? ==> r' == r)
  {
    assert w.rivals(0) == w.rivals(1) == w.rivals(2) == [];
  }

  /** Without a competitor a delete only fails when it is a repeated one and, at both of its looks at the
      clock, the scheduled time is later but its text is not; what is Terminated is left as it is. */
  lemma DeleteAlone(w: World, r: Record)
    requires NoRivals(w)
    ensures var (r', ended) := DeleteTried(Applied, w, r, r, 0);
            if r.observed.Terminated? then r' == r && ended.Unneeded?
            else
              && (ended.Exhausted? <==> Stuck(r, w.clock(0)) && Stuck(r, w.clock(1)))
              && (!ended.Exhausted? ==> ended.Committed?)
              && (ended.Exhausted? ==> r' == r)
  {
    if r.observed.Terminated? {
      return;
    }
    DeleteOnce(r, w.clock(0));
    DeleteOnce(r, w.clock(1));
    DeletesAlone(Applied, w, r, Stuck(r, w.clock(0)), Stuck(r, w.clock(1)));
  }

  /** The case just described, with both looks at a full second and the retry half a second later. */
  lemma RepeatedDeleteCanFail(w: World)
    requires NoRivals(w) && w.clock(0) == w.clock(1) == 2_000_000_000
    ensures var r := Record(5, WantTerminated, Failed, 9_000_000_000, "", 1, Some(2_500_000_000), 0);
            DeleteTried(Applied, w, r, r, 0) == (r, Exhausted)
  {
    HalfPastSortsFirst();
    DeleteAlone(w, Record(5, WantTerminated, Failed, 9_000_000_000, "", 1, Some(2_500_000_000), 0));
  }

  // ---------- Expiry ----------

  /** What the callback does to its sandbox in the TTL index. */
  datatype Indexing = Kept | Dropped | Rescheduled(expiry: Instant)

  /** What `Validate` decides on the record it has read: what to do with the index, or that the lease is due. */
  function Validated(snap: Record, expected: Instant, now: Instant): Option<Indexing> {
    if snap.desired.WantTerminated? || snap.observed.Terminated? then Some(Dropped)
    else if snap.expiry != expected || now < snap.expiry then Some(Rescheduled(snap.expiry))
    else None
  }

  lemma ValidatedIsDue(snap: Record, expected: Instant, now: Instant)
    ensures Validated(snap, expected, now).None? <==> Lifecycle.LeaseDue(snap, now) && snap.expiry == expected
  {
  }

  /** The attempts of `ExpireEntry` from the k-th on; every attempt reads the store first. */
  function ExpireTried(db: Db, w: World, expected: Instant, r: Record, k: nat): (Record, Ended, Indexing)
    decreases Lifecycle.EXPIRE_ATTEMPTS - k
  {
    if k >= Lifecycle.EXPIRE_ATTEMPTS then (r, Exhausted, Kept)
    else
      var snap := Raced(db, r, w.rivals(2 * k));
      var settled := Validated(snap, expected, w.clock(k));
      if settled.Some? then (snap, Unneeded, settled.value)
      else
        var (r', reply) := db(Raced(db, snap, w.rivals(2 * k + 1)), snap.revision, ExpireIntent(expected, w.clock(k)));
        match reply
        case Updated(u) => (r', Committed(u), Dropped)
        case NoChange(u) => (r', Committed(u), Dropped)
        case Invalid => (r', Rejected, Kept)
        case Conflict => ExpireTried(db, w, expected, r', k + 1)
  }

  /** The leases in the index after what the callback did. */
  function Reindexed(leases: map<string, int>, id: string, did: Indexing): map<string, int> {
    match did
    case Kept => leases
    case Dropped => leases - {id}
    case Rescheduled(expiry) => if expiry == TtlHeap.ZERO_TIME then leases else leases[id := expiry]
  }

  /** `TTLDueValidator.Validate` behind its argument check. */
  method Validate(store: Store, index: TtlHeap.Heap, entry: HeapOrder.Entry, now: Instant)
    returns (snap: Record, settled: Option<Indexing>)
    requires index.Valid() && 0 < entry.expiry < YEAR_10000 && entry.id != ""
    modifies index, index.Repr()
    ensures index.Valid() && snap == store.record == old(store.record)
    ensures settled == Validated(snap, entry.expiry, now)
    ensures settled.None? ==> index.Repr() == old(index.Repr())
    ensures index.Leases() == Reindexed(old(index.Leases()), entry.id, if settled.Some? then settled.value else Kept)
  {
    snap := store.Get();
    if snap.desired.WantTerminated? || snap.observed.Terminated? {
      var _ := index.Remove(entry.id);
      return snap, Some(Dropped);
    }
    if snap.expiry != entry.expiry || now < snap.expiry {
      var _ := index.Upsert(HeapOrder.Entry(entry.id, snap.expiry));
      return snap, Some(Rescheduled(snap.expiry));
    }
    return snap, None;
  }

  predicate Accepted(reply: Reply) {
    reply.Updated? || reply.NoChange?
  }

  /** The store call of one attempt, and the removal from the index when it was accepted. */
  method CommitExpiry(store: Store, index: TtlHeap.Heap, revision: nat, entry: HeapOrder.Entry, now: Instant) returns (reply: Reply)
    requires index.Valid() && 0 < entry.expiry < YEAR_10000
    modifies store, index, index.Repr()
    ensures index.Valid() && (store.record, reply) == Applied(old(store.record), revision, ExpireIntent(entry.expiry, now))
    ensures !Accepted(reply) ==> index.Repr() == old(index.Repr()) && index.Leases() == old(index.Leases())
    ensures Accepted(reply) ==> index.Leases() == old(index.Leases()) - {entry.id}
  {
    reply := store.Execute(revision, ExpireIntent(entry.expiry, now));
    if Accepted(reply) {
      var _ := index.Remove(entry.id);
    }
  }

  /** Other writers do not touch the index. */
  method RaceBeside(store: Store, index: TtlHeap.Heap, calls: seq<Call>)
    requires index.Valid()
    modifies store
    ensures store.record == Raced(Applied, old(store.record), calls)
    ensures index.Valid() && index.Repr() == old(index.Repr()) && index.Leases() == old(index.Leases())
  {
    Race(store, calls);
  }

  /** One attempt; `done` says that it has settled the matter. */
  method TryExpire(store: Store, index: TtlHeap.Heap, w: World, entry: HeapOrder.Entry, attempt: nat)
    returns (done: bool, ended: Ended, did: Indexing)
    requires index.Valid() && 0 < entry.expiry < YEAR_10000 && entry.id != "" && attempt < Lifecycle.EXPIRE_ATTEMPTS
    modifies store, index, index.Repr()
    ensures index.Valid() && index.Leases() == Reindexed(old(index.Leases()), entry.id, did)
    ensures done ==> (store.record, ended, did) == ExpireTried(Applied, w, entry.expiry, old(store.record), attempt)
    ensures !done ==> did.Kept? && index.Repr() == old(index.Repr())
    ensures !done ==> ExpireTried(Applied, w, entry.expiry, store.record, attempt + 1)
                      == ExpireTried(Applied, w, entry.expiry, old(store.record), attempt)
  {
    RaceBeside(store, index, w.rivals(2 * attempt));
    var snap, settled := Validate(store, index, entry, w.clock(attempt));
    if settled.Some? {
      return true, Unneeded, settled.value;
    }
    RaceBeside(store, index, w.rivals(2 * attempt + 1));
    var reply := CommitExpiry(store, index, snap.revision, entry, w.clock(attempt));
    match reply {
      case Updated(u) => return true, Committed(u), Dropped;
      case NoChange(u) => return true, Committed(u), Dropped;
      case Invalid => return true, Rejected, Kept;
      case Conflict => return false, Exhausted, Kept;
    }
  }

  /** `ExpireEntry` for a sandbox that the store knows. */
  method ExpireEntry(store: Store, index: TtlHeap.Heap, w: World, entry: HeapOrder.Entry)
    returns (ended: Ended, did: Indexing)
    requires index.Valid() && 0 < entry.expiry < YEAR_10000 && entry.id != ""
    modifies store, index, index.Repr()
    ensures index.Valid() && index.Leases() == Reindexed(old(index.Leases()), entry.id, did)
    ensures (store.record, ended, did) == ExpireTried(Applied, w, entry.expiry, old(store.record), 0)
  {
    for attempt := 0 to Lifecycle.EXPIRE_ATTEMPTS
      invariant index.Valid() && index.Repr() == old(index.Repr()) && index.Leases() == old(index.Leases())
      invariant ExpireTried(Applied, w, entry.expiry, store.record, attempt)
                == ExpireTried(Applied, w, entry.expiry, old(store.record), 0)
    {
      var done;
      done, ended, did := TryExpire(store, index, w, entry, attempt);
      if done {
        return;
      }
    }
    return Exhausted, Kept;
  }

  /** The commit of attempt k replaced `before`, whose lease had run out at that attempt's clock reading. */
  predicate ExpiredFrom(w: World, expected: Instant, before: Record, k: nat, u: Record) {
    && k < 3 && before.desired.WantRunning? && !before.observed.Terminated? && before.expiry == expected <= w.clock(k)
    && u == before.(revision := before.revision + 1, desired := WantTerminated, observed := Stopping, nextReconcile := Some(w.clock(k)))
  }

  /** The index agrees with the record the callback has left behind. */
  predicate Settles(r: Record, did: Indexing) {
    match did
    case Kept => true
    case Dropped => r.desired.WantTerminated? || r.observed.Terminated?
    case Rescheduled(expiry) => expiry == r.expiry && r.desired.WantRunning? && !r.observed.Terminated?
  }

  /** Over any store that keeps the contract, and whatever the others do, a callback that terminates a
      sandbox replaced a record whose current lease had run out; one that reschedules puts back the very
      expiry the store has, and one that drops its entry does so for a sandbox on its way out. */
  lemma {:induction false} ExpiryReplacesWhatItChecked(db: Db, w: World, expected: Instant, r: Record, k: nat)
    requires Swaps(db)
    ensures var (r', ended, did) := ExpireTried(db, w, expected, r, k);
            && Settles(r', did) && (did.Kept? ==> ended.Exhausted? || ended.Rejected?)
            && (ended.Committed? ==> r' == ended.record && exists before, j :: ExpiredFrom(w, expected, before, j, r'))
    decreases Lifecycle.EXPIRE_ATTEMPTS - k
  {
    if k < Lifecycle.EXPIRE_ATTEMPTS {
      var snap := Raced(db, r, w.rivals(2 * k));
      if Validated(snap, expected, w.clock(k)).None? {
        ValidatedIsDue(snap, expected, w.clock(k));
        var raced := Raced(db, snap, w.rivals(2 * k + 1));
        SameRevision(db, snap, w.rivals(2 * k + 1));
        var (r', reply) := db(raced, snap.revision, ExpireIntent(expected, w.clock(k)));
        if reply.Updated? {
          assert ExpiredFrom(w, expected, raced, k, r');
        } else if reply.Conflict? {
          ExpiryReplacesWhatItChecked(db, w, expected, r', k + 1);
        }
      }
    }
  }

  /** The store refuses to expire the record it holds exactly if `inverted`. */
  predicate Answers(db: Db, r: Record, now: Instant, inverted: bool) {
    db(r, r.revision, ExpireIntent(r.expiry, now)) ==
    if !inverted then (Written(r, ExpireIntent(r.expiry, now)), Updated(Written(r, ExpireIntent(r.expiry, now)))) else (r, Conflict)
  }

  lemma ExpireOnce(r: Record, now: Instant)
    requires Lifecycle.LeaseDue(r, now) && r.expiry != ZERO
    ensures Answers(Applied, r, now, Inverted(r.expiry, now))
  {
    Lifecycle.DueExpires(r, now);
  }

  /** The three attempts without rivals. */
  lemma ExpiriesAlone(db: Db, w: World, r: Record, first: bool, second: bool, third: bool)
    requires NoRivals(w) && ClockAscends(w) && Lifecycle.LeaseDue(r, w.clock(0))
    requires Answers(db, r, w.clock(0), first) && Answers(db, r, w.clock(1), second) && Answers(db, r, w.clock(2), third)
    ensures var (r', ended, did) := ExpireTried(db, w, r.expiry, r, 0);
            && (ended.Committed? <==> !first || !second || !third)
            && (ended.Committed? ==> r'.desired.WantTerminated? && did.Dropped?)
            && (!ended.Committed? ==> r' == r && ended.Exhausted? && did.Kept?)
  {
    assert w.rivals(0) == w.rivals(1) == w.rivals(2) == w.rivals(3) == w.rivals(4) == w.rivals(5) == [];
    ValidatedIsDue(r, r.expiry, w.clock(0));
    ValidatedIsDue(r, r.expiry, w.clock(1));
    ValidatedIsDue(r, r.expiry, w.clock(2));
    var last := ExpireTried(db, w, r.expiry, r, 2);
    assert third ==> last == (r, Exhausted, Kept);
    assert !third ==> last.1 == Committed(last.0) && last.0.desired.WantTerminated? && last.2.Dropped?;
    assert second ==> ExpireTried(db, w, r.expiry, r, 1) == last;
  }

  /** Without a competitor the timer of a lease that has run out terminates it unless the texts are inverted
      at every one of its looks at the clock; then it fails, and the sandbox lives on without a timer. */
  lemma ExpiryAlone(w: World, r: Record)
    requires NoRivals(w) && ClockAscends(w) && r.expiry != ZERO && Lifecycle.LeaseDue(r, w.clock(0))
    ensures var (r', ended, did) := ExpireTried(Applied, w, r.expiry, r, 0);
            && (ended.Committed? <==>
                  !Inverted(r.expiry, w.clock(0)) || !Inverted(r.expiry, w.clock(1)) || !Inverted(r.expiry, w.clock(2)))
            && (ended.Committed? ==> r'.desired.WantTerminated? && did.Dropped?)
            && (!ended.Committed? ==> r' == r && ended.Exhausted? && did.Kept?)
  {
    ExpireOnce(r, w.clock(0));
    ExpireOnce(r, w.clock(1));
    ExpireOnce(r, w.clock(2));
    ExpiriesAlone(Applied, w, r, Inverted(r.expiry, w.clock(0)), Inverted(r.expiry, w.clock(1)), Inverted(r.expiry, w.clock(2)));
  }

  /** A lease until a full second, and a timer that looks at the clock half a second later. */
  lemma DueTimerCanFail(w: World)
    requires NoRivals(w) && w.clock(0) == w.clock(1) == w.clock(2) == 2_500_000_000
    ensures var r := Record(3, WantRunning, Running, 2_000_000_000, "c1", 0, None, 0);
            ExpireTried(Applied, w, 2_000_000_000, r, 0) == (r, Exhausted, Kept)
  {
    HalfPastSortsFirst();
    ExpiryAlone(w, Record(3, WantRunning, Running, 2_000_000_000, "c1", 0, None, 0));
  }
}
