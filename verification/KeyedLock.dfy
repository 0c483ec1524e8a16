/** The per-sandbox lock whose entries are counted, deleted and recreated, and the threads that use it
    (internal/reconcile/keyed_lock.go). */
module KeyedLock {
  /** One lock entry: whether its one-slot token channel is full, and its two reference counts. */
  datatype Cell = Cell(token: bool, holders: int, waiters: int)

  /** Every entry ever made, identified by its place in `cells`, and the entry each key maps to now. */
  datatype Table = Table(entries: map<string, nat>, cells: seq<Cell>)

  predicate Known(t: Table) {
    forall key :: key in t.entries ==> t.entries[key] < |t.cells|
  }

  // ---------- The critical sections and channel operations ----------

  /** The table with a new, free entry for a key. */
  function Created(t: Table, key: string): Table {
    Table(t.entries[key := |t.cells|], t.cells + [Cell(true, 0, 0)])
  }

  function WaiterCounted(t: Table, e: nat): Table
    requires e < |t.cells|
  {
    t.(cells := t.cells[e := t.cells[e].(waiters := t.cells[e].waiters + 1)])
  }

  /** The first critical section of `LockContext`: finds or makes the entry and counts a waiter. */
  function Joined(t: Table, key: string): (Table, nat)
    requires Known(t)
  {
    if key in t.entries then (WaiterCounted(t, t.entries[key]), t.entries[key])
    else (WaiterCounted(Created(t, key), |t.cells|), |t.cells|)
  }

  function TokenSet(t: Table, e: nat, full: bool): Table
    requires e < |t.cells|
  {
    t.(cells := t.cells[e := t.cells[e].(token := full)])
  }

  /** The second critical section: the waiter becomes a holder. */
  function Promoted(t: Table, e: nat): Table
    requires e < |t.cells|
  {
    var c := t.cells[e];
    t.(cells := t.cells[e := c.(waiters := c.waiters - 1, holders := c.holders + 1)])
  }

  /** `deleteIdleEntry`. */
  function IdleDeleted(t: Table, key: string, e: nat): Table
    requires e < |t.cells|
  {
    if t.cells[e].holders == 0 && t.cells[e].waiters == 0 && key in t.entries && t.entries[key] == e
    then t.(entries := t.entries - {key})
    else t
  }

  /** `cancelWaiter`. */
  function Cancelled(t: Table, key: string, e: nat): Table
    requires e < |t.cells|
  {
    var c := t.cells[e];
    IdleDeleted(t.(cells := t.cells[e := c.(waiters := c.waiters - 1)]), key, e)
  }

  /** The critical section of the release closure. */
  function Released(t: Table, key: string, e: nat): Table
    requires e < |t.cells|
  {
    var c := t.cells[e];
    IdleDeleted(t.(cells := t.cells[e := c.(holders := c.holders - 1)]), key, e)
  }

  // ---------- The lock object ----------

  class Entry {
    ghost const at: nat
    var token: bool
    var holders: int
    var waiters: int

    constructor (ghost at: nat)
      ensures this.at == at && token && holders == 0 && waiters == 0
    {
      this.at := at;
      token, holders, waiters := true, 0, 0;
    }

    function View(): Cell
      reads this
    {
      Cell(token, holders, waiters)
    }
  }

  ghost function CellsOf(all: seq<Entry>): seq<Cell>
    reads all
  {
    seq(|all|, i requires 0 <= i < |all| reads all => all[i].View())
  }

  class Lock {
    var entries: map<string, Entry>
    ghost var all: seq<Entry>

    ghost predicate Valid()
      reads this, all
    {
      && (forall i :: 0 <= i < |all| ==> all[i].at == i)
      && (forall key :: key in entries ==> Owns(entries[key]))
    }

    ghost predicate Owns(e: Entry)
      reads this
    {
      e.at < |all| && all[e.at] == e
    }

    ghost function View(): Table
      reads this, all
    {
      Table(map key | key in entries :: entries[key].at, CellsOf(all))
    }

    constructor ()
      ensures Valid() && View() == Table(map[], [])
    {
      entries, all := map[], [];
    }

    /** The entry of a key that has none. */
    method Create(key: string) returns (e: Entry)
      requires Valid() && key !in entries
      modifies this
      ensures Valid() && Owns(e) && fresh(e) && entries == old(entries)[key := e]
      ensures e.at == |old(View()).cells| && View() == Created(old(View()), key)
    {
      e := new Entry(|all|);
      entries := entries[key := e];
      all := all + [e];
    }

    method CountWaiter(e: Entry)
      requires Valid() && Owns(e)
      modifies e
      ensures Valid() && View() == WaiterCounted(old(View()), e.at)
    {
      e.waiters := e.waiters + 1;
    }

    method Join(key: string) returns (e: Entry)
      requires Valid()
      modifies this, entries.Values
      ensures Valid() && Owns(e)
      ensures Known(old(View())) && (View(), e.at) == Joined(old(View()), key)
    {
      assert Known(View());
      if key in entries {
        e := entries[key];
      } else {
        e := Create(key);
      }
      CountWaiter(e);
    }

    method Promote(e: Entry)
      requires Valid() && Owns(e)
      modifies e
      ensures Valid() && View() == Promoted(old(View()), e.at)
    {
      e.waiters := e.waiters - 1;
      e.holders := e.holders + 1;
    }

    method DeleteIdle(key: string, e: Entry)
      requires Valid() && Owns(e)
      modifies this`entries
      ensures Valid() && View() == IdleDeleted(old(View()), key, e.at)
    {
      if e.holders == 0 && e.waiters == 0 && key in entries && entries[key] == e {
        entries := entries - {key};
      }
    }

    method CancelWaiter(key: string, e: Entry)
      requires Valid() && Owns(e)
      modifies this`entries, e
      ensures Valid() && View() == Cancelled(old(View()), key, e.at)
    {
      e.waiters := e.waiters - 1;
      DeleteIdle(key, e);
    }

    method Release(key: string, e: Entry)
      requires Valid() && Owns(e)
      modifies this`entries, e
      ensures Valid() && View() == Released(old(View()), key, e.at)
    {
      e.holders := e.holders - 1;
      DeleteIdle(key, e);
    }
  }

  // ---------- Threads ----------

  /** Where a thread is between the first critical section and the end of the release closure. */
  datatype Pc =
    | Idle
    | Waiting(key: string, e: nat)      // in the select
    | GotToken(key: string, e: nat)     // received the token, not yet promoted
    | Cancelling(key: string, e: nat)   // about to call cancelWaiter
    | Holding(key: string, e: nat)      // LockContext has returned
    | Releasing(key: string, e: nat)    // the token is back, the count is not

  datatype Act =
    | Join(t: nat, key: string)
    | TakeToken(t: nat)
    | GiveUp(t: nat)        // the context ended while waiting
    | PutBack(t: nat)       // the context ended together with the token
    | Promote(t: nat)
    | Cancel(t: nat)
    | ReturnToken(t: nat)
    | Release(t: nat)

  datatype State = State(table: Table, pcs: seq<Pc>)

  datatype Role = Waiter | Holder | Owner

  predicate Plays(pc: Pc, role: Role, e: nat) {
    && !pc.Idle? && pc.e == e
    && match role
       case Waiter => pc.Waiting? || pc.GotToken? || pc.Cancelling?
       case Holder => pc.Holding? || pc.Releasing?
       case Owner => pc.GotToken? || pc.Holding?
  }

  function Full(s: State, e: nat): bool {
    e < |s.table.cells| && s.table.cells[e].token
  }

  /** A send into a full one-slot channel and a receive from an empty one block. */
  predicate Enabled(s: State, a: Act) {
    && a.t < |s.pcs| && Known(s.table)
    && var pc := s.pcs[a.t];
       && (!pc.Idle? ==> pc.e < |s.table.cells|)
       && match a
          case Join(_, _) => pc.Idle?
          case TakeToken(_) => pc.Waiting? && Full(s, pc.e)
          case GiveUp(_) => pc.Waiting?
          case PutBack(_) => pc.GotToken? && !Full(s, pc.e)
          case Promote(_) => pc.GotToken?
          case Cancel(_) => pc.Cancelling?
          case ReturnToken(_) => pc.Holding? && !Full(s, pc.e)
          case Release(_) => pc.Releasing?
  }

  function Step(s: State, a: Act): State
    requires Enabled(s, a)
  {
    var pc := s.pcs[a.t];
    match a
    case Join(t, key) =>
      var (table, e) := Joined(s.table, key);
      State(table, s.pcs[t := Waiting(key, e)])
    case TakeToken(t) => State(TokenSet(s.table, pc.e, false), s.pcs[t := GotToken(pc.key, pc.e)])
    case GiveUp(t) => State(s.table, s.pcs[t := Cancelling(pc.key, pc.e)])
    case PutBack(t) => State(TokenSet(s.table, pc.e, true), s.pcs[t := Cancelling(pc.key, pc.e)])
    case Promote(t) => State(Promoted(s.table, pc.e), s.pcs[t := Holding(pc.key, pc.e)])
    case Cancel(t) => State(Cancelled(s.table, pc.key, pc.e), s.pcs[t := Idle])
    case ReturnToken(t) => State(TokenSet(s.table, pc.e, true), s.pcs[t := Releasing(pc.key, pc.e)])
    case Release(t) => State(Released(s.table, pc.key, pc.e), s.pcs[t := Idle])
  }

  // ---------- Counting threads ----------

  function One(b: bool): nat {
    if b then 1 else 0
  }

  function Count(pcs: seq<Pc>, role: Role, e: nat): nat {
    if pcs == [] then 0 else Count(pcs[..|pcs|-1], role, e) + One(Plays(pcs[|pcs|-1], role, e))
  }

  lemma {:induction false} CountUpdate(pcs: seq<Pc>, t: nat, pc: Pc, role: Role, e: nat)
    requires t < |pcs|
    ensures Count(pcs[t := pc], role, e) == Count(pcs, role, e) - One(Plays(pcs[t], role, e)) + One(Plays(pc, role, e))
  {
    var n := |pcs| - 1;
    if t < n {
      CountUpdate(pcs[..n], t, pc, role, e);
      assert pcs[t := pc][..n] == pcs[..n][t := pc];
    } else {
      assert pcs[t := pc][..n] == pcs[..n];
    }
  }

  lemma {:induction false} CountsEach(pcs: seq<Pc>, role: Role, e: nat, i: nat)
    requires i < |pcs| && Plays(pcs[i], role, e)
    ensures Count(pcs, role, e) >= 1
  {
    if i < |pcs| - 1 {
      CountsEach(pcs[..|pcs|-1], role, e, i);
    }
  }

  lemma {:induction false} CountsBoth(pcs: seq<Pc>, role: Role, e: nat, i: nat, j: nat)
    requires i < j < |pcs| && Plays(pcs[i], role, e) && Plays(pcs[j], role, e)
    ensures Count(pcs, role, e) >= 2
  {
    if j < |pcs| - 1 {
      CountsBoth(pcs[..|pcs|-1], role, e, i, j);
    } else {
      CountsEach(pcs[..|pcs|-1], role, e, i);
    }
  }

  lemma {:induction false} SomebodyCounted(pcs: seq<Pc>, role: Role, e: nat) returns (i: nat)
    requires Count(pcs, role, e) > 0
    ensures i < |pcs| && Plays(pcs[i], role, e)
  {
    if Plays(pcs[|pcs|-1], role, e) {
      i := |pcs| - 1;
    } else {
      i := SomebodyCounted(pcs[..|pcs|-1], role, e);
    }
  }

  // ---------- Invariant ----------

  /** The counts are the numbers of threads, and exactly the token or one owner exists. */
  predicate Counted(c: Cell, pcs: seq<Pc>, e: nat) {
    && c.waiters == Count(pcs, Waiter, e)
    && c.holders == Count(pcs, Holder, e)
    && One(c.token) + Count(pcs, Owner, e) == 1
  }

  predicate CellsInv(cells: seq<Cell>, pcs: seq<Pc>) {
    forall e :: 0 <= e < |cells| ==> Counted(cells[e], pcs, e)
  }

  /** Every entry a thread refers to is the current entry of its key. */
  predicate CurrentInv(entries: map<string, nat>, pcs: seq<Pc>) {
    forall t :: 0 <= t < |pcs| && !pcs[t].Idle? ==> pcs[t].key in entries && entries[pcs[t].key] == pcs[t].e
  }

  /** Keys have entries of their own, and only while these are in use. */
  predicate EntriesInv(t: Table) {
    && Known(t)
    && (forall k, l :: k in t.entries && l in t.entries && t.entries[k] == t.entries[l] ==> k == l)
    && (forall k :: k in t.entries ==> t.cells[t.entries[k]].waiters + t.cells[t.entries[k]].holders > 0)
  }

  predicate Inv(s: State) {
    CellsInv(s.table.cells, s.pcs) && CurrentInv(s.table.entries, s.pcs) && EntriesInv(s.table)
  }

  /** One thread moves and one cell changes by what that thread stops and starts to play. */
  lemma CellsStep(cells: seq<Cell>, pcs: seq<Pc>, t: nat, pc: Pc, e: nat, c: Cell)
    requires CellsInv(cells, pcs) && t < |pcs| && e < |cells|
    requires pcs[t].Idle? || pcs[t].e == e
    requires pc.Idle? || pc.e == e
    requires c.waiters == cells[e].waiters - One(Plays(pcs[t], Waiter, e)) + One(Plays(pc, Waiter, e))
    requires c.holders == cells[e].holders - One(Plays(pcs[t], Holder, e)) + One(Plays(pc, Holder, e))
    requires One(c.token) == One(cells[e].token) + One(Plays(pcs[t], Owner, e)) - One(Plays(pc, Owner, e))
    ensures CellsInv(cells[e := c], pcs[t := pc])
  {
    var cells', pcs' := cells[e := c], pcs[t := pc];
    forall x | 0 <= x < |cells'|
      ensures Counted(cells'[x], pcs', x)
    {
      CountUpdate(pcs, t, pc, Waiter, x);
      CountUpdate(pcs, t, pc, Holder, x);
      CountUpdate(pcs, t, pc, Owner, x);
      assert Counted(cells[x], pcs, x);
    }
  }

  lemma {:induction false} NobodyCounted(pcs: seq<Pc>, role: Role, e: nat)
    requires forall t :: 0 <= t < |pcs| && !pcs[t].Idle? ==> pcs[t].e != e
    ensures Count(pcs, role, e) == 0
  {
    if pcs != [] {
      NobodyCounted(pcs[..|pcs|-1], role, e);
    }
  }

  lemma JoinStep(s: State, a: Act)
    requires Inv(s) && Enabled(s, a) && a.Join?
    ensures Inv(Step(s, a))
  {
    var cells, t := s.table.cells, a.t;
    if a.key in s.table.entries {
      var e := s.table.entries[a.key];
      CellsStep(cells, s.pcs, t, Waiting(a.key, e), e, cells[e].(waiters := cells[e].waiters + 1));
    } else {
      var e := |cells|;
      NobodyCounted(s.pcs, Waiter, e);
      NobodyCounted(s.pcs, Holder, e);
      NobodyCounted(s.pcs, Owner, e);
      var more := Created(s.table, a.key).cells;
      assert CellsInv(more, s.pcs);
      CellsStep(more, s.pcs, t, Waiting(a.key, e), e, Cell(true, 0, 1));
    }
  }

  /** The steps that leave the map alone. */
  lemma MiddleStep(s: State, a: Act)
    requires Inv(s) && Enabled(s, a) && !a.Join? && !a.Cancel? && !a.Release?
    ensures Inv(Step(s, a))
  {
    var s', e := Step(s, a), s.pcs[a.t].e;
    assert Counted(s.table.cells[e], s.pcs, e);
    CellsStep(s.table.cells, s.pcs, a.t, s'.pcs[a.t], e, s'.table.cells[e]);
    assert s'.table.cells == s.table.cells[e := s'.table.cells[e]];
  }

  /** The steps that may delete the entry: it is then idle, so nobody refers to it any more. */
  lemma LastStep(s: State, a: Act)
    requires Inv(s) && Enabled(s, a) && (a.Cancel? || a.Release?)
    ensures Inv(Step(s, a))
  {
    var s', e := Step(s, a), s.pcs[a.t].e;
    CellsStep(s.table.cells, s.pcs, a.t, Idle, e, s'.table.cells[e]);
    assert s'.table.cells == s.table.cells[e := s'.table.cells[e]];
    assert Counted(s'.table.cells[e], s'.pcs, e);
    forall t | 0 <= t < |s'.pcs| && !s'.pcs[t].Idle?
      ensures s'.pcs[t].key in s'.table.entries && s'.table.entries[s'.pcs[t].key] == s'.pcs[t].e
    {
      if s'.pcs[t].e == e {
        CountsEach(s'.pcs, if Plays(s'.pcs[t], Waiter, e) then Waiter else Holder, e, t);
      }
    }
  }

  lemma StepInv(s: State, a: Act)
    requires Inv(s) && Enabled(s, a)
    ensures Inv(Step(s, a))
  {
    if a.Join? {
      JoinStep(s, a);
    } else if a.Cancel? || a.Release? {
      LastStep(s, a);
    } else {
      MiddleStep(s, a);
    }
  }

  // ---------- Runs ----------

  predicate Runs(s: State, acts: seq<Act>)
    decreases acts
  {
    acts != [] ==> Enabled(s, acts[0]) && Runs(Step(s, acts[0]), acts[1..])
  }

  function After(s: State, acts: seq<Act>): State
    requires Runs(s, acts)
    decreases acts
  {
    if acts == [] then s else After(Step(s, acts[0]), acts[1..])
  }

  lemma {:induction false} RunInv(s: State, acts: seq<Act>)
    requires Inv(s) && Runs(s, acts)
    ensures Inv(After(s, acts))
    decreases acts
  {
    if acts != [] {
      StepInv(s, acts[0]);
      RunInv(Step(s, acts[0]), acts[1..]);
    }
  }

  predicate Init(s: State) {
    s.table == Table(map[], []) && forall t :: 0 <= t < |s.pcs| ==> s.pcs[t].Idle?
  }

  predicate Owning(pc: Pc) {
    pc.GotToken? || pc.Holding?
  }

  /** What every reachable state guarantees. */
  ghost predicate Safe(s: State) {
    // at most one thread owns a key, however often its entry was deleted and made again
    && (forall i, j :: 0 <= i < j < |s.pcs| && Owning(s.pcs[i]) && Owning(s.pcs[j]) ==> s.pcs[i].key != s.pcs[j].key)
    // the map has an entry for a key exactly while some thread refers to one
    && (forall key :: key in s.table.entries <==> exists t :: 0 <= t < |s.pcs| && !s.pcs[t].Idle? && s.pcs[t].key == key)
    // and every entry referred to is the current one
    && CurrentInv(s.table.entries, s.pcs)
    // giving the token back never blocks
    && (forall t :: 0 <= t < |s.pcs| && Owning(s.pcs[t]) ==> !Full(s, s.pcs[t].e))
    // and a waiter only waits while somebody owns its entry
    && (forall t :: 0 <= t < |s.pcs| && s.pcs[t].Waiting? && !Full(s, s.pcs[t].e) ==>
          exists o :: 0 <= o < |s.pcs| && Owning(s.pcs[o]) && s.pcs[o].key == s.pcs[t].key)
  }

  lemma KeyInUse(s: State, key: string)
    requires Inv(s) && key in s.table.entries
    ensures exists t :: 0 <= t < |s.pcs| && !s.pcs[t].Idle? && s.pcs[t].key == key
  {
    var e := s.table.entries[key];
    assert Counted(s.table.cells[e], s.pcs, e);
    var t := SomebodyCounted(s.pcs, if s.table.cells[e].waiters > 0 then Waiter else Holder, e);
    assert s.table.entries[s.pcs[t].key] == e;
  }

  lemma OneOwner(s: State, i: nat, j: nat)
    requires Inv(s) && i < j < |s.pcs| && Owning(s.pcs[i]) && Owning(s.pcs[j])
    ensures s.pcs[i].key != s.pcs[j].key
  {
    var e := s.pcs[i].e;
    assert Counted(s.table.cells[e], s.pcs, e);
    if s.pcs[j].e == e {
      CountsBoth(s.pcs, Owner, e, i, j);
    }
  }

  lemma WaiterHasOwner(s: State, t: nat)
    requires Inv(s) && t < |s.pcs| && s.pcs[t].Waiting? && !Full(s, s.pcs[t].e)
    ensures exists o :: 0 <= o < |s.pcs| && Owning(s.pcs[o]) && s.pcs[o].key == s.pcs[t].key
  {
    var e := s.pcs[t].e;
    assert Counted(s.table.cells[e], s.pcs, e);
    var o := SomebodyCounted(s.pcs, Owner, e);
    assert s.table.entries[s.pcs[o].key] == e == s.table.entries[s.pcs[t].key];
  }

  lemma OwnerHasToken(s: State, t: nat)
    requires Inv(s) && t < |s.pcs| && Owning(s.pcs[t])
    ensures !Full(s, s.pcs[t].e)
  {
    CountsEach(s.pcs, Owner, s.pcs[t].e, t);
    assert Counted(s.table.cells[s.pcs[t].e], s.pcs, s.pcs[t].e);
  }

  /** Safety of every interleaving of acquire, cancel, cancel after the token, and release. */
  lemma EveryInterleavingIsSafe(s: State, acts: seq<Act>)
    requires Init(s) && Runs(s, acts)
    ensures Safe(After(s, acts))
  {
    RunInv(s, acts);
    var s' := After(s, acts);
    forall i: nat, j: nat | i < j < |s'.pcs| && Owning(s'.pcs[i]) && Owning(s'.pcs[j])
      ensures s'.pcs[i].key != s'.pcs[j].key
    {
      OneOwner(s', i, j);
    }
    forall key | key in s'.table.entries
      ensures exists t :: 0 <= t < |s'.pcs| && !s'.pcs[t].Idle? && s'.pcs[t].key == key
    {
      KeyInUse(s', key);
    }
    forall t: nat | t < |s'.pcs| && Owning(s'.pcs[t])
      ensures !Full(s', s'.pcs[t].e)
    {
      OwnerHasToken(s', t);
    }
    forall t: nat | t < |s'.pcs| && s'.pcs[t].Waiting? && !Full(s', s'.pcs[t].e)
      ensures exists o :: 0 <= o < |s'.pcs| && Owning(s'.pcs[o]) && s'.pcs[o].key == s'.pcs[t].key
    {
      WaiterHasOwner(s', t);
    }
  }

  /** When every thread has finished, no entry is left behind. */
  lemma NothingLeaks(s: State, acts: seq<Act>)
    requires Init(s) && Runs(s, acts)
    ensures (forall t :: 0 <= t < |After(s, acts).pcs| ==> After(s, acts).pcs[t].Idle?) ==>
              After(s, acts).table.entries == map[]
  {
    EveryInterleavingIsSafe(s, acts);
    var s' := After(s, acts);
    if forall t :: 0 <= t < |s'.pcs| ==> s'.pcs[t].Idle? {
      assert forall key :: key !in s'.table.entries;
    }
  }
}
