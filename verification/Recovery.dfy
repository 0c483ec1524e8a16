/** Startup recovery: the plan for one sandbox, the metadata repair and the import of trusted orphans
    (internal/reconcile/recovery_plan.go:54-159, internal/reconcile/metadata_repair.go:77-104,
    internal/reconcile/orphan_import.go:51-116). */
module Recovery {
  import opened Wrappers
  import opened Inventory
  import opened SandboxStore
  import Discovery
  import Sorting

  /** The fields of the stored record that recovery looks at. */
  datatype Stored = Stored(id: string, revision: nat, specHash: string, desired: Desired, observed: Observed, runtimeId: string)

  datatype Action = NoOp | Wake | RepairMetadata | Import | RecordAnomaly

  datatype Why =
    | Stable | StoreNeedsReconcile | TrustedOrphan | PartialOrphan | ActualAnomaly | IdentityConflict | SpecDrift
    | MetadataDrift | TerminatedResurrection

  datatype Plan = Plan(id: string, action: Action, why: Why, revision: nat, specHash: string, runtimeId: string)

  predicate RunningBundle(a: Snapshot) {
    && a.anomalies == [] && a.main.Some? && a.main.value.state == "Running" && a.workspace.Some?
    && a.directory.Some? && a.directory.value.present
  }

  predicate ImportBundle(a: Snapshot) {
    RunningBundle(a) && (a.directory.value.manifest.Some? || (a.main.value.schema == 2 && a.main.value.creationExpiry.Some?))
  }

  predicate Drifted(r: Stored, a: Snapshot) {
    || (a.main.Some? && a.main.value.specHash != r.specHash)
    || (a.workspace.Some? && a.workspace.value.specHash != r.specHash)
    || (a.directory.Some? && a.directory.value.manifest.Some? && a.directory.value.manifest.value.specHash != r.specHash)
  }

  predicate HasResources(a: Snapshot) {
    a.main.Some? || a.egress.Some? || a.workspace.Some? || a.directory.Some?
  }

  function MainId(actual: Option<Snapshot>): string {
    if actual.Some? && actual.value.main.Some? then actual.value.main.value.id else ""
  }

  /** The decision of `PlanRecovery` on a stored record and its snapshot. */
  function Decided(r: Stored, a: Snapshot): (Action, Why) {
    if r.id != a.sandboxId then (RecordAnomaly, IdentityConflict)
    else if a.anomalies != [] then (RecordAnomaly, ActualAnomaly)
    else if Drifted(r, a) then (RecordAnomaly, SpecDrift)
    else if r.observed.Terminated? && r.desired.WantRunning? then (RecordAnomaly, TerminatedResurrection)
    else if a.main.Some? && r.runtimeId != a.main.value.id then (RepairMetadata, MetadataDrift)
    else if r.desired.WantTerminated? then
      if HasResources(a) || !r.observed.Terminated? then (Wake, StoreNeedsReconcile) else (NoOp, Stable)
    else if r.observed.Running? && RunningBundle(a) then (NoOp, Stable)
    else (Wake, StoreNeedsReconcile)
  }

  /** `PlanRecovery`. */
  function Planned(stored: Option<Stored>, actual: Option<Snapshot>): Plan {
    match (stored, actual)
    case (None, None) => Plan("", NoOp, Stable, 0, "", "")
    case (None, Some(a)) =>
      var (action, why) :=
        if ImportBundle(a) then (Import, TrustedOrphan)
        else if a.anomalies != [] then (RecordAnomaly, ActualAnomaly)
        else (RecordAnomaly, PartialOrphan);
      Plan(a.sandboxId, action, why, 0, "", MainId(actual))
    case (Some(r), None) =>
      var (action, why) :=
        if r.desired.WantTerminated? && r.observed.Terminated? then (NoOp, Stable)
        else if r.observed.Terminated? then (RecordAnomaly, TerminatedResurrection)
        else (Wake, StoreNeedsReconcile);
      Plan(r.id, action, why, r.revision, r.specHash, "")
    case (Some(r), Some(a)) =>
      var (action, why) := Decided(r, a);
      Plan(r.id, action, why, r.revision, r.specHash, MainId(actual))
  }

  /** Every part of the snapshot belongs to this record: its ID, no anomaly, and its spec hash wherever there is one. */
  predicate Trusted(r: Stored, a: Snapshot) {
    && a.sandboxId == r.id && a.anomalies == []
    && (a.main.Some? ==> a.main.value.specHash == r.specHash)
    && (a.workspace.Some? ==> a.workspace.value.specHash == r.specHash)
    && (a.directory.Some? && a.directory.value.manifest.Some? ==> a.directory.value.manifest.value.specHash == r.specHash)
  }

  /** What the record asks for is what there is: nothing but the record, or everything it needs, up. */
  predicate Settled(r: Stored, actual: Option<Snapshot>) {
    if r.desired.WantTerminated? then
      r.observed.Terminated?
      && (actual.None? || (actual.value.main.None? && actual.value.egress.None? && actual.value.workspace.None? && actual.value.directory.None?))
    else
      r.observed.Running? && actual.Some? && actual.value.main.Some? && actual.value.main.value.state == "Running"
      && actual.value.workspace.Some? && actual.value.directory.Some? && actual.value.directory.value.present
  }

  /** The plan for a stored record, by what has to be true of it: it is reported if the snapshot cannot be trusted or
      the record is Terminated and wants to run; it is repaired if all is well but the container's ID; it is left
      alone if it is settled, and woken in all other cases. The plan names what it was made of. */
  lemma PlannedExactly(r: Stored, actual: Option<Snapshot>)
    ensures var p := Planned(Some(r), actual);
            var sound := (actual.Some? ==> Trusted(r, actual.value)) && !(r.observed.Terminated? && r.desired.WantRunning?);
            var known := actual.Some? && actual.value.main.Some? ==> actual.value.main.value.id == r.runtimeId;
            && p.action == (if !sound then RecordAnomaly else if !known then RepairMetadata
                            else if Settled(r, actual) then NoOp else Wake)
            && p.id == r.id && p.revision == r.revision && p.specHash == r.specHash
            && (actual.Some? && actual.value.main.Some? ==> p.runtimeId == actual.value.main.value.id)
            && (p.action.RecordAnomaly? ==>
                  match p.why
                  case IdentityConflict => actual.value.sandboxId != r.id
                  case ActualAnomaly => actual.value.anomalies != []
                  case SpecDrift => !Trusted(r, actual.value)
                  case TerminatedResurrection => r.observed.Terminated? && r.desired.WantRunning?
                  case _ => false)
  {
  }

  // ---------- Metadata repair ----------

  /** `validateMetadataRepair` against the record as it is read again. */
  predicate RepairAccepted(p: Plan, r: Stored, a: Snapshot) {
    && p.id != "" && p.id == r.id == a.sandboxId
    && p.specHash != "" && p.specHash == r.specHash
    && p.runtimeId != "" && a.main.Some? && p.runtimeId == a.main.value.id
    && a.main.value.sandboxId == r.id && a.main.value.role.MainRole? && a.main.value.specHash == r.specHash
    && (a.egress.Some? ==> a.egress.value.sandboxId == r.id && a.egress.value.role.EgressRole?)
    && (a.workspace.Some? ==> a.workspace.value.sandboxId == r.id && a.workspace.value.specHash == r.specHash)
    && (a.directory.Some? && a.directory.value.manifest.Some? ==>
          a.directory.value.manifest.value.sandboxId == r.id && a.directory.value.manifest.value.specHash == r.specHash)
    && a.anomalies == [] && BundleAnomalies(a) == []
  }

  /** What a repair is accepted for: the plan was made for this very record and container, neither ID nor hash is empty,
      every part is trusted and says itself that it belongs to the sandbox in its role, and nothing contradicts
      itself. */
  lemma RepairAcceptedExactly(p: Plan, r: Stored, a: Snapshot)
    ensures RepairAccepted(p, r, a) <==>
            && p.id == r.id != "" && p.specHash == r.specHash != "" && Trusted(r, a)
            && a.main.Some? && p.runtimeId == a.main.value.id != ""
            && a.main.value.sandboxId == r.id && a.main.value.role == MainRole
            && (a.egress.Some? ==> a.egress.value.sandboxId == r.id && a.egress.value.role == EgressRole)
            && (a.workspace.Some? ==> a.workspace.value.sandboxId == r.id)
            && (a.directory.Some? && a.directory.value.manifest.Some? ==> a.directory.value.manifest.value.sandboxId == r.id)
            && forall x :: !Discovery.Contradicts(a, x)
  {
    forall x
      ensures x in BundleAnomalies(a) <==> Discovery.Contradicts(a, x)
    {
      Discovery.ContradictionsExactly(a, x);
    }
    if BundleAnomalies(a) != [] {
      assert BundleAnomalies(a)[0] in BundleAnomalies(a);
    }
  }

  function WithRuntimeId(r: Stored, runtimeId: string): Stored {
    r.(runtimeId := runtimeId, revision := r.revision + 1)
  }

  /** `UpdateObserved` of the repair: only the runtime ID changes. */
  function Repaired(r: Stored, a: Snapshot): Stored
    requires a.main.Some?
  {
    if r.runtimeId == a.main.value.id then r else WithRuntimeId(r, a.main.value.id)
  }

  /** A snapshot as the aggregation makes it from the members of its group. */
  ghost predicate Aggregated(a: Snapshot) {
    exists obs :: a == Built(a.sandboxId, GroupAt(obs, a.sandboxId)) && a.sandboxId != ""
  }

  lemma {:induction false} GroupMembers(obs: seq<Observation>, id: string)
    requires id != ""
    ensures var g := GroupAt(obs, id);
            && (forall c :: c in g.main ==> c.sandboxId == id && c.role.MainRole?)
            && (forall c :: c in g.egress ==> c.sandboxId == id && c.role.EgressRole?)
            && (forall v :: v in g.workspace ==> v.sandboxId == id)
  {
    if obs != [] {
      GroupMembers(obs[..|obs|-1], id);
    }
  }

  /** Without anomalies of its own a snapshot has none in its bundle either. */
  lemma SortedEmpty(list: seq<Anomaly>)
    requires Sorted(list) == []
    ensures list == []
  {
    BeforeIsTotal();
    Sorting.SortedSorts(Before, list);
    assert |multiset(list)| == 0;
  }

  lemma CleanBundle(id: string, g: Group)
    requires Built(id, g).anomalies == []
    ensures BundleAnomalies(Built(id, g)) == []
  {
    var s := Snapshot(id, Only(g.main), Only(g.egress), Only(g.workspace), Only(g.directory), []);
    var all := g.anomalies + Duplicate(g.main, "DUPLICATE_MAIN", "main") + Duplicate(g.egress, "DUPLICATE_EGRESS", "egress")
               + Duplicate(g.workspace, "DUPLICATE_WORKSPACE", "workspace")
               + Duplicate(g.directory, "DUPLICATE_DIRECTORY", "directory") + BundleAnomalies(s);
    SortedEmpty(all);
    assert BundleAnomalies(s) == [];
    assert BundleAnomalies(Built(id, g)) == BundleAnomalies(s);
  }

  lemma OnlyMember<T>(list: seq<T>)
    ensures Only(list).Some? ==> Only(list).value in list
  {
  }

  /** What an aggregated snapshot without anomalies vouches for. */
  lemma AggregatedFacts(a: Snapshot)
    requires Aggregated(a)
    ensures a.main.Some? ==> a.main.value.sandboxId == a.sandboxId && a.main.value.role.MainRole?
    ensures a.egress.Some? ==> a.egress.value.sandboxId == a.sandboxId && a.egress.value.role.EgressRole?
    ensures a.workspace.Some? ==> a.workspace.value.sandboxId == a.sandboxId
    ensures a.anomalies == [] ==> BundleAnomalies(a) == []
  {
    var obs :| a == Built(a.sandboxId, GroupAt(obs, a.sandboxId)) && a.sandboxId != "";
    var g := GroupAt(obs, a.sandboxId);
    GroupMembers(obs, a.sandboxId);
    OnlyMember(g.main);
    OnlyMember(g.egress);
    OnlyMember(g.workspace);
    if a.anomalies == [] {
      CleanBundle(a.sandboxId, g);
    }
  }

  lemma Vouched(a: Snapshot)
    requires Aggregated(a) && a.anomalies == [] && a.main.Some?
    ensures BundleAnomalies(a) == []
    ensures a.main.value.sandboxId == a.sandboxId && a.main.value.role.MainRole?
    ensures a.egress.Some? ==> a.egress.value.sandboxId == a.sandboxId && a.egress.value.role.EgressRole?
    ensures a.workspace.Some? ==> a.workspace.value.sandboxId == a.sandboxId && a.workspace.value.specHash == a.main.value.specHash
    ensures a.directory.Some? && a.directory.value.manifest.Some? ==>
              a.directory.value.manifest.value.specHash == a.main.value.specHash
              && a.directory.value.manifest.value.sandboxId == a.sandboxId
    ensures a.sandboxId != ""
  {
    AggregatedFacts(a);
    CleanBundleAgrees(a);
  }

  /** A repair that is planned from an aggregated inventory passes the executor's own validation on the
      unchanged record exactly when the spec hash and the container ID are not empty. */
  lemma PlannedRepairIsAccepted(r: Stored, a: Snapshot)
    requires Aggregated(a) && Planned(Some(r), Some(a)).action.RepairMetadata?
    ensures RepairAccepted(Planned(Some(r), Some(a)), r, a) <==> r.specHash != "" && a.main.value.id != ""
  {
    Vouched(a);
  }

  /** After the repair the same inventory asks for nothing more than a wake. */
  lemma RepairConverges(r: Stored, a: Snapshot)
    requires Planned(Some(r), Some(a)).action.RepairMetadata?
    ensures var again := Planned(Some(Repaired(r, a)), Some(a)).action; again.NoOp? || again.Wake?
    ensures var p := Planned(Some(r), Some(a));
            Repaired(r, a).desired == r.desired && Repaired(r, a).observed == r.observed
            && RepairAccepted(p, r, a) == RepairAccepted(p, Repaired(r, a), a)
  {
  }

  // ---------- The repair loop ----------

  const REPAIR_ATTEMPTS := 3

  datatype RepairEnd = Committed | Unneeded | Stale | Exhausted

  /** What other writers make of the record before the n-th access of the loop. */
  type Rivals = nat -> Stored -> Stored

  /** The attempts of `Execute` from the k-th on; every attempt reads and validates again. */
  function RepairTried(p: Plan, a: Snapshot, rivals: Rivals, r: Stored, k: nat): (Stored, RepairEnd)
    decreases REPAIR_ATTEMPTS - k
  {
    if k >= REPAIR_ATTEMPTS then (r, Exhausted)
    else
      var current := rivals(2 * k)(r);
      if !RepairAccepted(p, current, a) then (current, Stale)
      else if current.runtimeId == a.main.value.id then (current, Unneeded)
      else
        var raced := rivals(2 * k + 1)(current);
        if raced.revision == current.revision then (WithRuntimeId(raced, a.main.value.id), Committed)
        else RepairTried(p, a, rivals, raced, k + 1)
  }

  class Row {
    var stored: Stored

    constructor (stored: Stored)
      ensures this.stored == stored
    {
      this.stored := stored;
    }

    method UpdateRuntimeId(revision: nat, runtimeId: string) returns (ok: bool)
      modifies this
      ensures ok == (old(stored).revision == revision)
      ensures stored == if ok then WithRuntimeId(old(stored), runtimeId) else old(stored)
    {
      ok := stored.revision == revision;
      if ok {
        stored := stored.(runtimeId := runtimeId, revision := revision + 1);
      }
    }

    /** `MetadataRepairExecutor.Execute`. */
    method Execute(p: Plan, a: Snapshot, rivals: Rivals) returns (end: RepairEnd)
      modifies this
      ensures (stored, end) == RepairTried(p, a, rivals, old(stored), 0)
    {
      for attempt := 0 to REPAIR_ATTEMPTS
        invariant RepairTried(p, a, rivals, stored, attempt) == RepairTried(p, a, rivals, old(stored), 0)
      {
        stored := rivals(2 * attempt)(stored);
        var current := stored;
        if !RepairAccepted(p, current, a) {
          return Stale;
        }
        if current.runtimeId == a.main.value.id {
          return Unneeded;
        }
        stored := rivals(2 * attempt + 1)(stored);
        var ok := UpdateRuntimeId(current.revision, a.main.value.id);
        if ok {
          return Committed;
        }
      }
      return Exhausted;
    }
  }

  /** A writer either leaves the record alone or moves its revision on. */
  ghost predicate Unchanging(rivals: Rivals) {
    forall n, r :: rivals(n)(r) == r || rivals(n)(r).revision > r.revision
  }

  /** Whatever the others do, a repair that commits replaced a record that passed the whole validation, and
      changed nothing of it but the container ID. */
  lemma {:induction false} RepairReplacesWhatItChecked(p: Plan, a: Snapshot, rivals: Rivals, r: Stored, k: nat)
    requires Unchanging(rivals)
    ensures var (r', end) := RepairTried(p, a, rivals, r, k);
            && (end.Committed? ==> exists before :: RepairAccepted(p, before, a) && before.runtimeId != a.main.value.id
                                                    && r' == Repaired(before, a))
            && (end.Unneeded? ==> RepairAccepted(p, r', a) && r'.runtimeId == a.main.value.id)
    decreases REPAIR_ATTEMPTS - k
  {
    if k < REPAIR_ATTEMPTS {
      var current := rivals(2 * k)(r);
      if RepairAccepted(p, current, a) && current.runtimeId != a.main.value.id {
        var raced := rivals(2 * k + 1)(current);
        if raced.revision != current.revision {
          RepairReplacesWhatItChecked(p, a, rivals, raced, k + 1);
        } else {
          assert raced == current;
        }
      }
    }
  }

  /** Retries are only exhausted when in each of the three attempts another writer came between the look at the record
      and the write. */
  lemma {:induction false} ExhaustedRepairLostEachTime(p: Plan, a: Snapshot, rivals: Rivals, r: Stored, k: nat, j: nat)
    requires RepairTried(p, a, rivals, r, k).1.Exhausted? && k <= j < 3
    ensures exists x :: rivals(2 * j + 1)(x).revision != x.revision
    decreases REPAIR_ATTEMPTS - k
  {
    var current := rivals(2 * k)(r);
    var raced := rivals(2 * k + 1)(current);
    assert raced.revision != current.revision;
    if j > k {
      ExhaustedRepairLostEachTime(p, a, rivals, raced, k + 1, j);
    }
  }

  /** End to end without a competitor: a repair planned from an aggregated inventory commits at the first
      attempt unless the spec hash or the container ID is empty, and planning again asks for at most a wake. */
  lemma PlannedRepairIsCarriedOut(r: Stored, a: Snapshot, rivals: Rivals)
    requires Aggregated(a) && Planned(Some(r), Some(a)).action.RepairMetadata?
    requires forall n :: 0 <= n < 2 ==> rivals(n)(r) == r
    ensures var (r', end) := RepairTried(Planned(Some(r), Some(a)), a, rivals, r, 0);
            && (end.Committed? <==> r.specHash != "" && a.main.value.id != "")
            && (!end.Committed? ==> end.Stale? && r' == r)
            && (end.Committed? ==> var again := Planned(Some(r'), Some(a)).action; again.NoOp? || again.Wake?)
  {
    PlannedRepairIsAccepted(r, a);
    RepairConverges(r, a);
    assert rivals(0)(r) == r && rivals(1)(r) == r;
  }

  /** A record that is Terminated but wants to run is never woken, repaired or imported over; one that is
      Terminated on request is never imported over and only woken to remove what is left of it. */
  lemma TerminatedIsNotRevived(r: Stored, actual: Option<Snapshot>)
    requires r.observed.Terminated?
    ensures var p := Planned(Some(r), actual);
            && !p.action.Import?
            && (r.desired.WantRunning? ==> p.action.RecordAnomaly?)
            && (p.action.Wake? ==> r.desired.WantTerminated? && HasResources(actual.value))
  {
  }

  /** A record that is Terminated on request is repaired exactly when a trusted main container of it is left over
      under another ID. The repair keeps it Terminated, and all that planning again asks for is the wake that
      removes the container. */
  lemma TerminatedIsRepairedExactly(r: Stored, a: Snapshot)
    requires Aggregated(a) && r.observed.Terminated? && r.id == a.sandboxId
    ensures Planned(Some(r), Some(a)).action.RepairMetadata? <==>
            && r.desired.WantTerminated? && a.anomalies == []
            && a.main.Some? && a.main.value.specHash == r.specHash && a.main.value.id != r.runtimeId
    ensures Planned(Some(r), Some(a)).action.RepairMetadata? ==>
              var r' := Repaired(r, a);
              r'.observed.Terminated? && r'.desired.WantTerminated? && Planned(Some(r'), Some(a)).action.Wake?
  {
    if a.anomalies == [] && a.main.Some? {
      Vouched(a);
    }
    TerminatedPlan(r, a);
  }

  /** The same of any snapshot whose parts have the hash of its main container. */
  lemma TerminatedPlan(r: Stored, a: Snapshot)
    requires r.observed.Terminated? && r.id == a.sandboxId
    requires a.anomalies == [] && a.main.Some? ==>
               && (a.workspace.Some? ==> a.workspace.value.specHash == a.main.value.specHash)
               && (a.directory.Some? && a.directory.value.manifest.Some? ==>
                     a.directory.value.manifest.value.specHash == a.main.value.specHash)
    ensures Planned(Some(r), Some(a)).action.RepairMetadata? <==>
            && r.desired.WantTerminated? && a.anomalies == []
            && a.main.Some? && a.main.value.specHash == r.specHash && a.main.value.id != r.runtimeId
    ensures Planned(Some(r), Some(a)).action.RepairMetadata? ==>
              var r' := Repaired(r, a);
              r'.observed.Terminated? && r'.desired.WantTerminated? && Planned(Some(r'), Some(a)).action.Wake?
  {
    PlannedExactly(r, Some(a));
    if a.main.Some? {
      PlannedExactly(Repaired(r, a), Some(a));
    }
  }

  /** The case itself: container c2 is left over, and the record remembers c1. */
  lemma TerminatedCanBeRepaired(main: Container)
    requires main.id == "c2"
    ensures var r := Stored("sbx", 7, main.specHash, WantTerminated, Terminated, "c1");
            Planned(Some(r), Some(Snapshot("sbx", Some(main), None, None, None, []))).action.RepairMetadata?
  {
    assert "c1"[1] != "c2"[1];
  }

  // ---------- Orphan import ----------

  datatype Expiry = Known(at: int) | Conflicting | Unknown

  /** `trustedOrphanExpiry`; the zero time is not an expiry. */
  function OrphanExpiry(a: Snapshot): Expiry {
    if a.directory.Some? && a.directory.value.manifest.Some? then
      var m := a.directory.value.manifest.value;
      if m.sandboxId == a.sandboxId && a.main.Some? && m.specHash == a.main.value.specHash && m.expiry != 0
      then Known(m.expiry) else Conflicting
    else if a.main.Some? && a.main.value.schema == 2 && a.main.value.creationExpiry.Some? && a.main.value.creationExpiry.value != 0
    then Known(a.main.value.creationExpiry.value)
    else Unknown
  }

  /** The record `Execute` imports at a clock reading: an expired orphan goes straight to deletion. */
  function Imported(a: Snapshot, now: int): Stored
    requires a.main.Some? && OrphanExpiry(a).Known?
  {
    var expired := now >= OrphanExpiry(a).at;
    Stored(a.sandboxId, 1, a.main.value.specHash, if expired then WantTerminated else WantRunning,
           if expired then Stopping else Creating, a.main.value.id)
  }

  /** Where the lease of an orphan comes from: from the manifest if there is one, and then only if it belongs to this
      sandbox and spec; without one from the labels of a container of schema 2; never from a zero time. */
  lemma OrphanExpiryExactly(a: Snapshot, at: int)
    ensures var manifest := if a.directory.Some? then a.directory.value.manifest else None;
            && (OrphanExpiry(a) == Known(at) <==>
                  && at != 0 && a.main.Some?
                  && if manifest.Some? then manifest.value == Manifest(a.sandboxId, a.main.value.specHash, at)
                     else a.main.value.schema == 2 && a.main.value.creationExpiry == Some(at))
            && (OrphanExpiry(a).Conflicting? ==> manifest.Some?) && (OrphanExpiry(a).Unknown? ==> manifest.None?)
  {
  }

  /** What is imported: the container with its spec under a first revision, to be run, or to be taken down if its lease
      has run out when it is imported. */
  lemma ImportedExactly(a: Snapshot, now: int, at: int)
    requires a.main.Some? && OrphanExpiry(a) == Known(at)
    ensures var r := Imported(a, now);
            && r.id == a.sandboxId && r.revision == 1 && r.specHash == a.main.value.specHash && r.runtimeId == a.main.value.id
            && (r.desired.WantTerminated? <==> at <= now) && (r.observed.Stopping? <==> at <= now)
            && (r.observed.Creating? <==> now < at)
  {
  }

  /** An import that is planned from an aggregated inventory finds its lease exactly when the time in the
      manifest, or in the container's labels when there is no manifest, is not the zero time. */
  lemma PlannedImportHasLease(a: Snapshot)
    requires Aggregated(a) && Planned(None, Some(a)).action.Import?
    ensures var m := a.directory.value.manifest;
            OrphanExpiry(a).Known? <==> (if m.Some? then m.value.expiry != 0 else a.main.value.creationExpiry.value != 0)
  {
    Vouched(a);
  }

  lemma NoAnomaliesExactly(id: string, g: Group)
    ensures var s := Snapshot(id, Only(g.main), Only(g.egress), Only(g.workspace), Only(g.directory), []);
            Built(id, g).anomalies == [] <==>
            && g.anomalies == [] && |g.main| <= 1 && |g.egress| <= 1 && |g.workspace| <= 1 && |g.directory| <= 1
            && BundleAnomalies(s) == []
  {
    var s := Snapshot(id, Only(g.main), Only(g.egress), Only(g.workspace), Only(g.directory), []);
    var all := g.anomalies + Duplicate(g.main, "DUPLICATE_MAIN", "main") + Duplicate(g.egress, "DUPLICATE_EGRESS", "egress")
               + Duplicate(g.workspace, "DUPLICATE_WORKSPACE", "workspace")
               + Duplicate(g.directory, "DUPLICATE_DIRECTORY", "directory") + BundleAnomalies(s);
    if Built(id, g).anomalies == [] {
      SortedEmpty(all);
    }
    EmptyParts(g.anomalies, Duplicate(g.main, "DUPLICATE_MAIN", "main"), Duplicate(g.egress, "DUPLICATE_EGRESS", "egress"),
               Duplicate(g.workspace, "DUPLICATE_WORKSPACE", "workspace"),
               Duplicate(g.directory, "DUPLICATE_DIRECTORY", "directory"), BundleAnomalies(s));
  }

  /** From the observations to the import: an orphan is imported exactly when it was seen with one main container,
      one workspace and one directory, at most one egress container, nothing damaged and nothing contradictory,
      the container is running, the directory is there, and the lease is recorded in the manifest or, since
      schema 2, on the container. */
  lemma OrphanIsImportedExactly(obs: seq<Observation>, id: string)
    ensures var g := GroupAt(obs, id);
            Planned(None, Some(Built(id, g))).action.Import? <==>
            && g.anomalies == [] && |g.main| == 1 && |g.workspace| == 1 && |g.directory| == 1 && |g.egress| <= 1
            && BundleAnomalies(Snapshot(id, Some(g.main[0]), Only(g.egress), Some(g.workspace[0]), Some(g.directory[0]), [])) == []
            && g.main[0].state == "Running" && g.directory[0].present
            && (g.directory[0].manifest.Some? || (g.main[0].schema == 2 && g.main[0].creationExpiry.Some?))
  {
    NoAnomaliesExactly(id, GroupAt(obs, id));
    ImportIsPlannedExactly(Built(id, GroupAt(obs, id)));
  }

  lemma ImportIsPlannedExactly(a: Snapshot)
    ensures Planned(None, Some(a)).action.Import? <==> ImportBundle(a)
  {
  }

  /** The plan for an orphan, in terms of its snapshot: it is imported if it is whole, clean, running and its lease is
      recorded, and reported otherwise, for its anomalies or for what it lacks. Nothing at all asks for nothing. */
  lemma OrphanPlannedExactly(a: Snapshot)
    ensures var p := Planned(None, Some(a));
            && (p.action == if && a.anomalies == [] && a.main.Some? && a.main.value.state == "Running" && a.workspace.Some?
                               && a.directory.Some? && a.directory.value.present
                               && (a.directory.value.manifest.Some?
                                   || (a.main.value.schema == 2 && a.main.value.creationExpiry.Some?))
                            then Import else RecordAnomaly)
            && (p.action.RecordAnomaly? ==> p.why == if a.anomalies != [] then ActualAnomaly else PartialOrphan)
            && p.id == a.sandboxId && p.runtimeId == if a.main.Some? then a.main.value.id else ""
    ensures Planned(None, None).action.NoOp?
  {
  }

  lemma WakesUnfinished(r: Stored, a: Snapshot)
    requires r.id == a.sandboxId && a.anomalies == [] && !Drifted(r, a) && a.main.Some? && r.runtimeId == a.main.value.id
    requires (r.desired.WantRunning? && r.observed.Creating?) || (r.desired.WantTerminated? && r.observed.Stopping?)
    ensures Planned(Some(r), Some(a)).action.Wake?
  {
  }

  lemma ImportedAgrees(a: Snapshot, now: int)
    requires Aggregated(a) && a.anomalies == [] && a.main.Some? && OrphanExpiry(a).Known?
    ensures !Drifted(Imported(a, now), a)
  {
    Vouched(a);
  }

  /** After the import the same inventory asks for a wake, and for nothing that writes metadata again. */
  lemma ImportConverges(a: Snapshot, now: int)
    requires Aggregated(a) && Planned(None, Some(a)).action.Import? && OrphanExpiry(a).Known?
    ensures Planned(Some(Imported(a, now)), Some(a)).action.Wake?
  {
    assert a.anomalies == [] && a.main.Some? by {
      ImportIsPlannedExactly(a);
    }
    ImportedAgrees(a, now);
    WakesUnfinished(Imported(a, now), a);
  }
}
