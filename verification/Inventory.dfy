/** The aggregation of container, volume and directory observations into one snapshot per sandbox
    (internal/reconcile/actual_inventory.go:91-274). */
module Inventory {
  import opened Wrappers
  import opened Ordering
  import Sorting

  datatype Role = MainRole | EgressRole | OtherRole(name: string)

  datatype Container = Container(
    sandboxId: string, role: Role, id: string, issue: string, state: string, specHash: string, schema: int,
    runnerProtocol: int, egressProtocol: int, policyHash: string, networkMode: string, peer: string,
    creationExpiry: Option<int>)

  datatype Volume = Volume(sandboxId: string, issue: string, specHash: string, schema: int, name: string)

  datatype Manifest = Manifest(sandboxId: string, specHash: string, expiry: int)

  datatype Directory = Directory(sandboxId: string, issue: string, present: bool, manifest: Option<Manifest>)

  datatype Observation = OfContainer(container: Container) | OfVolume(volume: Volume) | OfDirectory(directory: Directory) {
    function SandboxId(): string {
      match this
      case OfContainer(c) => c.sandboxId
      case OfVolume(v) => v.sandboxId
      case OfDirectory(d) => d.sandboxId
    }
  }

  datatype Anomaly = Anomaly(code: string, resource: string, detail: string)

  const LABELS_INVALID := "LABELS_INVALID"
  const ROLE_UNSUPPORTED := "RESOURCE_ROLE_UNSUPPORTED"
  const RUNNER_PROTOCOL := 1
  const EGRESS_PROTOCOL := 1

  function Damaged(resource: string, detail: string): Anomaly {
    Anomaly("RESOURCE_DAMAGED", resource, if detail == "" then LABELS_INVALID else detail)
  }

  function RoleName(r: Role): string {
    match r
    case MainRole => "main"
    case EgressRole => "egress"
    case OtherRole(name) => name
  }

  // ---------- Order of anomalies ----------

  predicate Before(a: Anomaly, b: Anomaly) {
    if a.code != b.code then Less(a.code, b.code)
    else if a.resource != b.resource then Less(a.resource, b.resource)
    else Less(a.detail, b.detail)
  }

  lemma BeforeAsymmetric(a: Anomaly, b: Anomaly)
    requires Before(a, b)
    ensures !Before(b, a)
  {
    if Before(b, a) {
      if a.code != b.code {
        LessTransitive(a.code, b.code, a.code);
        LessIrreflexive(a.code);
      } else if a.resource != b.resource {
        LessTransitive(a.resource, b.resource, a.resource);
        LessIrreflexive(a.resource);
      } else {
        LessTransitive(a.detail, b.detail, a.detail);
        LessIrreflexive(a.detail);
      }
    }
  }

  lemma BeforeTransitive(a: Anomaly, b: Anomaly, c: Anomaly)
    requires Before(a, b) && Before(b, c)
    ensures Before(a, c)
  {
    if a.code == b.code == c.code {
      if a.resource == b.resource == c.resource {
        LessTransitive(a.detail, b.detail, c.detail);
      } else if a.resource != b.resource && b.resource != c.resource {
        LessTransitive(a.resource, b.resource, c.resource);
        if a.resource == c.resource {
          LessIrreflexive(a.resource);
        }
      }
    } else if a.code != b.code && b.code != c.code {
      LessTransitive(a.code, b.code, c.code);
      if a.code == c.code {
        LessIrreflexive(a.code);
      }
    }
  }

  lemma BeforeIsTotal()
    ensures Sorting.Total(Before)
  {
    forall a, b | Before(a, b)
      ensures !Before(b, a)
    {
      BeforeAsymmetric(a, b);
    }
    forall a, b, c | Before(a, b) && Before(b, c)
      ensures Before(a, c)
    {
      BeforeTransitive(a, b, c);
    }
    forall a, b
      ensures a == b || Before(a, b) || Before(b, a)
    {
      LessTotal(a.code, b.code);
      LessTotal(a.resource, b.resource);
      LessTotal(a.detail, b.detail);
    }
  }

  /** `sortAnomalies`. */
  function Sorted(list: seq<Anomaly>): seq<Anomaly> {
    Sorting.Sorted(Before, list)
  }

  // ---------- Groups and snapshots ----------

  datatype Group = Group(
    main: seq<Container>, egress: seq<Container>, workspace: seq<Volume>, directory: seq<Directory>, anomalies: seq<Anomaly>)

  const NOTHING := Group([], [], [], [], [])

  datatype Snapshot = Snapshot(
    sandboxId: string, main: Option<Container>, egress: Option<Container>, workspace: Option<Volume>,
    directory: Option<Directory>, anomalies: seq<Anomaly>)

  /** What one observation adds to its group. */
  function Added(g: Group, o: Observation): Group {
    match o
    case OfContainer(c) =>
      var a := g.anomalies + if c.issue != "" then [Damaged(RoleName(c.role), c.issue)] else [];
      (match c.role
       case MainRole => g.(main := g.main + [c], anomalies := a)
       case EgressRole => g.(egress := g.egress + [c], anomalies := a)
       case OtherRole(_) => g.(anomalies := a + [Damaged("container", ROLE_UNSUPPORTED)]))
    case OfVolume(v) =>
      g.(workspace := g.workspace + [v],
         anomalies := g.anomalies + if v.issue != "" then [Damaged("workspace", v.issue)] else [])
    case OfDirectory(d) =>
      g.(directory := g.directory + [d],
         anomalies := g.anomalies + if d.issue != "" then [Damaged("directory", d.issue)] else [])
  }

  /** What an observation without an ID leaves. */
  function Unscoped(o: Observation): Anomaly {
    match o
    case OfContainer(c) => Damaged(RoleName(c.role), c.issue)
    case OfVolume(v) => Damaged("workspace", v.issue)
    case OfDirectory(d) => Damaged("directory", d.issue)
  }

  function Only<T>(list: seq<T>): Option<T> {
    if |list| == 1 then Some(list[0]) else None
  }

  function Duplicate<T>(list: seq<T>, code: string, resource: string): seq<Anomaly> {
    if |list| > 1 then [Anomaly(code, resource, "")] else []
  }

  predicate HexDigest(s: string) {
    |s| == 64 && forall i :: 0 <= i < |s| ==> '0' <= s[i] <= '9' || 'a' <= s[i] <= 'f'
  }

  function When(b: bool, code: string, resource: string): seq<Anomaly> {
    if b then [Anomaly(code, resource, "")] else []
  }

  function EgressAnomalies(e: Container): seq<Anomaly> {
    When(e.egressProtocol != EGRESS_PROTOCOL, "PROTOCOL_CONFLICT", "egress")
    + When(!HexDigest(e.policyHash), "POLICY_CONFLICT", "egress")
  }

  function NetworkAnomalies(main: Container, egress: Option<Container>): seq<Anomaly> {
    if main.networkMode == "none" then When(egress.Some?, "EGRESS_UNEXPECTED", "")
    else if main.networkMode == "container" then
      if egress.None? then [Anomaly("EGRESS_MISSING", "", "")] else When(main.peer != egress.value.id, "NETNS_CONFLICT", "")
    else [Anomaly("NETWORK_PROFILE_INVALID", "main", "")]
  }

  function ManifestAnomalies(main: Container, id: string, m: Manifest): seq<Anomaly> {
    When(main.specHash != m.specHash, "SPEC_HASH_CONFLICT", "") + When(m.sandboxId != id, "IDENTITY_CONFLICT", "directory")
  }

  /** `validateActualBundle`: the contradictions within one bundle. */
  function BundleAnomalies(s: Snapshot): seq<Anomaly> {
    if s.main.None? then When(s.egress.Some?, "ORPHAN_EGRESS", "egress")
    else
      var main := s.main.value;
      When(main.runnerProtocol != RUNNER_PROTOCOL, "PROTOCOL_CONFLICT", "main")
      + (if s.egress.None? then [] else EgressAnomalies(s.egress.value))
      + NetworkAnomalies(main, s.egress)
      + When(s.workspace.Some? && main.specHash != s.workspace.value.specHash, "SPEC_HASH_CONFLICT", "")
      + (if s.directory.None? || s.directory.value.manifest.None? then []
         else ManifestAnomalies(main, s.sandboxId, s.directory.value.manifest.value))
      + When((s.egress.Some? && main.schema != s.egress.value.schema)
             || (s.workspace.Some? && main.schema != s.workspace.value.schema), "SCHEMA_CONFLICT", "")
  }

  lemma EmptyParts(a: seq<Anomaly>, b: seq<Anomaly>, c: seq<Anomaly>, d: seq<Anomaly>, e: seq<Anomaly>, f: seq<Anomaly>)
    ensures a + b + c + d + e + f == [] <==> a == [] && b == [] && c == [] && d == [] && e == [] && f == []
  {
    assert |a + b + c + d + e + f| == |a| + |b| + |c| + |d| + |e| + |f|;
  }

  /** A bundle without contradictions agrees on its spec and its ID. */
  lemma CleanBundleAgrees(s: Snapshot)
    requires s.main.Some? && BundleAnomalies(s) == []
    ensures s.workspace.Some? ==> s.workspace.value.specHash == s.main.value.specHash
    ensures s.directory.Some? && s.directory.value.manifest.Some? ==>
              s.directory.value.manifest.value.specHash == s.main.value.specHash
              && s.directory.value.manifest.value.sandboxId == s.sandboxId
  {
    var main := s.main.value;
    var workspace := When(s.workspace.Some? && main.specHash != s.workspace.value.specHash, "SPEC_HASH_CONFLICT", "");
    var manifest := if s.directory.None? || s.directory.value.manifest.None? then []
                    else ManifestAnomalies(main, s.sandboxId, s.directory.value.manifest.value);
    EmptyParts(When(main.runnerProtocol != RUNNER_PROTOCOL, "PROTOCOL_CONFLICT", "main"),
               if s.egress.None? then [] else EgressAnomalies(s.egress.value),
               NetworkAnomalies(main, s.egress), workspace, manifest,
               When((s.egress.Some? && main.schema != s.egress.value.schema)
                    || (s.workspace.Some? && main.schema != s.workspace.value.schema), "SCHEMA_CONFLICT", ""));
  }

  /** `buildActualSnapshot`. */
  function Built(id: string, g: Group): Snapshot {
    var s := Snapshot(id, Only(g.main), Only(g.egress), Only(g.workspace), Only(g.directory), []);
    var all := g.anomalies + Duplicate(g.main, "DUPLICATE_MAIN", "main") + Duplicate(g.egress, "DUPLICATE_EGRESS", "egress")
               + Duplicate(g.workspace, "DUPLICATE_WORKSPACE", "workspace")
               + Duplicate(g.directory, "DUPLICATE_DIRECTORY", "directory") + BundleAnomalies(s);
    s.(anomalies := Sorted(all))
  }

  // ---------- Order independence of one group ----------

  /** Groups with the same members, in any order. */
  predicate Alike(a: Group, b: Group) {
    && multiset(a.main) == multiset(b.main) && multiset(a.egress) == multiset(b.egress)
    && multiset(a.workspace) == multiset(b.workspace) && multiset(a.directory) == multiset(b.directory)
    && multiset(a.anomalies) == multiset(b.anomalies)
  }

  lemma SameOnly<T>(a: seq<T>, b: seq<T>)
    requires multiset(a) == multiset(b)
    ensures |a| == |b| && Only(a) == Only(b)
  {
    assert |a| == |multiset(a)| == |multiset(b)| == |b|;
    if |a| == 1 {
      assert a[0] in multiset(b);
    }
  }

  lemma AlikeBuilt(id: string, a: Group, b: Group)
    requires Alike(a, b)
    ensures Built(id, a) == Built(id, b)
  {
    SameOnly(a.main, b.main);
    SameOnly(a.egress, b.egress);
    SameOnly(a.workspace, b.workspace);
    SameOnly(a.directory, b.directory);
    var tail := Duplicate(a.main, "DUPLICATE_MAIN", "main") + Duplicate(a.egress, "DUPLICATE_EGRESS", "egress")
                + Duplicate(a.workspace, "DUPLICATE_WORKSPACE", "workspace")
                + Duplicate(a.directory, "DUPLICATE_DIRECTORY", "directory")
                + BundleAnomalies(Snapshot(id, Only(a.main), Only(a.egress), Only(a.workspace), Only(a.directory), []));
    SameSorted(a.anomalies, b.anomalies, tail);
    Regroup(id, a, tail);
    Regroup(id, b, tail);
  }

  lemma Regroup(id: string, g: Group, tail: seq<Anomaly>)
    requires tail == Duplicate(g.main, "DUPLICATE_MAIN", "main") + Duplicate(g.egress, "DUPLICATE_EGRESS", "egress")
                     + Duplicate(g.workspace, "DUPLICATE_WORKSPACE", "workspace")
                     + Duplicate(g.directory, "DUPLICATE_DIRECTORY", "directory")
                     + BundleAnomalies(Snapshot(id, Only(g.main), Only(g.egress), Only(g.workspace), Only(g.directory), []))
    ensures Built(id, g).anomalies == Sorted(g.anomalies + tail)
  {
    var a, b, c, d := Duplicate(g.main, "DUPLICATE_MAIN", "main"), Duplicate(g.egress, "DUPLICATE_EGRESS", "egress"),
                      Duplicate(g.workspace, "DUPLICATE_WORKSPACE", "workspace"),
                      Duplicate(g.directory, "DUPLICATE_DIRECTORY", "directory");
    var e := BundleAnomalies(Snapshot(id, Only(g.main), Only(g.egress), Only(g.workspace), Only(g.directory), []));
    Reassociate(g.anomalies, a, b, c, d, e);
  }

  lemma Reassociate(g: seq<Anomaly>, a: seq<Anomaly>, b: seq<Anomaly>, c: seq<Anomaly>, d: seq<Anomaly>, e: seq<Anomaly>)
    ensures g + a + b + c + d + e == g + (a + b + c + d + e)
  {
  }

  lemma SameSorted(a: seq<Anomaly>, b: seq<Anomaly>, tail: seq<Anomaly>)
    requires multiset(a) == multiset(b)
    ensures Sorted(a + tail) == Sorted(b + tail)
  {
    BeforeIsTotal();
    Sorting.SortedSorts(Before, a + tail);
    Sorting.SortedSorts(Before, b + tail);
    assert multiset(a + tail) == multiset(a) + multiset(tail);
    Sorting.SortIsUnique(Before, Sorted(a + tail), Sorted(b + tail));
  }

  // ---------- Order independence of the whole ----------

  /** One observation joins the group of its ID; the group of the empty ID collects the unscoped anomalies. */
  function Joined(g: Group, o: Observation): Group {
    if o.SandboxId() == "" then g.(anomalies := g.anomalies + [Unscoped(o)]) else Added(g, o)
  }

  /** The group of an ID after a list of observations. */
  function GroupAt(obs: seq<Observation>, id: string): Group {
    if obs == [] then NOTHING
    else
      var g, last := GroupAt(obs[..|obs|-1], id), obs[|obs|-1];
      if last.SandboxId() == id then Joined(g, last) else g
  }

  function Step(g: Group, id: string, o: Observation): Group {
    if o.SandboxId() == id then Joined(g, o) else g
  }

  lemma GroupAtAppend(obs: seq<Observation>, o: Observation, id: string)
    ensures GroupAt(obs + [o], id) == Step(GroupAt(obs, id), id, o)
  {
    assert (obs + [o])[..|obs|] == obs;
  }

  lemma JoinedAlike(a: Group, b: Group, o: Observation)
    requires Alike(a, b)
    ensures Alike(Joined(a, o), Joined(b, o))
  {
  }

  function Plus(a: Group, b: Group): Group {
    Group(a.main + b.main, a.egress + b.egress, a.workspace + b.workspace, a.directory + b.directory, a.anomalies + b.anomalies)
  }

  /** Joining appends what the observation alone would make. */
  lemma JoinedIsPlus(g: Group, o: Observation)
    ensures Joined(g, o) == Plus(g, Joined(NOTHING, o))
  {
  }

  lemma PlusCommutes(g: Group, x: Group, y: Group)
    ensures Alike(Plus(Plus(g, x), y), Plus(Plus(g, y), x))
  {
  }

  lemma JoinedCommutes(g: Group, x: Observation, y: Observation)
    ensures Alike(Joined(Joined(g, x), y), Joined(Joined(g, y), x))
  {
    JoinedIsPlus(g, x);
    JoinedIsPlus(g, y);
    JoinedIsPlus(Joined(g, x), y);
    JoinedIsPlus(Joined(g, y), x);
    PlusCommutes(g, Joined(NOTHING, x), Joined(NOTHING, y));
  }

  lemma StepAlike(a: Group, b: Group, id: string, o: Observation)
    requires Alike(a, b)
    ensures Alike(Step(a, id, o), Step(b, id, o))
  {
    JoinedAlike(a, b, o);
  }

  lemma StepCommutes(g: Group, id: string, x: Observation, y: Observation)
    ensures Alike(Step(Step(g, id, x), id, y), Step(Step(g, id, y), id, x))
  {
    JoinedCommutes(g, x, y);
  }

  /** An observation may as well come last. */
  lemma {:induction false} MovedLast(a: seq<Observation>, x: Observation, b: seq<Observation>, id: string)
    ensures Alike(GroupAt(a + [x] + b, id), GroupAt(a + b + [x], id))
    decreases |b|
  {
    if b == [] {
      assert a + [x] + b == a + b + [x];
    } else {
      var front, y := b[..|b|-1], b[|b|-1];
      MovedLast(a, x, front, id);
      assert a + [x] + b == (a + [x] + front) + [y] && a + b == (a + front) + [y];
      GroupAtAppend(a + [x] + front, y, id);
      GroupAtAppend(a + front, x, id);
      GroupAtAppend(a + front, y, id);
      GroupAtAppend(a + b, x, id);
      StepAlike(GroupAt(a + [x] + front, id), GroupAt(a + front + [x], id), id, y);
      StepCommutes(GroupAt(a + front, id), id, x, y);
    }
  }

  /** The same observations in any order give the same groups up to order. */
  lemma {:induction false} PermutedAlike(a: seq<Observation>, b: seq<Observation>, id: string)
    requires multiset(a) == multiset(b)
    ensures Alike(GroupAt(a, id), GroupAt(b, id))
    decreases |a|
  {
    if a == [] {
      assert |multiset(b)| == 0;
    } else {
      var front, x := a[..|a|-1], a[|a|-1];
      assert a == front + [x];
      assert x in multiset(b);
      var k :| 0 <= k < |b| && b[k] == x;
      var rest := b[..k] + b[k+1..];
      assert b == b[..k] + [x] + b[k+1..];
      WithoutOne(front, rest, x, a, b);
      PermutedAlike(front, rest, id);
      MovedLast(b[..k], x, b[k+1..], id);
      GroupAtAppend(front, x, id);
      GroupAtAppend(rest, x, id);
      StepAlike(GroupAt(front, id), GroupAt(rest, id), id, x);
    }
  }

  lemma WithoutOne(front: seq<Observation>, rest: seq<Observation>, x: Observation, a: seq<Observation>, b: seq<Observation>)
    requires multiset(a) == multiset(b) && multiset(a) == multiset(front) + multiset{x} && multiset(b) == multiset(rest) + multiset{x}
    ensures multiset(front) == multiset(rest)
  {
    assert multiset(front) == multiset(a) - multiset{x};
    assert multiset(rest) == multiset(b) - multiset{x};
  }

  function Ids(obs: seq<Observation>): set<string> {
    set o | o in obs && o.SandboxId() != "" :: o.SandboxId()
  }

  predicate IdsAscend(sandboxes: seq<Snapshot>) {
    forall i, j :: 0 <= i < j < |sandboxes| ==> Less(sandboxes[i].sandboxId, sandboxes[j].sandboxId)
  }

  datatype Inventory = Inventory(sandboxes: seq<Snapshot>, unscoped: seq<Anomaly>)

  /** What an inventory of a list of observations has to be. */
  ghost predicate IsInventoryOf(obs: seq<Observation>, inv: Inventory) {
    && IdsAscend(inv.sandboxes)
    && (forall id :: id in Ids(obs) <==> exists i :: 0 <= i < |inv.sandboxes| && inv.sandboxes[i].sandboxId == id)
    && (forall i :: 0 <= i < |inv.sandboxes| ==>
          inv.sandboxes[i] == Built(inv.sandboxes[i].sandboxId, GroupAt(obs, inv.sandboxes[i].sandboxId)))
    && inv.unscoped == Sorted(GroupAt(obs, "").anomalies)
  }

  lemma SameIds(a: seq<Observation>, b: seq<Observation>)
    requires multiset(a) == multiset(b)
    ensures Ids(a) == Ids(b)
  {
    forall o
      ensures o in a <==> o in b
    {
      assert o in multiset(a) <==> o in multiset(b);
    }
  }

  /** Ascending snapshot lists with the same IDs, built from groups that are alike, are the same list. */
  lemma {:induction false} SameSandboxes(a: seq<Snapshot>, b: seq<Snapshot>)
    requires IdsAscend(a) && IdsAscend(b)
    requires forall id :: HasId(a, id) <==> HasId(b, id)
    requires forall i, j :: 0 <= i < |a| && 0 <= j < |b| && a[i].sandboxId == b[j].sandboxId ==> a[i] == b[j]
    ensures a == b
    decreases |a|
  {
    if a == [] {
      if b != [] {
        HasLast(b);
      }
    } else {
      HasLast(a);
      LastAgree(a, b);
      var a', b' := a[..|a|-1], b[..|b|-1];
      forall id
        ensures HasId(a', id) <==> HasId(b', id)
      {
        HasInFront(a, id);
        HasInFront(b, id);
      }
      SameSandboxes(a', b');
      assert a == a' + [a[|a|-1]] && b == b' + [b[|b|-1]];
    }
  }

  predicate HasId(list: seq<Snapshot>, id: string) {
    exists i :: 0 <= i < |list| && list[i].sandboxId == id
  }

  lemma HasLast(list: seq<Snapshot>)
    requires list != []
    ensures HasId(list, list[|list|-1].sandboxId)
  {
  }

  lemma LastAgree(a: seq<Snapshot>, b: seq<Snapshot>)
    requires IdsAscend(a) && IdsAscend(b) && a != []
    requires forall id :: HasId(a, id) <==> HasId(b, id)
    requires forall i, j :: 0 <= i < |a| && 0 <= j < |b| && a[i].sandboxId == b[j].sandboxId ==> a[i] == b[j]
    ensures b != [] && a[|a|-1] == b[|b|-1]
  {
    HasLast(a);
    var j :| 0 <= j < |b| && b[j].sandboxId == a[|a|-1].sandboxId;
    if j < |b| - 1 {
      HasLast(b);
      var i :| 0 <= i < |a| && a[i].sandboxId == b[|b|-1].sandboxId;
      assert Less(b[j].sandboxId, b[|b|-1].sandboxId);
      LessIrreflexive(a[|a|-1].sandboxId);
      if i < |a| - 1 {
        LessTransitive(a[i].sandboxId, a[|a|-1].sandboxId, a[i].sandboxId);
        LessIrreflexive(a[i].sandboxId);
      }
    }
  }

  lemma HasInFront(list: seq<Snapshot>, id: string)
    requires IdsAscend(list) && list != []
    ensures HasId(list[..|list|-1], id) <==> HasId(list, id) && id != list[|list|-1].sandboxId
  {
    var front, last := list[..|list|-1], list[|list|-1];
    if i :| 0 <= i < |front| && front[i].sandboxId == id {
      assert list[i].sandboxId == id;
      LessIrreflexive(id);
    }
    if id != last.sandboxId {
      if i :| 0 <= i < |list| && list[i].sandboxId == id {
        assert front[i].sandboxId == id;
      }
    }
  }

  /** The inventory is the same for every order in which the observations are enumerated. */
  lemma InventoryIsDeterministic(a: seq<Observation>, b: seq<Observation>, x: Inventory, y: Inventory)
    requires multiset(a) == multiset(b) && IsInventoryOf(a, x) && IsInventoryOf(b, y)
    ensures x == y
  {
    SameIds(a, b);
    forall i, j | 0 <= i < |x.sandboxes| && 0 <= j < |y.sandboxes| && x.sandboxes[i].sandboxId == y.sandboxes[j].sandboxId
      ensures x.sandboxes[i] == y.sandboxes[j]
    {
      var id := x.sandboxes[i].sandboxId;
      PermutedAlike(a, b, id);
      AlikeBuilt(id, GroupAt(a, id), GroupAt(b, id));
    }
    forall id
      ensures HasId(x.sandboxes, id) <==> HasId(y.sandboxes, id)
    {
      assert HasId(x.sandboxes, id) <==> id in Ids(a);
      assert HasId(y.sandboxes, id) <==> id in Ids(b);
    }
    SameSandboxes(x.sandboxes, y.sandboxes);
    PermutedAlike(a, b, "");
    SameSorted(GroupAt(a, "").anomalies, GroupAt(b, "").anomalies, []);
    assert GroupAt(a, "").anomalies + [] == GroupAt(a, "").anomalies;
    assert GroupAt(b, "").anomalies + [] == GroupAt(b, "").anomalies;
  }

  // ---------- The aggregation ----------

  function OfContainers(list: seq<Container>): seq<Observation> {
    seq(|list|, i requires 0 <= i < |list| => OfContainer(list[i]))
  }

  function OfVolumes(list: seq<Volume>): seq<Observation> {
    seq(|list|, i requires 0 <= i < |list| => OfVolume(list[i]))
  }

  function OfDirectories(list: seq<Directory>): seq<Observation> {
    seq(|list|, i requires 0 <= i < |list| => OfDirectory(list[i]))
  }

  function Observations(containers: seq<Container>, volumes: seq<Volume>, directories: seq<Directory>): seq<Observation> {
    OfContainers(containers) + OfVolumes(volumes) + OfDirectories(directories)
  }

  /** The loop variables after some observations. */
  ghost predicate Tracks(groups: map<string, Group>, unscoped: seq<Anomaly>, obs: seq<Observation>) {
    && groups.Keys == Ids(obs)
    && (forall id :: id in groups ==> groups[id] == GroupAt(obs, id))
    && unscoped == GroupAt(obs, "").anomalies
  }

  lemma {:induction false} NoGroupYet(obs: seq<Observation>, id: string)
    requires id !in Ids(obs) && id != ""
    ensures GroupAt(obs, id) == NOTHING
  {
    if obs != [] {
      assert obs[|obs|-1] in obs;
      var front := obs[..|obs|-1];
      forall o | o in front
        ensures o in obs
      {
      }
      NoGroupYet(front, id);
    }
  }

  lemma IdsAppend(obs: seq<Observation>, o: Observation)
    ensures Ids(obs + [o]) == Ids(obs) + if o.SandboxId() == "" then {} else {o.SandboxId()}
  {
    assert (obs + [o])[|obs|] == o;
    forall x | x in obs
      ensures x in obs + [o]
    {
    }
  }

  /** The body of the three loops. */
  method Absorb(groups: map<string, Group>, unscoped: seq<Anomaly>, o: Observation, ghost obs: seq<Observation>)
    returns (groups': map<string, Group>, unscoped': seq<Anomaly>)
    requires Tracks(groups, unscoped, obs)
    ensures Tracks(groups', unscoped', obs + [o])
  {
    var id := o.SandboxId();
    IdsAppend(obs, o);
    forall x
      ensures GroupAt(obs + [o], x) == Step(GroupAt(obs, x), x, o)
    {
      GroupAtAppend(obs, o, x);
    }
    if id == "" {
      return groups, unscoped + [Unscoped(o)];
    }
    if id !in groups {
      NoGroupYet(obs, id);
    }
    var group := if id in groups then groups[id] else NOTHING;
    return groups[id := Added(group, o)], unscoped;
  }

  /** One snapshot for each ID. */
  method SnapshotsOf(groups: map<string, Group>, ids: seq<string>) returns (sandboxes: seq<Snapshot>)
    requires forall id :: id in ids ==> id in groups
    ensures |sandboxes| == |ids| && forall j :: 0 <= j < |ids| ==> sandboxes[j] == Built(ids[j], groups[ids[j]])
  {
    sandboxes := [];
    for i := 0 to |ids|
      invariant |sandboxes| == i
      invariant forall j :: 0 <= j < i ==> sandboxes[j] == Built(ids[j], groups[ids[j]])
    {
      sandboxes := sandboxes + [Built(ids[i], groups[ids[i]])];
    }
  }

  lemma BuiltId(id: string, g: Group)
    ensures Built(id, g).sandboxId == id
  {
  }

  /** Snapshots of all groups in the order of their IDs are the inventory's. */
  lemma SnapshotsListed(obs: seq<Observation>, groups: map<string, Group>, unscoped: seq<Anomaly>, ids: seq<string>, sandboxes: seq<Snapshot>)
    requires Tracks(groups, unscoped, obs)
    requires StringsAscend(ids) && (forall id :: id in ids <==> id in groups)
    requires |sandboxes| == |ids| && forall j :: 0 <= j < |ids| ==> sandboxes[j] == Built(ids[j], groups[ids[j]])
    ensures IsInventoryOf(obs, Inventory(sandboxes, Sorted(unscoped)))
  {
    forall j | 0 <= j < |ids|
      ensures sandboxes[j].sandboxId == ids[j]
    {
      BuiltId(ids[j], groups[ids[j]]);
    }
    forall id | id in Ids(obs)
      ensures HasId(sandboxes, id)
    {
      var j :| 0 <= j < |ids| && ids[j] == id;
      assert sandboxes[j].sandboxId == id;
    }
  }

  predicate StringsAscend(ids: seq<string>) {
    Sorting.StrictlyAscending(Less, ids)
  }

  method SortedIds(keys: set<string>) returns (ids: seq<string>)
    ensures StringsAscend(ids) && forall id :: id in ids <==> id in keys
  {
    LessIsTotal();
    ids := [];
    var left := keys;
    while left != {}
      invariant left <= keys && StringsAscend(ids) && forall id :: id in ids <==> id in keys && id !in left
      decreases |left|
    {
      var id :| id in left;
      left := left - {id};
      Sorting.InsertedStrict(Less, ids, id);
      forall x
        ensures x in Sorting.Inserted(Less, ids, id) <==> x in ids || x == id
      {
        Sorting.InsertedElements(Less, ids, id, x);
      }
      ids := Sorting.Inserted(Less, ids, id);
    }
  }

  method AbsorbContainers(groups: map<string, Group>, unscoped: seq<Anomaly>, list: seq<Container>, ghost obs: seq<Observation>)
    returns (groups': map<string, Group>, unscoped': seq<Anomaly>)
    requires Tracks(groups, unscoped, obs)
    ensures Tracks(groups', unscoped', obs + OfContainers(list))
  {
    ghost var all := OfContainers(list);
    groups', unscoped' := groups, unscoped;
    assert obs + all[..0] == obs;
    for i := 0 to |list|
      invariant Tracks(groups', unscoped', obs + all[..i])
    {
      ghost var seen := obs + all[..i];
      assert obs + all[..i+1] == seen + [OfContainer(list[i])];
      groups', unscoped' := Absorb(groups', unscoped', OfContainer(list[i]), seen);
    }
    assert all[..|list|] == all;
  }

  method AbsorbVolumes(groups: map<string, Group>, unscoped: seq<Anomaly>, list: seq<Volume>, ghost obs: seq<Observation>)
    returns (groups': map<string, Group>, unscoped': seq<Anomaly>)
    requires Tracks(groups, unscoped, obs)
    ensures Tracks(groups', unscoped', obs + OfVolumes(list))
  {
    ghost var all := OfVolumes(list);
    groups', unscoped' := groups, unscoped;
    assert obs + all[..0] == obs;
    for i := 0 to |list|
      invariant Tracks(groups', unscoped', obs + all[..i])
    {
      ghost var seen := obs + all[..i];
      assert obs + all[..i+1] == seen + [OfVolume(list[i])];
      groups', unscoped' := Absorb(groups', unscoped', OfVolume(list[i]), seen);
    }
    assert all[..|list|] == all;
  }

  method AbsorbDirectories(groups: map<string, Group>, unscoped: seq<Anomaly>, list: seq<Directory>, ghost obs: seq<Observation>)
    returns (groups': map<string, Group>, unscoped': seq<Anomaly>)
    requires Tracks(groups, unscoped, obs)
    ensures Tracks(groups', unscoped', obs + OfDirectories(list))
  {
    ghost var all := OfDirectories(list);
    groups', unscoped' := groups, unscoped;
    assert obs + all[..0] == obs;
    for i := 0 to |list|
      invariant Tracks(groups', unscoped', obs + all[..i])
    {
      ghost var seen := obs + all[..i];
      assert obs + all[..i+1] == seen + [OfDirectory(list[i])];
      groups', unscoped' := Absorb(groups', unscoped', OfDirectory(list[i]), seen);
    }
    assert all[..|list|] == all;
  }

  method AggregateActualResources(containers: seq<Container>, volumes: seq<Volume>, directories: seq<Directory>)
    returns (inventory: Inventory)
    ensures IsInventoryOf(Observations(containers, volumes, directories), inventory)
  {
    ghost var first, second := OfContainers(containers), OfContainers(containers) + OfVolumes(volumes);
    var groups: map<string, Group>, unscoped := map[], [];
    groups, unscoped := AbsorbContainers(groups, unscoped, containers, []);
    assert [] + first == first;
    groups, unscoped := AbsorbVolumes(groups, unscoped, volumes, first);
    groups, unscoped := AbsorbDirectories(groups, unscoped, directories, second);
    var ids := SortedIds(groups.Keys);
    var sandboxes := SnapshotsOf(groups, ids);
    SnapshotsListed(Observations(containers, volumes, directories), groups, unscoped, ids, sandboxes);
    inventory := Inventory(sandboxes, Sorted(unscoped));
  }
}
