/** What a snapshot says about the observations it was made of, anomaly by anomaly
    (internal/reconcile/actual_inventory.go:91-274). */
module Discovery {
  import opened Wrappers
  import opened Inventory
  import Sorting

  // ---------- The contradictions within one bundle ----------

  /** Everything that can contradict itself in a bundle with a main container. */
  predicate MainContradicts(main: Container, s: Snapshot, x: Anomaly) {
    || (x == Anomaly("PROTOCOL_CONFLICT", "main", "") && main.runnerProtocol != 1)
    || (x == Anomaly("NETWORK_PROFILE_INVALID", "main", "") && main.networkMode != "none" && main.networkMode != "container")
    || (x == Anomaly("EGRESS_MISSING", "", "") && main.networkMode == "container" && s.egress.None?)
    || (x == Anomaly("SCHEMA_CONFLICT", "", "")
        && ((s.egress.Some? && s.egress.value.schema != main.schema) || (s.workspace.Some? && s.workspace.value.schema != main.schema)))
    || (x == Anomaly("SPEC_HASH_CONFLICT", "", "") && s.workspace.Some? && s.workspace.value.specHash != main.specHash)
  }

  predicate EgressContradicts(main: Container, e: Container, x: Anomaly) {
    || (x == Anomaly("PROTOCOL_CONFLICT", "egress", "") && e.egressProtocol != 1)
    || (x == Anomaly("POLICY_CONFLICT", "egress", "")
        && (|e.policyHash| != 64 || exists i :: 0 <= i < |e.policyHash| && e.policyHash[i] !in "0123456789abcdef"))
    || (x == Anomaly("EGRESS_UNEXPECTED", "", "") && main.networkMode == "none")
    || (x == Anomaly("NETNS_CONFLICT", "", "") && main.networkMode == "container" && main.peer != e.id)
  }

  predicate ManifestContradicts(main: Container, id: string, m: Manifest, x: Anomaly) {
    || (x == Anomaly("SPEC_HASH_CONFLICT", "", "") && m.specHash != main.specHash)
    || (x == Anomaly("IDENTITY_CONFLICT", "directory", "") && m.sandboxId != id)
  }

  predicate Contradicts(s: Snapshot, x: Anomaly) {
    if s.main.None? then x == Anomaly("ORPHAN_EGRESS", "egress", "") && s.egress.Some?
    else
      || MainContradicts(s.main.value, s, x)
      || (s.egress.Some? && EgressContradicts(s.main.value, s.egress.value, x))
      || (s.directory.Some? && s.directory.value.manifest.Some?
          && ManifestContradicts(s.main.value, s.sandboxId, s.directory.value.manifest.value, x))
  }

  lemma HexExactly(c: char)
    ensures c in "0123456789abcdef" <==> '0' <= c <= '9' || 'a' <= c <= 'f'
  {
  }

  lemma DigestExactly(h: string)
    ensures HexDigest(h) <==> |h| == 64 && forall i :: 0 <= i < |h| ==> h[i] in "0123456789abcdef"
  {
    forall i | 0 <= i < |h|
      ensures h[i] in "0123456789abcdef" <==> '0' <= h[i] <= '9' || 'a' <= h[i] <= 'f'
    {
      HexExactly(h[i]);
    }
  }

  lemma EgressExactly(main: Container, egress: Option<Container>, x: Anomaly)
    ensures x in NetworkAnomalies(main, egress) + (if egress.None? then [] else EgressAnomalies(egress.value)) <==>
            || (x == Anomaly("NETWORK_PROFILE_INVALID", "main", "") && main.networkMode != "none" && main.networkMode != "container")
            || (x == Anomaly("EGRESS_MISSING", "", "") && main.networkMode == "container" && egress.None?)
            || (egress.Some? && EgressContradicts(main, egress.value, x))
  {
    if egress.Some? {
      DigestExactly(egress.value.policyHash);
    }
  }

  /** The validation reports exactly these contradictions. */
  lemma ContradictionsExactly(s: Snapshot, x: Anomaly)
    ensures x in BundleAnomalies(s) <==> Contradicts(s, x)
  {
    if s.main.Some? {
      EgressExactly(s.main.value, s.egress, x);
    }
  }

  // ---------- The members of a group ----------

  /** What `pick` takes of the observations, in their order. */
  function Picked<T>(obs: seq<Observation>, pick: Observation -> Option<T>): seq<T> {
    if obs == [] then []
    else Picked(obs[..|obs|-1], pick) + if pick(obs[|obs|-1]).Some? then [pick(obs[|obs|-1]).value] else []
  }

  function ContainerOf(id: string, role: Role): Observation -> Option<Container> {
    (o: Observation) => if o.OfContainer? && o.container.sandboxId == id && o.container.role == role then Some(o.container) else None
  }

  function VolumeOf(id: string): Observation -> Option<Volume> {
    (o: Observation) => if o.OfVolume? && o.volume.sandboxId == id then Some(o.volume) else None
  }

  function DirectoryOf(id: string): Observation -> Option<Directory> {
    (o: Observation) => if o.OfDirectory? && o.directory.sandboxId == id then Some(o.directory) else None
  }

  /** The group of an ID has exactly the resources that were seen with it, by kind and role. */
  lemma {:induction false} GroupHas(obs: seq<Observation>, id: string)
    requires id != ""
    ensures var g := GroupAt(obs, id);
            && g.main == Picked(obs, ContainerOf(id, MainRole)) && g.egress == Picked(obs, ContainerOf(id, EgressRole))
            && g.workspace == Picked(obs, VolumeOf(id)) && g.directory == Picked(obs, DirectoryOf(id))
  {
    if obs != [] {
      GroupHas(obs[..|obs|-1], id);
    }
  }

  /** A damaged resource, named with its own detail. */
  predicate Damages(x: Anomaly, resource: string, issue: string) {
    issue != "" && x == Anomaly("RESOURCE_DAMAGED", resource, issue)
  }

  /** What an observation by itself is reported for. */
  predicate Complains(o: Observation, x: Anomaly) {
    match o
    case OfContainer(c) =>
      (match c.role
       case MainRole => Damages(x, "main", c.issue)
       case EgressRole => Damages(x, "egress", c.issue)
       case OtherRole(name) =>
         Damages(x, name, c.issue) || x == Anomaly("RESOURCE_DAMAGED", "container", "RESOURCE_ROLE_UNSUPPORTED"))
    case OfVolume(v) => Damages(x, "workspace", v.issue)
    case OfDirectory(d) => Damages(x, "directory", d.issue)
  }

  ghost predicate SomeComplains(obs: seq<Observation>, id: string, x: Anomaly) {
    exists i :: 0 <= i < |obs| && obs[i].SandboxId() == id && Complains(obs[i], x)
  }

  lemma SomeComplainsOneMore(obs: seq<Observation>, o: Observation, id: string, x: Anomaly)
    ensures SomeComplains(obs + [o], id, x) <==> SomeComplains(obs, id, x) || (o.SandboxId() == id && Complains(o, x))
  {
    if SomeComplains(obs, id, x) {
      var i :| 0 <= i < |obs| && obs[i].SandboxId() == id && Complains(obs[i], x);
      assert (obs + [o])[i] == obs[i];
    }
    assert (obs + [o])[|obs|] == o;
  }

  lemma JoinedComplains(g: Group, o: Observation, x: Anomaly)
    requires o.SandboxId() != ""
    ensures x in Joined(g, o).anomalies <==> x in g.anomalies || Complains(o, x)
  {
  }

  lemma {:induction false} GroupComplains(obs: seq<Observation>, id: string, x: Anomaly)
    requires id != ""
    ensures x in GroupAt(obs, id).anomalies <==> SomeComplains(obs, id, x)
  {
    if obs != [] {
      var front, last := obs[..|obs|-1], obs[|obs|-1];
      assert obs == front + [last];
      GroupComplains(front, id, x);
      SomeComplainsOneMore(front, last, id, x);
      if last.SandboxId() == id {
        JoinedComplains(GroupAt(front, id), last, x);
      }
    }
  }

  /** More than one resource of a kind was seen. */
  predicate Repeats(g: Group, x: Anomaly) {
    || (x == Anomaly("DUPLICATE_MAIN", "main", "") && |g.main| > 1)
    || (x == Anomaly("DUPLICATE_EGRESS", "egress", "") && |g.egress| > 1)
    || (x == Anomaly("DUPLICATE_WORKSPACE", "workspace", "") && |g.workspace| > 1)
    || (x == Anomaly("DUPLICATE_DIRECTORY", "directory", "") && |g.directory| > 1)
  }

  lemma InSorted(list: seq<Anomaly>, x: Anomaly)
    ensures x in Sorted(list) <==> x in list
  {
    BeforeIsTotal();
    Sorting.SortedSorts(Before, list);
    assert x in multiset(Sorted(list)) <==> x in multiset(list);
  }

  lemma BuiltReports(id: string, g: Group, x: Anomaly)
    ensures x in Built(id, g).anomalies <==> x in g.anomalies || Repeats(g, x) || Contradicts(Built(id, g), x)
  {
    var s := Snapshot(id, Only(g.main), Only(g.egress), Only(g.workspace), Only(g.directory), []);
    InSorted(g.anomalies + Duplicate(g.main, "DUPLICATE_MAIN", "main") + Duplicate(g.egress, "DUPLICATE_EGRESS", "egress")
             + Duplicate(g.workspace, "DUPLICATE_WORKSPACE", "workspace")
             + Duplicate(g.directory, "DUPLICATE_DIRECTORY", "directory") + BundleAnomalies(s), x);
    ContradictionsExactly(s, x);
    assert Contradicts(Built(id, g), x) == Contradicts(s, x);
  }

  /** From the observations to the snapshot of an ID: a resource is in it if and only if it is the only one of its kind
      that was seen with this ID, and an anomaly is reported if and only if an observation is damaged or of an unknown
      role, a kind was seen twice, or the resources in the snapshot contradict each other. */
  lemma SnapshotTells(obs: seq<Observation>, id: string, x: Anomaly)
    requires id != ""
    ensures var s := Built(id, GroupAt(obs, id));
            var mains, sidecars := Picked(obs, ContainerOf(id, MainRole)), Picked(obs, ContainerOf(id, EgressRole));
            var volumes, directories := Picked(obs, VolumeOf(id)), Picked(obs, DirectoryOf(id));
            && s.sandboxId == id
            && s.main == (if |mains| == 1 then Some(mains[0]) else None)
            && s.egress == (if |sidecars| == 1 then Some(sidecars[0]) else None)
            && s.workspace == (if |volumes| == 1 then Some(volumes[0]) else None)
            && s.directory == (if |directories| == 1 then Some(directories[0]) else None)
            && (x in s.anomalies <==> SomeComplains(obs, id, x) || Repeats(Group(mains, sidecars, volumes, directories, []), x) || Contradicts(s, x))
  {
    GroupHas(obs, id);
    GroupComplains(obs, id, x);
    BuiltReports(id, GroupAt(obs, id), x);
  }

  // ---------- Resources without an ID ----------

  function Kind(o: Observation): string {
    match o
    case OfContainer(c) => (match c.role case MainRole => "main" case EgressRole => "egress" case OtherRole(name) => name)
    case OfVolume(_) => "workspace"
    case OfDirectory(_) => "directory"
  }

  function Issue(o: Observation): string {
    match o
    case OfContainer(c) => c.issue
    case OfVolume(v) => v.issue
    case OfDirectory(d) => d.issue
  }

  function Stray(o: Observation): Option<Anomaly> {
    if o.SandboxId() != "" then None
    else Some(Anomaly("RESOURCE_DAMAGED", Kind(o), if Issue(o) == "" then "LABELS_INVALID" else Issue(o)))
  }

  /** Every observation without an ID is reported once, with its kind and its issue; without one its labels are
      blamed. */
  lemma {:induction false} StraysAreReported(obs: seq<Observation>)
    ensures GroupAt(obs, "").anomalies == Picked(obs, Stray)
  {
    if obs != [] {
      StraysAreReported(obs[..|obs|-1]);
    }
  }
}
