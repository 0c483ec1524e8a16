/** The canonical egress deny set: parsing, masking, collapsing and verifying CIDR prefixes
    (internal/egresspolicy/policy.go). Text forms of addresses are parsed already; the policy hash is a
    parameter. */
module EgressPolicy {
  import opened Wrappers
  import Sorting

  /** `netip.Addr` without a zone. */
  datatype Address = Address(v6: bool, value: nat)

  /** `netip.Prefix`; `bits` never exceeds the width of the family. */
  datatype Prefix = Prefix(addr: Address, bits: nat) {
    function HostBits(): nat {
      if bits > Width(addr) then 0 else Width(addr) - bits
    }
  }

  function Width(a: Address): nat {
    if a.v6 then 128 else 32
  }

  predicate Is4In6(a: Address) {
    a.v6 && Shifted(a.value, 32) == 0xffff
  }

  /** x >> k. */
  function Shifted(x: nat, k: nat): nat
    decreases k
  {
    if k == 0 then x else Shifted(x / 2, k - 1)
  }

  /** x << k. */
  function Unshifted(x: nat, k: nat): nat
    decreases k
  {
    if k == 0 then x else 2 * Unshifted(x, k - 1)
  }

  /** `Prefix.Contains`: the network bits agree. */
  predicate Contains(p: Prefix, a: Address) {
    p.addr.v6 == a.v6 && Shifted(p.addr.value, p.HostBits()) == Shifted(a.value, p.HostBits())
  }

  /** `Prefix.Masked`. */
  function Masked(p: Prefix): Prefix {
    p.(addr := Address(p.addr.v6, Unshifted(Shifted(p.addr.value, p.HostBits()), p.HostBits())))
  }

  predicate IsMasked(p: Prefix) {
    p == Masked(p)
  }

  /** The test of the inner loop of `collapse`. */
  predicate Covers(p: Prefix, q: Prefix) {
    p.bits <= q.bits && Contains(p, q.addr)
  }

  /** The addresses a list of prefixes denies. */
  ghost predicate Denies(ps: seq<Prefix>, a: Address) {
    exists i :: 0 <= i < |ps| && Contains(ps[i], a)
  }

  // ---------- Nested or disjoint ----------

  lemma {:induction false} ShiftedTwice(x: nat, j: nat, k: nat)
    ensures Shifted(x, j + k) == Shifted(Shifted(x, j), k)
    decreases j
  {
    if j > 0 {
      ShiftedTwice(x / 2, j - 1, k);
    }
  }

  lemma {:induction false} RoundedDown(x: nat, k: nat)
    ensures Unshifted(Shifted(x, k), k) <= x
    ensures Shifted(Unshifted(x, k), k) == x
    decreases k
  {
    if k > 0 {
      RoundedDown(x / 2, k - 1);
      RoundedDown(x, k - 1);
    }
  }

  /** Two prefixes are nested or disjoint, and one look at the base address of the longer one tells
      which. */
  lemma NestedOrDisjoint(p: Prefix, q: Prefix, a: Address)
    requires p.bits <= q.bits && Contains(q, a)
    ensures Contains(p, a) <==> Covers(p, q)
  {
    if p.addr.v6 == q.addr.v6 {
      var k := p.HostBits() - q.HostBits();
      ShiftedTwice(a.value, q.HostBits(), k);
      ShiftedTwice(q.addr.value, q.HostBits(), k);
    }
  }

  lemma CoversTransitive(p: Prefix, q: Prefix, r: Prefix)
    requires Covers(p, q) && Covers(q, r)
    ensures Covers(p, r)
  {
    NestedOrDisjoint(p, q, r.addr);
  }

  /** Masking changes the representative, not the addresses. */
  lemma MaskedSame(p: Prefix, a: Address)
    ensures Contains(Masked(p), a) == Contains(p, a) && IsMasked(Masked(p))
  {
    RoundedDown(Shifted(p.addr.value, p.HostBits()), p.HostBits());
  }

  // ---------- Order ----------

  /** The comparison `collapse` sorts with: address first, then prefix length. */
  predicate Before(p: Prefix, q: Prefix) {
    if p.addr == q.addr then p.bits < q.bits
    else if p.addr.v6 != q.addr.v6 then q.addr.v6
    else p.addr.value < q.addr.value
  }

  lemma BeforeIsTotal()
    ensures Sorting.Total(Before)
  {
  }

  predicate Ascending(ps: seq<Prefix>) {
    Sorting.Ascending(Before, ps)
  }

  predicate StrictlyAscending(ps: seq<Prefix>) {
    Sorting.StrictlyAscending(Before, ps)
  }

  /** What `sort.Slice` leaves behind: `Sorting.SortIsUnique` shows that the algorithm does not matter. */
  function Sorted(ps: seq<Prefix>): seq<Prefix> {
    Sorting.Sorted(Before, ps)
  }

  lemma SortedSorts(ps: seq<Prefix>)
    ensures Ascending(Sorted(ps)) && forall p :: p in Sorted(ps) <==> p in ps
  {
    BeforeIsTotal();
    Sorting.SortedSorts(Before, ps);
    forall p
      ensures p in Sorted(ps) <==> p in ps
    {
      Sorting.SortedElements(Before, ps, p);
    }
  }

  // ---------- collapse ----------

  predicate Covered(kept: seq<Prefix>, p: Prefix) {
    exists i :: 0 <= i < |kept| && Covers(kept[i], p)
  }

  function Kept(ps: seq<Prefix>): seq<Prefix> {
    if ps == [] then []
    else
      var kept, last := Kept(ps[..|ps|-1]), ps[|ps|-1];
      if Covered(kept, last) then kept else kept + [last]
  }

  function Collapsed(ps: seq<Prefix>): seq<Prefix> {
    Kept(Sorted(ps))
  }

  method Collapse(values: seq<Prefix>) returns (result: seq<Prefix>)
    ensures result == Collapsed(values)
  {
    var sorted := Sorted(values);
    result := [];
    for i := 0 to |sorted|
      invariant result == Kept(sorted[..i])
    {
      var covered := false;
      for j := 0 to |result|
        invariant covered == Covered(result[..j], sorted[i])
      {
        if Covers(result[j], sorted[i]) {
          covered := true;
          assert Covered(result, sorted[i]);
          break;
        }
      }
      assert sorted[..i+1][..i] == sorted[..i];
      if !covered {
        result := result + [sorted[i]];
      }
    }
    assert sorted[..|sorted|] == sorted;
  }

  predicate AllMasked(ps: seq<Prefix>) {
    forall p :: p in ps ==> IsMasked(p)
  }

  /** No other prefix of the list covers it. */
  ghost predicate Maximal(p: Prefix, ps: seq<Prefix>) {
    p in ps && forall q :: q in ps && Covers(q, p) ==> q == p
  }

  /** A masked prefix that covers another is not after it, and two that cover each other are one. */
  lemma CoveringIsBefore(p: Prefix, q: Prefix)
    requires IsMasked(p) && IsMasked(q) && Covers(p, q)
    ensures !Before(q, p)
    ensures p.addr == q.addr && p.bits == q.bits ==> p == q
  {
    RoundedDown(q.addr.value, p.HostBits());
  }

  lemma CoveringAndAfter(p: Prefix, q: Prefix)
    requires IsMasked(p) && IsMasked(q) && Covers(p, q) && !Before(p, q)
    ensures p == q
  {
    CoveringIsBefore(p, q);
  }

  /** Every prefix is covered by one that is kept. */
  lemma {:induction false} KeptCovers(ps: seq<Prefix>, p: Prefix)
    requires p in ps
    ensures Covered(Kept(ps), p)
  {
    var n := |ps| - 1;
    var kept := Kept(ps[..n]);
    if p == ps[n] {
      if !Covered(kept, p) {
        assert Kept(ps)[|kept|] == p && Covers(p, p);
      }
    } else {
      assert p in ps[..n];
      KeptCovers(ps[..n], p);
      var i :| 0 <= i < |kept| && Covers(kept[i], p);
      assert Kept(ps)[i] == kept[i];
    }
  }

  lemma {:induction false} KeptFrom(ps: seq<Prefix>, p: Prefix)
    requires p in Kept(ps)
    ensures p in ps
  {
    var n := |ps| - 1;
    if p != ps[n] {
      KeptFrom(ps[..n], p);
    }
  }

  /** The last of an ascending list adds itself to the maximal prefixes unless one of them covers it. */
  lemma MaximalStep(ps: seq<Prefix>, last: Prefix, p: Prefix, covered: bool)
    requires AllMasked(ps) && IsMasked(last) && forall q :: q in ps ==> !Before(last, q)
    requires covered <==> exists q :: q in ps && Covers(q, last)
    ensures Maximal(p, ps + [last]) <==> Maximal(p, ps) || (p == last && !covered)
  {
    if Maximal(p, ps) && Covers(last, p) {
      CoveringAndAfter(last, p);
    }
    if covered && p == last && Maximal(p, ps + [last]) {
      var q :| q in ps && Covers(q, last);
      assert q in ps + [last];
    }
    assert last in ps + [last];
    assert forall q :: q in ps ==> q in ps + [last];
  }

  lemma KeptCoversExactly(ps: seq<Prefix>, p: Prefix)
    ensures Covered(Kept(ps), p) <==> exists q :: q in ps && Covers(q, p)
  {
    if Covered(Kept(ps), p) {
      var i :| 0 <= i < |Kept(ps)| && Covers(Kept(ps)[i], p);
      KeptFrom(ps, Kept(ps)[i]);
    }
    if q :| q in ps && Covers(q, p) {
      KeptCovers(ps, q);
      var i :| 0 <= i < |Kept(ps)| && Covers(Kept(ps)[i], q);
      CoversTransitive(Kept(ps)[i], q, p);
    }
  }

  /** Of an ascending list of masked prefixes exactly the maximal ones are kept, each once. */
  lemma {:induction false} KeptMaximal(ps: seq<Prefix>, p: Prefix)
    requires Ascending(ps) && AllMasked(ps)
    ensures p in Kept(ps) <==> Maximal(p, ps)
  {
    if ps != [] {
      var front, last := ps[..|ps|-1], ps[|ps|-1];
      assert ps == front + [last];
      KeptMaximal(front, p);
      KeptCoversExactly(front, last);
      MaximalStep(front, last, p, Covered(Kept(front), last));
    }
  }

  lemma {:induction false} KeptAscends(ps: seq<Prefix>)
    requires Ascending(ps)
    ensures StrictlyAscending(Kept(ps))
  {
    if ps != [] {
      var front, last := ps[..|ps|-1], ps[|ps|-1];
      KeptAscends(front);
      if !Covered(Kept(front), last) {
        forall i | 0 <= i < |Kept(front)|
          ensures Before(Kept(front)[i], last)
        {
          KeptFrom(front, Kept(front)[i]);
          assert !Covers(Kept(front)[i], last);
        }
      }
    }
  }

  // ---------- What collapse computes ----------

  /** Exactly the maximal input prefixes, in strictly ascending order. */
  lemma CollapseIsMaximal(ps: seq<Prefix>, p: Prefix)
    requires AllMasked(ps)
    ensures p in Collapsed(ps) <==> Maximal(p, ps)
    ensures StrictlyAscending(Collapsed(ps))
  {
    SortedSorts(ps);
    KeptMaximal(Sorted(ps), p);
    KeptAscends(Sorted(ps));
  }

  /** No two prefixes of the result share an address. */
  lemma CollapseIsDisjoint(ps: seq<Prefix>, p: Prefix, q: Prefix, a: Address)
    requires AllMasked(ps) && p in Collapsed(ps) && q in Collapsed(ps) && Contains(p, a) && Contains(q, a)
    ensures p == q
  {
    CollapseIsMaximal(ps, p);
    CollapseIsMaximal(ps, q);
    if p.bits <= q.bits {
      NestedOrDisjoint(p, q, a);
    } else {
      NestedOrDisjoint(q, p, a);
    }
  }

  /** Not one address more or less is denied, masked or not. */
  lemma CollapseKeepsAddresses(ps: seq<Prefix>, a: Address)
    ensures Denies(Collapsed(ps), a) <==> Denies(ps, a)
  {
    if Denies(Collapsed(ps), a) {
      var i :| 0 <= i < |Collapsed(ps)| && Contains(Collapsed(ps)[i], a);
      KeptFrom(Sorted(ps), Collapsed(ps)[i]);
      SortedSorts(ps);
      var j :| 0 <= j < |ps| && ps[j] == Collapsed(ps)[i];
      assert Contains(ps[j], a);
    }
    if Denies(ps, a) {
      var j :| 0 <= j < |ps| && Contains(ps[j], a);
      SortedSorts(ps);
      KeptCovers(Sorted(ps), ps[j]);
      var i :| 0 <= i < |Collapsed(ps)| && Covers(Collapsed(ps)[i], ps[j]);
      NestedOrDisjoint(Collapsed(ps)[i], ps[j], a);
      assert Contains(Collapsed(ps)[i], a);
    }
  }

  /** The result only depends on which prefixes occur: order and repetition do not matter. */
  lemma CollapseIgnoresOrder(a: seq<Prefix>, b: seq<Prefix>)
    requires AllMasked(a) && forall p :: p in a <==> p in b
    ensures Collapsed(a) == Collapsed(b)
  {
    forall p
      ensures p in Collapsed(a) <==> p in Collapsed(b)
    {
      CollapseIsMaximal(a, p);
      CollapseIsMaximal(b, p);
    }
    CollapseIsMaximal(a, Prefix(Address(false, 0), 0));
    CollapseIsMaximal(b, Prefix(Address(false, 0), 0));
    BeforeIsTotal();
    Sorting.StrictIsUnique(Before, Collapsed(a), Collapsed(b));
  }

  // ---------- Build and Verify ----------

  const PROTOCOL_VERSION := 1
  const RULE_SCHEMA_VERSION := 1

  /** A CIDR text: what `netip.ParsePrefix` made of it. */
  type Cidr = Option<Prefix>

  datatype Network = Network(subnets: seq<Cidr>, gateways: seq<Option<Address>>)

  datatype Policy = Policy(protocol: int, schema: int, ipv4: seq<Prefix>, ipv6: seq<Prefix>, hash: string)

  datatype Error = InvalidCidr | MissingSubnet | InvalidSubnet | InvalidGateway

  datatype Result<T> = Ok(value: T) | Err(error: Error)

  function OfFamily(ps: seq<Prefix>, v6: bool): seq<Prefix> {
    if ps == [] then []
    else OfFamily(ps[..|ps|-1], v6) + if ps[|ps|-1].addr.v6 == v6 then [ps[|ps|-1]] else []
  }

  lemma {:induction false} FamilyElements(ps: seq<Prefix>, v6: bool, p: Prefix)
    ensures p in OfFamily(ps, v6) <==> p in ps && p.addr.v6 == v6
  {
    if ps != [] {
      FamilyElements(ps[..|ps|-1], v6, p);
      assert ps == ps[..|ps|-1] + [ps[|ps|-1]];
    }
  }

  method SplitAndCollapse(values: seq<Prefix>) returns (v4: seq<Prefix>, v6: seq<Prefix>)
    ensures v4 == Collapsed(OfFamily(values, false)) && v6 == Collapsed(OfFamily(values, true))
  {
    v4, v6 := [], [];
    for i := 0 to |values|
      invariant v4 == OfFamily(values[..i], false) && v6 == OfFamily(values[..i], true)
    {
      assert values[..i+1][..i] == values[..i];
      if !values[i].addr.v6 {
        v4 := v4 + [values[i]];
      } else {
        v6 := v6 + [values[i]];
      }
    }
    assert values[..|values|] == values;
    v4 := Collapse(v4);
    v6 := Collapse(v6);
  }

  /** The policy of a list of prefixes; `digest` is SHA-256 over the canonical wire form. */
  function PolicyOf(values: seq<Prefix>, digest: (seq<Prefix>, seq<Prefix>) -> string): Policy {
    var v4, v6 := Collapsed(OfFamily(values, false)), Collapsed(OfFamily(values, true));
    Policy(PROTOCOL_VERSION, RULE_SCHEMA_VERSION, v4, v6, digest(v4, v6))
  }

  function V4(value: nat, bits: nat): Cidr {
    Some(Prefix(Address(false, value), bits))
  }

  function V6(value: nat, bits: nat): Cidr {
    Some(Prefix(Address(true, value), bits))
  }

  /** `baselineCIDRs`. */
  const BASELINE: seq<Cidr> := [
    V4(0x0, 8),
    V4(0xa000000, 8),
    V4(0x64400000, 10),
    V4(0x7f000000, 8),
    V4(0xa9fe0000, 16),
    V4(0xac100000, 12),
    V4(0xc0000000, 24),
    V4(0xc0000200, 24),
    V4(0xc0a80000, 16),
    V4(0xc6120000, 15),
    V4(0xc6336400, 24),
    V4(0xcb007100, 24),
    V4(0xe0000000, 4),
    V4(0xf0000000, 4),
    V6(0x0, 128),
    V6(0x1, 128),
    V6(0xfc000000000000000000000000000000, 7),
    V6(0xfe800000000000000000000000000000, 10),
    V6(0xff000000000000000000000000000000, 8),
    V6(0x20010db8000000000000000000000000, 32)
  ]

  /** The inputs of `Build` in the order in which it reads them. */
  datatype Input = Deny(cidr: Cidr) | Subnet(cidr: Cidr) | Gateway(address: Option<Address>) | NoSubnet

  /** `parsePrefix`. */
  function Parsed(cidr: Cidr): Option<Prefix> {
    if cidr.None? || Is4In6(cidr.value.addr) then None else Some(Masked(cidr.value))
  }

  function Read(i: Input): Result<Prefix> {
    match i
    case Deny(cidr) => if Parsed(cidr).None? then Err(InvalidCidr) else Ok(Parsed(cidr).value)
    case Subnet(cidr) => if Parsed(cidr).None? then Err(InvalidSubnet) else Ok(Parsed(cidr).value)
    case Gateway(a) =>
      if a.None? || Is4In6(a.value) then Err(InvalidGateway) else Ok(Prefix(a.value, Width(a.value)))
    case NoSubnet => Err(MissingSubnet)
  }

  /** Reads inputs onto what has been gathered, up to the first error. */
  function Gathered(sofar: Result<seq<Prefix>>, inputs: seq<Input>): Result<seq<Prefix>>
    decreases inputs
  {
    if sofar.Err? || inputs == [] then sofar
    else
      var p := Read(inputs[0]);
      Gathered(if p.Err? then Err(p.error) else Ok(sofar.value + [p.value]), inputs[1..])
  }

  function Denied(cidrs: seq<Cidr>): seq<Input> {
    seq(|cidrs|, i requires 0 <= i < |cidrs| => Deny(cidrs[i]))
  }

  function OfNetwork(n: Network): seq<Input> {
    if n.subnets == [] then [NoSubnet]
    else seq(|n.subnets|, i requires 0 <= i < |n.subnets| => Subnet(n.subnets[i]))
         + seq(|n.gateways|, i requires 0 <= i < |n.gateways| => Gateway(n.gateways[i]))
  }

  function OfNetworks(networks: seq<Network>): seq<Input>
    decreases networks
  {
    if networks == [] then [] else OfNetwork(networks[0]) + OfNetworks(networks[1..])
  }

  function Inputs(cidrs: seq<Cidr>, networks: seq<Network>): seq<Input> {
    Denied(cidrs) + OfNetworks(networks)
  }

  lemma {:induction false} GatheredAppend(sofar: Result<seq<Prefix>>, a: seq<Input>, b: seq<Input>)
    ensures Gathered(sofar, a + b) == Gathered(Gathered(sofar, a), b)
    decreases a
  {
    if a == [] {
      assert a + b == b;
    } else if sofar.Ok? {
      assert (a + b)[1..] == a[1..] + b;
      var p := Read(a[0]);
      GatheredAppend(if p.Err? then Err(p.error) else Ok(sofar.value + [p.value]), a[1..], b);
    }
  }

  /** One of the loops of `Build`. */
  method Gather(sofar: seq<Prefix>, inputs: seq<Input>) returns (r: Result<seq<Prefix>>)
    ensures r == Gathered(Ok(sofar), inputs)
  {
    var values := sofar;
    for i := 0 to |inputs|
      invariant Gathered(Ok(values), inputs[i..]) == Gathered(Ok(sofar), inputs)
    {
      assert inputs[i..][1..] == inputs[i+1..];
      match Read(inputs[i]) {
        case Err(e) => return Err(e);
        case Ok(p) => values := values + [p];
      }
    }
    return Ok(values);
  }

  /** What `Build` returns. */
  function Built(additional: seq<Cidr>, networks: seq<Network>, digest: (seq<Prefix>, seq<Prefix>) -> string): Result<Policy> {
    match Gathered(Ok([]), Inputs(BASELINE + additional, networks))
    case Ok(values) => Ok(PolicyOf(values, digest))
    case Err(e) => Err(e)
  }

  method Build(additional: seq<Cidr>, networks: seq<Network>, digest: (seq<Prefix>, seq<Prefix>) -> string)
    returns (r: Result<Policy>)
    ensures r == Built(additional, networks, digest)
  {
    var denied := Denied(BASELINE + additional);
    ghost var all := Gathered(Ok([]), Inputs(BASELINE + additional, networks));
    GatheredAppend(Ok([]), denied, OfNetworks(networks));
    var gathered := Gather([], denied);
    for i := 0 to |networks|
      invariant Gathered(gathered, OfNetworks(networks[i..])) == all
    {
      if gathered.Err? {
        return Err(gathered.error);
      }
      assert networks[i..][1..] == networks[i+1..];
      GatheredAppend(gathered, OfNetwork(networks[i]), OfNetworks(networks[i+1..]));
      gathered := Gather(gathered.value, OfNetwork(networks[i]));
    }
    if gathered.Err? {
      return Err(gathered.error);
    }
    var v4, v6 := SplitAndCollapse(gathered.value);
    return Ok(Policy(PROTOCOL_VERSION, RULE_SCHEMA_VERSION, v4, v6, digest(v4, v6)));
  }

  /** What one accepted input denies. */
  predicate InputDenies(i: Input, a: Address) {
    match i
    case Deny(cidr) => cidr.Some? && Contains(cidr.value, a)
    case Subnet(cidr) => cidr.Some? && Contains(cidr.value, a)
    case Gateway(g) => g == Some(a)
    case NoSubnet => false
  }

  lemma ReadDenies(i: Input, a: Address)
    requires Read(i).Ok?
    ensures Contains(Read(i).value, a) <==> InputDenies(i, a)
    ensures IsMasked(Read(i).value)
  {
    if i.Gateway? {
      assert Read(i).value.HostBits() == 0;
    } else {
      MaskedSame(i.cidr.value, a);
    }
  }

  lemma {:induction false} GatheredDenies(sofar: seq<Prefix>, inputs: seq<Input>, a: Address)
    requires AllMasked(sofar) && Gathered(Ok(sofar), inputs).Ok?
    ensures var values := Gathered(Ok(sofar), inputs).value;
            && AllMasked(values)
            && (Denies(values, a) <==> Denies(sofar, a) || exists i :: 0 <= i < |inputs| && InputDenies(inputs[i], a))
    decreases inputs
  {
    if inputs != [] {
      ReadDenies(inputs[0], a);
      var more := sofar + [Read(inputs[0]).value];
      GatheredDenies(more, inputs[1..], a);
      DeniesAppend(sofar, Read(inputs[0]).value, a);
      assert (exists i :: 0 <= i < |inputs| && InputDenies(inputs[i], a)) <==>
             InputDenies(inputs[0], a) || exists i :: 0 <= i < |inputs[1..]| && InputDenies(inputs[1..][i], a) by {
        if i :| 0 < i < |inputs| && InputDenies(inputs[i], a) {
          assert InputDenies(inputs[1..][i-1], a);
        }
      }
    }
  }

  lemma DeniesAppend(ps: seq<Prefix>, p: Prefix, a: Address)
    ensures Denies(ps + [p], a) <==> Denies(ps, a) || Contains(p, a)
  {
    if Denies(ps, a) {
      var i :| 0 <= i < |ps| && Contains(ps[i], a);
      assert Contains((ps + [p])[i], a);
    }
    assert (ps + [p])[|ps|] == p;
  }

  lemma FamiliesDeny(ps: seq<Prefix>, a: Address)
    ensures Denies(ps, a) <==> Denies(OfFamily(ps, a.v6), a)
    ensures !Denies(OfFamily(ps, !a.v6), a)
  {
    var same, other := OfFamily(ps, a.v6), OfFamily(ps, !a.v6);
    forall p
      ensures p in same <==> p in ps && p.addr.v6 == a.v6
      ensures p in other <==> p in ps && p.addr.v6 != a.v6
    {
      FamilyElements(ps, a.v6, p);
      FamilyElements(ps, !a.v6, p);
    }
    if Denies(ps, a) {
      var i :| 0 <= i < |ps| && Contains(ps[i], a);
      assert ps[i] in same;
    }
    if Denies(same, a) {
      var i :| 0 <= i < |same| && Contains(same[i], a);
      assert same[i] in ps;
    }
    forall i | 0 <= i < |other|
      ensures !Contains(other[i], a)
    {
      assert other[i] in other;
    }
  }

  /** End to end: a policy that was built denies exactly the addresses of the baseline, the configured
      CIDRs, and the subnets and gateways of the managed networks. */
  lemma BuildDeniesExactly(cidrs: seq<Cidr>, networks: seq<Network>, digest: (seq<Prefix>, seq<Prefix>) -> string, a: Address)
    requires Gathered(Ok([]), Inputs(cidrs, networks)).Ok?
    ensures var inputs := Inputs(cidrs, networks);
            var policy := PolicyOf(Gathered(Ok([]), inputs).value, digest);
            && (Denies(policy.ipv4, a) || Denies(policy.ipv6, a) <==> exists i :: 0 <= i < |inputs| && InputDenies(inputs[i], a))
            && (Denies(policy.ipv4, a) ==> !a.v6) && (Denies(policy.ipv6, a) ==> a.v6)
  {
    var inputs := Inputs(cidrs, networks);
    var values := Gathered(Ok([]), inputs).value;
    GatheredDenies([], inputs, a);
    FamiliesDeny(values, a);
    CollapseKeepsAddresses(OfFamily(values, false), a);
    CollapseKeepsAddresses(OfFamily(values, true), a);
  }

  /** `Verify`. */
  predicate Verifies(p: Policy, digest: (seq<Prefix>, seq<Prefix>) -> string) {
    && p.protocol == PROTOCOL_VERSION && p.schema == RULE_SCHEMA_VERSION
    && var values := p.ipv4 + p.ipv6;
       var v4, v6 := Collapsed(OfFamily(values, false)), Collapsed(OfFamily(values, true));
       v4 == p.ipv4 && v6 == p.ipv6 && p.hash == digest(v4, v6)
  }

  predicate Pure(ps: seq<Prefix>, v6: bool) {
    forall p :: p in ps ==> p.addr.v6 == v6
  }

  predicate NoneCovered(ps: seq<Prefix>) {
    forall i, j :: 0 <= i < j < |ps| ==> !Covers(ps[i], ps[j])
  }

  /** One list of a policy in its canonical form, as far as `Verify` can tell. */
  predicate Canonical(ps: seq<Prefix>, v6: bool) {
    Pure(ps, v6) && StrictlyAscending(ps) && NoneCovered(ps)
  }

  lemma {:induction false} KeptShorter(ps: seq<Prefix>)
    ensures |Kept(ps)| <= |ps|
  {
    if ps != [] {
      KeptShorter(ps[..|ps|-1]);
    }
  }

  lemma NoneCoveredStep(front: seq<Prefix>, last: Prefix)
    ensures NoneCovered(front + [last]) <==> NoneCovered(front) && !Covered(front, last)
  {
    var ps := front + [last];
    if Covered(front, last) {
      var i :| 0 <= i < |front| && Covers(front[i], last);
      assert Covers(ps[i], ps[|front|]);
    }
    if NoneCovered(ps) {
      forall i, j | 0 <= i < j < |front|
        ensures !Covers(front[i], front[j])
      {
        assert !Covers(ps[i], ps[j]);
      }
    }
  }

  lemma {:induction false} KeptAll(ps: seq<Prefix>)
    ensures Kept(ps) == ps <==> NoneCovered(ps)
  {
    if ps != [] {
      var front, last := ps[..|ps|-1], ps[|ps|-1];
      assert ps == front + [last];
      KeptAll(front);
      KeptShorter(front);
      NoneCoveredStep(front, last);
    }
  }

  /** The fixed points of `collapse`, whether the prefixes are masked or not. */
  lemma CollapseFixedPoint(ps: seq<Prefix>)
    ensures Collapsed(ps) == ps <==> StrictlyAscending(ps) && NoneCovered(ps)
  {
    SortedSorts(ps);
    KeptAscends(Sorted(ps));
    KeptAll(ps);
    if StrictlyAscending(ps) {
      BeforeIsTotal();
      Sorting.StrictIsAscending(Before, ps);
      Sorting.SortedSorts(Before, ps);
      Sorting.SortIsUnique(Before, Sorted(ps), ps);
    }
  }

  lemma {:induction false} FamilyOfPair(a: seq<Prefix>, b: seq<Prefix>, v6: bool)
    ensures OfFamily(a + b, v6) == OfFamily(a, v6) + OfFamily(b, v6)
    decreases b
  {
    if b == [] {
      assert a + b == a;
    } else {
      assert (a + b)[..|a + b|-1] == a + b[..|b|-1];
      FamilyOfPair(a, b[..|b|-1], v6);
    }
  }

  lemma {:induction false} PureFamily(ps: seq<Prefix>, v6: bool)
    requires Pure(ps, v6)
    ensures OfFamily(ps, v6) == ps && OfFamily(ps, !v6) == []
  {
    if ps != [] {
      PureFamily(ps[..|ps|-1], v6);
    }
  }

  lemma CollapsedFamily(ps: seq<Prefix>, v6: bool, p: Prefix)
    requires p in Collapsed(OfFamily(ps, v6))
    ensures p in ps && p.addr.v6 == v6
  {
    KeptFrom(Sorted(OfFamily(ps, v6)), p);
    SortedSorts(OfFamily(ps, v6));
    FamilyElements(ps, v6, p);
  }

  lemma CollapsedIsPure(values: seq<Prefix>, v6: bool)
    ensures Pure(Collapsed(OfFamily(values, v6)), v6)
  {
    forall p | p in Collapsed(OfFamily(values, v6))
      ensures p.addr.v6 == v6
    {
      CollapsedFamily(values, v6, p);
    }
  }

  lemma SplitPair(v4: seq<Prefix>, v6: seq<Prefix>)
    requires Pure(v4, false) && Pure(v6, true)
    ensures OfFamily(v4 + v6, false) == v4 && OfFamily(v4 + v6, true) == v6
  {
    FamilyOfPair(v4, v6, false);
    FamilyOfPair(v4, v6, true);
    PureFamily(v4, false);
    PureFamily(v6, true);
  }

  /** `Verify` accepts exactly the policies with current versions, the right hash, and two canonical
      lists of one family each. */
  lemma VerifiesExactly(p: Policy, digest: (seq<Prefix>, seq<Prefix>) -> string)
    ensures Verifies(p, digest) <==>
            && p.protocol == PROTOCOL_VERSION && p.schema == RULE_SCHEMA_VERSION
            && Canonical(p.ipv4, false) && Canonical(p.ipv6, true) && p.hash == digest(p.ipv4, p.ipv6)
  {
    CollapsedIsPure(p.ipv4 + p.ipv6, false);
    CollapsedIsPure(p.ipv4 + p.ipv6, true);
    if Pure(p.ipv4, false) && Pure(p.ipv6, true) {
      SplitPair(p.ipv4, p.ipv6);
      CollapseFixedPoint(p.ipv4);
      CollapseFixedPoint(p.ipv6);
    }
  }

  lemma CollapsedIsCanonical(values: seq<Prefix>, v6: bool)
    requires AllMasked(values)
    ensures Canonical(Collapsed(OfFamily(values, v6)), v6)
  {
    var family := OfFamily(values, v6);
    var ps := Collapsed(family);
    forall p | p in family
      ensures IsMasked(p)
    {
      FamilyElements(values, v6, p);
    }
    CollapseIsMaximal(family, Prefix(Address(false, 0), 0));
    CollapsedIsPure(values, v6);
    forall i, j | 0 <= i < j < |ps|
      ensures !Covers(ps[i], ps[j])
    {
      CollapseIsMaximal(family, ps[i]);
      CollapseIsMaximal(family, ps[j]);
      assert ps[i] in family && Before(ps[i], ps[j]);
    }
  }

  /** `Verify` accepts everything `Build` produces, and collapsing it again changes nothing. */
  lemma VerifyAcceptsBuild(cidrs: seq<Cidr>, networks: seq<Network>, digest: (seq<Prefix>, seq<Prefix>) -> string)
    requires Gathered(Ok([]), Inputs(cidrs, networks)).Ok?
    ensures var policy := PolicyOf(Gathered(Ok([]), Inputs(cidrs, networks)).value, digest);
            && Verifies(policy, digest)
            && Collapsed(policy.ipv4) == policy.ipv4 && Collapsed(policy.ipv6) == policy.ipv6
            && AllMasked(policy.ipv4) && AllMasked(policy.ipv6)
  {
    var values := Gathered(Ok([]), Inputs(cidrs, networks)).value;
    GatheredDenies([], Inputs(cidrs, networks), Address(false, 0));
    CollapsedIsCanonical(values, false);
    CollapsedIsCanonical(values, true);
    var policy := PolicyOf(values, digest);
    VerifiesExactly(policy, digest);
    CollapseFixedPoint(policy.ipv4);
    CollapseFixedPoint(policy.ipv6);
    ShapeIsMasked(values, digest);
  }

  /** On masked lists, the only ones that the wire format admits (internal/egressnft/bootstrap.go:222-234), `Verify`
      accepts exactly what has the shape of a built policy: the collapsed families of some masked prefixes. */
  lemma VerifiesMaskedExactly(p: Policy, digest: (seq<Prefix>, seq<Prefix>) -> string)
    ensures Verifies(p, digest) && AllMasked(p.ipv4) && AllMasked(p.ipv6) <==>
            exists values :: AllMasked(values) && p == PolicyOf(values, digest)
  {
    if Verifies(p, digest) && AllMasked(p.ipv4) && AllMasked(p.ipv6) {
      var values := p.ipv4 + p.ipv6;
      assert AllMasked(values) && p == PolicyOf(values, digest);
    }
    if values :| AllMasked(values) && p == PolicyOf(values, digest) {
      ShapeIsMasked(values, digest);
      CollapsedIsCanonical(values, false);
      CollapsedIsCanonical(values, true);
      VerifiesExactly(p, digest);
    }
  }

  lemma ShapeIsMasked(values: seq<Prefix>, digest: (seq<Prefix>, seq<Prefix>) -> string)
    requires AllMasked(values)
    ensures AllMasked(PolicyOf(values, digest).ipv4) && AllMasked(PolicyOf(values, digest).ipv6)
  {
    var policy := PolicyOf(values, digest);
    forall p | p in policy.ipv4
      ensures IsMasked(p)
    {
      CollapsedFamily(values, false, p);
    }
    forall p | p in policy.ipv6
      ensures IsMasked(p)
    {
      CollapsedFamily(values, true, p);
    }
  }

  /** Off the wire the converse fails: `Verify` itself does not look at host bits, so it takes 0.0.0.1/31 with a
      matching hash, which `Build` never produces. */
  lemma VerifyMissesHostBits(digest: (seq<Prefix>, seq<Prefix>) -> string)
    ensures var p := Prefix(Address(false, 1), 31);
            && !IsMasked(p)
            && Verifies(Policy(PROTOCOL_VERSION, RULE_SCHEMA_VERSION, [p], [], digest([p], [])), digest)
  {
    var p := Prefix(Address(false, 1), 31);
    VerifiesExactly(Policy(PROTOCOL_VERSION, RULE_SCHEMA_VERSION, [p], [], digest([p], [])), digest);
    assert p.HostBits() == 1 && Shifted(1, 1) == 0 && Unshifted(0, 1) == 0;
  }
}
