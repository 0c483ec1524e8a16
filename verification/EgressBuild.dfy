/** What `Build` promises, in terms of the configured CIDRs and the networks themselves
    (internal/egresspolicy/policy.go:25-31, 89-134). */
module EgressBuild {
  import opened Wrappers
  import opened EgressPolicy

  // ---------- Addresses as numbers ----------

  /** Shifting right finds the block of 2^k numbers that x lies in. */
  lemma {:induction false} ShiftedBetween(x: nat, k: nat, m: nat)
    ensures Shifted(x, k) == m <==> Unshifted(m, k) <= x < Unshifted(m + 1, k)
    decreases k
  {
    if k > 0 {
      ShiftedBetween(x / 2, k - 1, m);
    }
  }

  lemma {:induction false} UnshiftedTimes(m: nat, k: nat)
    ensures Unshifted(m, k) == m * Unshifted(1, k) && Unshifted(1, k) > 0
    decreases k
  {
    if k > 0 {
      UnshiftedTimes(m, k - 1);
      assert 2 * (m * Unshifted(1, k - 1)) == m * (2 * Unshifted(1, k - 1));
    }
  }

  lemma {:induction false} UnshiftedTwice(m: nat, j: nat, k: nat)
    ensures Unshifted(m, j + k) == Unshifted(Unshifted(m, k), j)
    decreases j
  {
    if j > 0 {
      UnshiftedTwice(m, j - 1, k);
    }
  }

  function Times(m: nat, n: nat): nat {
    m * n
  }

  ghost predicate Multiple(x: nat, n: nat) {
    exists m :: Times(m, n) == x
  }

  /** A prefix contains the addresses of its family in the block that begins with its masked address: as many as
      its host bits can count, beginning at a multiple of that number. */
  lemma ContainsBlock(p: Prefix, a: Address)
    requires p.bits <= (if p.addr.v6 then 128 else 32)
    ensures var first, size := Masked(p).addr.value, Unshifted(1, (if p.addr.v6 then 128 else 32) - p.bits);
            && (Contains(p, a) <==> a.v6 == p.addr.v6 && first <= a.value < first + size)
            && first <= p.addr.value < first + size && Multiple(first, size)
            && Masked(p).bits == p.bits && Masked(p).addr.v6 == p.addr.v6
  {
    var h := p.HostBits();
    var m := Shifted(p.addr.value, h);
    ShiftedBetween(a.value, h, m);
    ShiftedBetween(p.addr.value, h, m);
    UnshiftedTimes(m, h);
    UnshiftedTimes(m + 1, h);
    assert (m + 1) * Unshifted(1, h) == m * Unshifted(1, h) + Unshifted(1, h);
    assert Times(m, Unshifted(1, h)) == Masked(p).addr.value;
  }

  // ---------- The baseline ----------

  /** The address a.b.c.d. */
  function Quad(a: nat, b: nat, c: nat, d: nat): nat {
    ((a * 256 + b) * 256 + c) * 256 + d
  }

  /** The address that begins with these two groups of 16 bits. */
  function Groups(a: nat, b: nat): nat {
    (a * 65536 + b) * 0x1000000000000000000000000
  }

  predicate Low4Reserved(v: nat) {
    || v <= Quad(0, 255, 255, 255)
    || Quad(10, 0, 0, 0) <= v <= Quad(10, 255, 255, 255)
    || Quad(100, 64, 0, 0) <= v <= Quad(100, 127, 255, 255)
    || Quad(127, 0, 0, 0) <= v <= Quad(127, 255, 255, 255)
  }

  predicate Mid4Reserved(v: nat) {
    || Quad(169, 254, 0, 0) <= v <= Quad(169, 254, 255, 255)
    || Quad(172, 16, 0, 0) <= v <= Quad(172, 31, 255, 255)
    || Quad(192, 0, 0, 0) <= v <= Quad(192, 0, 0, 255)
    || Quad(192, 0, 2, 0) <= v <= Quad(192, 0, 2, 255)
  }

  predicate High4Reserved(v: nat) {
    || Quad(192, 168, 0, 0) <= v <= Quad(192, 168, 255, 255)
    || Quad(198, 18, 0, 0) <= v <= Quad(198, 19, 255, 255)
    || Quad(198, 51, 100, 0) <= v <= Quad(198, 51, 100, 255)
  }

  predicate Top4Reserved(v: nat) {
    || Quad(203, 0, 113, 0) <= v <= Quad(203, 0, 113, 255)
    || Quad(224, 0, 0, 0) <= v <= Quad(255, 255, 255, 255)
  }

  predicate Host6Reserved(v: nat) {
    || v == 0
    || v == 1
  }

  predicate Local6Reserved(v: nat) {
    || Groups(0xfc00, 0) <= v < Groups(0xfe00, 0)
    || Groups(0xfe80, 0) <= v < Groups(0xfec0, 0)
  }

  predicate Other6Reserved(v: nat) {
    || Groups(0xff00, 0) <= v < Groups(0x10000, 0)
    || Groups(0x2001, 0xdb8) <= v < Groups(0x2001, 0xdb9)
  }

  /** The IPv4 addresses that are not on the public Internet. */
  predicate Reserved4(v: nat) {
    Low4Reserved(v) || Mid4Reserved(v) || High4Reserved(v) || Top4Reserved(v)
  }

  predicate Reserved6(v: nat) {
    Host6Reserved(v) || Local6Reserved(v) || Other6Reserved(v)
  }

  predicate Reserved(a: Address) {
    if a.v6 then Reserved6(a.value) else Reserved4(a.value)
  }

  lemma Plus(j: nat, k: nat)
    ensures Unshifted(1, j + k) == Unshifted(1, j) * Unshifted(1, k)
  {
    UnshiftedTwice(1, j, k);
    UnshiftedTimes(Unshifted(1, k), j);
  }

  lemma Sizes4()
    ensures Unshifted(1, 8) == 0x100 && Unshifted(1, 16) == 0x10000
    ensures Unshifted(1, 17) == 0x20000 && Unshifted(1, 20) == 0x100000 && Unshifted(1, 22) == 0x400000
    ensures Unshifted(1, 24) == 0x1000000 && Unshifted(1, 28) == 0x10000000
  {
    Plus(8, 8);
    Plus(16, 8);
  }

  lemma Sizes6()
    ensures Unshifted(1, 0) == 1 && Unshifted(1, 96) == 0x1000000000000000000000000
    ensures Unshifted(1, 118) == 0x400000000000000000000000000000
    ensures Unshifted(1, 120) == 0x1000000000000000000000000000000
    ensures Unshifted(1, 121) == 0x2000000000000000000000000000000
  {
    Sizes4();
    Plus(24, 24);
    Plus(48, 48);
    Plus(96, 22);
    Plus(96, 24);
    Plus(120, 1);
  }

  /** A prefix whose address is a multiple of its size. */
  lemma AlignedBlock(p: Prefix, a: Address, m: nat, size: nat)
    requires size == Unshifted(1, p.HostBits()) && p.addr.value == m * size
    ensures Contains(p, a) <==> a.v6 == p.addr.v6 && p.addr.value <= a.value < p.addr.value + size
  {
    var h := p.HostBits();
    UnshiftedTimes(m, h);
    UnshiftedTimes(m + 1, h);
    assert (m + 1) * size == m * size + size;
    ShiftedBetween(a.value, h, m);
    ShiftedBetween(p.addr.value, h, m);
  }

  /** The CIDR is the block of this size that begins with this address. */
  predicate IsBlock(cidr: Cidr, a: Address, v6: bool, first: nat, size: nat) {
    cidr.Some? && (Contains(cidr.value, a) <==> a.v6 == v6 && first <= a.value < first + size)
  }

  lemma Low4(a: Address)
    ensures IsBlock(V4(0x0, 8), a, false, Quad(0, 0, 0, 0), 0x1000000)
    ensures IsBlock(V4(0xa000000, 8), a, false, Quad(10, 0, 0, 0), 0x1000000)
    ensures IsBlock(V4(0x64400000, 10), a, false, Quad(100, 64, 0, 0), 0x400000)
    ensures IsBlock(V4(0x7f000000, 8), a, false, Quad(127, 0, 0, 0), 0x1000000)
  {
    Sizes4();
    AlignedBlock(V4(0x0, 8).value, a, 0, 0x1000000);
    AlignedBlock(V4(0xa000000, 8).value, a, 10, 0x1000000);
    AlignedBlock(V4(0x64400000, 10).value, a, 401, 0x400000);
    AlignedBlock(V4(0x7f000000, 8).value, a, 127, 0x1000000);
  }

  lemma Mid4(a: Address)
    ensures IsBlock(V4(0xa9fe0000, 16), a, false, Quad(169, 254, 0, 0), 0x10000)
    ensures IsBlock(V4(0xac100000, 12), a, false, Quad(172, 16, 0, 0), 0x100000)
    ensures IsBlock(V4(0xc0000000, 24), a, false, Quad(192, 0, 0, 0), 0x100)
    ensures IsBlock(V4(0xc0000200, 24), a, false, Quad(192, 0, 2, 0), 0x100)
  {
    Sizes4();
    AlignedBlock(V4(0xa9fe0000, 16).value, a, 0xa9fe, 0x10000);
    AlignedBlock(V4(0xac100000, 12).value, a, 0xac1, 0x100000);
    AlignedBlock(V4(0xc0000000, 24).value, a, 0xc00000, 0x100);
    AlignedBlock(V4(0xc0000200, 24).value, a, 0xc00002, 0x100);
  }

  lemma High4(a: Address)
    ensures IsBlock(V4(0xc0a80000, 16), a, false, Quad(192, 168, 0, 0), 0x10000)
    ensures IsBlock(V4(0xc6120000, 15), a, false, Quad(198, 18, 0, 0), 0x20000)
    ensures IsBlock(V4(0xc6336400, 24), a, false, Quad(198, 51, 100, 0), 0x100)
  {
    Sizes4();
    AlignedBlock(V4(0xc0a80000, 16).value, a, 0xc0a8, 0x10000);
    AlignedBlock(V4(0xc6120000, 15).value, a, 0x6309, 0x20000);
    AlignedBlock(V4(0xc6336400, 24).value, a, 0xc63364, 0x100);
  }

  lemma Top4(a: Address)
    ensures IsBlock(V4(0xcb007100, 24), a, false, Quad(203, 0, 113, 0), 0x100)
    ensures IsBlock(V4(0xe0000000, 4), a, false, Quad(224, 0, 0, 0), 0x10000000)
    ensures IsBlock(V4(0xf0000000, 4), a, false, Quad(240, 0, 0, 0), 0x10000000)
  {
    Sizes4();
    AlignedBlock(V4(0xcb007100, 24).value, a, 0xcb0071, 0x100);
    AlignedBlock(V4(0xe0000000, 4).value, a, 14, 0x10000000);
    AlignedBlock(V4(0xf0000000, 4).value, a, 15, 0x10000000);
  }

  lemma Host6(a: Address)
    ensures IsBlock(V6(0x0, 128), a, true, 0, 0x1)
    ensures IsBlock(V6(0x1, 128), a, true, 1, 0x1)
  {
    Sizes6();
    AlignedBlock(V6(0x0, 128).value, a, 0, 0x1);
    AlignedBlock(V6(0x1, 128).value, a, 1, 0x1);
  }

  lemma Local6(a: Address)
    ensures IsBlock(V6(0xfc000000000000000000000000000000, 7), a, true, Groups(0xfc00, 0), 0x2000000000000000000000000000000)
    ensures IsBlock(V6(0xfe800000000000000000000000000000, 10), a, true, Groups(0xfe80, 0), 0x400000000000000000000000000000)
  {
    Sizes6();
    AlignedBlock(V6(0xfc000000000000000000000000000000, 7).value, a, 0x7e, 0x2000000000000000000000000000000);
    AlignedBlock(V6(0xfe800000000000000000000000000000, 10).value, a, 0x3fa, 0x400000000000000000000000000000);
  }

  lemma Other6(a: Address)
    ensures IsBlock(V6(0xff000000000000000000000000000000, 8), a, true, Groups(0xff00, 0), 0x1000000000000000000000000000000)
    ensures IsBlock(V6(0x20010db8000000000000000000000000, 32), a, true, Groups(0x2001, 0xdb8), 0x1000000000000000000000000)
  {
    Sizes6();
    AlignedBlock(V6(0xff000000000000000000000000000000, 8).value, a, 0xff, 0x1000000000000000000000000000000);
    AlignedBlock(V6(0x20010db8000000000000000000000000, 32).value, a, 0x20010db8, 0x1000000000000000000000000);
  }

  /** Some of these CIDRs contains the address. */
  ghost predicate SomeContains(cidrs: seq<Cidr>, a: Address) {
    exists i :: 0 <= i < |cidrs| && cidrs[i].Some? && Contains(cidrs[i].value, a)
  }

  /** The address is one that the family can hold. */
  predicate InFamily(a: Address) {
    if a.v6 then a.value < Groups(0x10000, 0) else a.value <= Quad(255, 255, 255, 255)
  }

  lemma SomeOfTwo(x: seq<Cidr>, y: seq<Cidr>, a: Address)
    ensures SomeContains(x + y, a) <==> SomeContains(x, a) || SomeContains(y, a)
  {
    if SomeContains(x, a) {
      var i :| 0 <= i < |x| && x[i].Some? && Contains(x[i].value, a);
      assert (x + y)[i] == x[i];
    }
    if SomeContains(y, a) {
      var i :| 0 <= i < |y| && y[i].Some? && Contains(y[i].value, a);
      assert (x + y)[|x| + i] == y[i];
    }
  }

  lemma SomeOfFour(c0: Cidr, c1: Cidr, c2: Cidr, c3: Cidr, a: Address)
    ensures SomeContains([c0, c1, c2, c3], a) <==> Has(c0, a) || Has(c1, a) || Has(c2, a) || Has(c3, a)
  {
    var cidrs := [c0, c1, c2, c3];
    assert cidrs[0] == c0 && cidrs[1] == c1 && cidrs[2] == c2 && cidrs[3] == c3;
  }

  lemma SomePadded(x: seq<Cidr>, y: seq<Cidr>, a: Address)
    requires forall c :: c in x <==> c in y
    ensures SomeContains(x, a) <==> SomeContains(y, a)
  {
    if SomeContains(x, a) {
      var i :| 0 <= i < |x| && x[i].Some? && Contains(x[i].value, a);
      assert x[i] in y;
    }
    if SomeContains(y, a) {
      var i :| 0 <= i < |y| && y[i].Some? && Contains(y[i].value, a);
      assert y[i] in x;
    }
  }

  predicate Has(cidr: Cidr, a: Address) {
    cidr.Some? && Contains(cidr.value, a)
  }

  lemma Low4Denied(a: Address)
    requires InFamily(a)
    ensures SomeContains(BASELINE[0..4], a) <==> !a.v6 && Low4Reserved(a.value)
  {
    Low4(a);
    SomeOfFour(V4(0x0, 8), V4(0xa000000, 8), V4(0x64400000, 10), V4(0x7f000000, 8), a);
    assert BASELINE[0..4] == [V4(0x0, 8), V4(0xa000000, 8), V4(0x64400000, 10), V4(0x7f000000, 8)];
  }

  lemma Mid4Denied(a: Address)
    requires InFamily(a)
    ensures SomeContains(BASELINE[4..8], a) <==> !a.v6 && Mid4Reserved(a.value)
  {
    Mid4(a);
    SomeOfFour(V4(0xa9fe0000, 16), V4(0xac100000, 12), V4(0xc0000000, 24), V4(0xc0000200, 24), a);
    assert BASELINE[4..8] == [V4(0xa9fe0000, 16), V4(0xac100000, 12), V4(0xc0000000, 24), V4(0xc0000200, 24)];
  }

  lemma High4Denied(a: Address)
    requires InFamily(a)
    ensures SomeContains(BASELINE[8..11], a) <==> !a.v6 && High4Reserved(a.value)
  {
    High4(a);
    SomeOfFour(V4(0xc0a80000, 16), V4(0xc6120000, 15), V4(0xc6336400, 24), V4(0xc6336400, 24), a);
    SomePadded([V4(0xc0a80000, 16), V4(0xc6120000, 15), V4(0xc6336400, 24)], [V4(0xc0a80000, 16), V4(0xc6120000, 15), V4(0xc6336400, 24), V4(0xc6336400, 24)], a);
    assert BASELINE[8..11] == [V4(0xc0a80000, 16), V4(0xc6120000, 15), V4(0xc6336400, 24)];
  }

  lemma Top4Denied(a: Address)
    requires InFamily(a)
    ensures SomeContains(BASELINE[11..14], a) <==> !a.v6 && Top4Reserved(a.value)
  {
    Top4(a);
    SomeOfFour(V4(0xcb007100, 24), V4(0xe0000000, 4), V4(0xf0000000, 4), V4(0xf0000000, 4), a);
    SomePadded([V4(0xcb007100, 24), V4(0xe0000000, 4), V4(0xf0000000, 4)], [V4(0xcb007100, 24), V4(0xe0000000, 4), V4(0xf0000000, 4), V4(0xf0000000, 4)], a);
    assert BASELINE[11..14] == [V4(0xcb007100, 24), V4(0xe0000000, 4), V4(0xf0000000, 4)];
  }

  lemma Host6Denied(a: Address)
    requires InFamily(a)
    ensures SomeContains(BASELINE[14..16], a) <==> a.v6 && Host6Reserved(a.value)
  {
    Host6(a);
    SomeOfFour(V6(0x0, 128), V6(0x1, 128), V6(0x1, 128), V6(0x1, 128), a);
    SomePadded([V6(0x0, 128), V6(0x1, 128)], [V6(0x0, 128), V6(0x1, 128), V6(0x1, 128), V6(0x1, 128)], a);
    assert BASELINE[14..16] == [V6(0x0, 128), V6(0x1, 128)];
  }

  lemma Local6Denied(a: Address)
    requires InFamily(a)
    ensures SomeContains(BASELINE[16..18], a) <==> a.v6 && Local6Reserved(a.value)
  {
    Local6(a);
    SomeOfFour(V6(0xfc000000000000000000000000000000, 7), V6(0xfe800000000000000000000000000000, 10), V6(0xfe800000000000000000000000000000, 10), V6(0xfe800000000000000000000000000000, 10), a);
    SomePadded([V6(0xfc000000000000000000000000000000, 7), V6(0xfe800000000000000000000000000000, 10)], [V6(0xfc000000000000000000000000000000, 7), V6(0xfe800000000000000000000000000000, 10), V6(0xfe800000000000000000000000000000, 10), V6(0xfe800000000000000000000000000000, 10)], a);
    assert BASELINE[16..18] == [V6(0xfc000000000000000000000000000000, 7), V6(0xfe800000000000000000000000000000, 10)];
  }

  lemma Other6Denied(a: Address)
    requires InFamily(a)
    ensures SomeContains(BASELINE[18..20], a) <==> a.v6 && Other6Reserved(a.value)
  {
    Other6(a);
    SomeOfFour(V6(0xff000000000000000000000000000000, 8), V6(0x20010db8000000000000000000000000, 32), V6(0x20010db8000000000000000000000000, 32), V6(0x20010db8000000000000000000000000, 32), a);
    SomePadded([V6(0xff000000000000000000000000000000, 8), V6(0x20010db8000000000000000000000000, 32)], [V6(0xff000000000000000000000000000000, 8), V6(0x20010db8000000000000000000000000, 32), V6(0x20010db8000000000000000000000000, 32), V6(0x20010db8000000000000000000000000, 32)], a);
    assert BASELINE[18..20] == [V6(0xff000000000000000000000000000000, 8), V6(0x20010db8000000000000000000000000, 32)];
  }

  lemma Split(b: seq<Cidr>, i: nat, j: nat, a: Address)
    requires |b| == 20 && i <= j <= 20
    ensures SomeContains(b[i..20], a) <==> SomeContains(b[i..j], a) || SomeContains(b[j..20], a)
  {
    assert b[i..20] == b[i..j] + b[j..20];
    SomeOfTwo(b[i..j], b[j..20], a);
  }

  lemma GroupsJoin(b: seq<Cidr>, a: Address)
    requires |b| == 20
    requires SomeContains(b[0..4], a) <==> !a.v6 && Low4Reserved(a.value)
    requires SomeContains(b[4..8], a) <==> !a.v6 && Mid4Reserved(a.value)
    requires SomeContains(b[8..11], a) <==> !a.v6 && High4Reserved(a.value)
    requires SomeContains(b[11..14], a) <==> !a.v6 && Top4Reserved(a.value)
    requires SomeContains(b[14..16], a) <==> a.v6 && Host6Reserved(a.value)
    requires SomeContains(b[16..18], a) <==> a.v6 && Local6Reserved(a.value)
    requires SomeContains(b[18..20], a) <==> a.v6 && Other6Reserved(a.value)
    ensures SomeContains(b, a) <==> Reserved(a)
  {
    Split(b, 0, 4, a);
    Split(b, 4, 8, a);
    Split(b, 8, 11, a);
    Split(b, 11, 14, a);
    Split(b, 14, 16, a);
    Split(b, 16, 18, a);
    assert b[0..20] == b;
  }

  /** The baseline denies exactly the reserved addresses. */
  lemma BaselineExactly(a: Address)
    requires InFamily(a)
    ensures SomeContains(BASELINE, a) <==> Reserved(a)
  {
    Low4Denied(a);
    Mid4Denied(a);
    High4Denied(a);
    Top4Denied(a);
    Host6Denied(a);
    Local6Denied(a);
    Other6Denied(a);
    GroupsJoin(BASELINE, a);
  }

  // ---------- What Build promises ----------

  /** A 4-in-6 address, ::ffff:a.b.c.d. */
  predicate Mapped(a: Address) {
    a.v6 && 0xffff_0000_0000 <= a.value < 0x1_0000_0000_0000
  }

  lemma MappedExactly(a: Address)
    ensures Is4In6(a) <==> Mapped(a)
  {
    ShiftedBetween(a.value, 32, 0xffff);
    Sizes4();
    Plus(24, 8);
    UnshiftedTimes(0xffff, 32);
    UnshiftedTimes(0x10000, 32);
  }

  predicate UsableCidr(cidr: Cidr) {
    cidr.Some? && !Mapped(cidr.value.addr)
  }

  predicate UsableGateway(g: Option<Address>) {
    g.Some? && !Mapped(g.value)
  }

  predicate UsableNetwork(n: Network) {
    && n.subnets != []
    && (forall i :: 0 <= i < |n.subnets| ==> UsableCidr(n.subnets[i]))
    && (forall i :: 0 <= i < |n.gateways| ==> UsableGateway(n.gateways[i]))
  }

  /** What `Build` reports of a network it cannot use. */
  function Complaint(n: Network): Error {
    if n.subnets == [] then MissingSubnet
    else if exists i :: 0 <= i < |n.subnets| && !UsableCidr(n.subnets[i]) then InvalidSubnet
    else InvalidGateway
  }

  /** Reading stops at the first input that cannot be read, with its error. */
  lemma {:induction false} GatheredExactly(sofar: seq<Prefix>, inputs: seq<Input>)
    ensures Gathered(Ok(sofar), inputs).Ok? <==> forall i :: 0 <= i < |inputs| ==> Read(inputs[i]).Ok?
    ensures Gathered(Ok(sofar), inputs).Err? ==>
              exists k :: FirstBad(inputs, k, Gathered(Ok(sofar), inputs).error)
    decreases inputs
  {
    if inputs != [] {
      var p := Read(inputs[0]);
      if p.Ok? {
        GatheredExactly(sofar + [p.value], inputs[1..]);
        assert forall i :: 0 < i < |inputs| ==> inputs[i] == inputs[1..][i-1];
        if Gathered(Ok(sofar), inputs).Err? {
          var k :| FirstBad(inputs[1..], k, Gathered(Ok(sofar), inputs).error);
          assert FirstBad(inputs, k + 1, Gathered(Ok(sofar), inputs).error);
        }
      } else {
        assert Gathered(Err(p.error), inputs[1..]) == Err(p.error);
        assert FirstBad(inputs, 0, p.error);
      }
    }
  }

  predicate FirstBad(inputs: seq<Input>, k: int, e: Error) {
    0 <= k < |inputs| && Read(inputs[k]) == Err(e) && forall i :: 0 <= i < k ==> Read(inputs[i]).Ok?
  }

  predicate AllRead(inputs: seq<Input>) {
    forall i :: 0 <= i < |inputs| ==> Read(inputs[i]).Ok?
  }

  lemma ReadExactly(cidr: Cidr, g: Option<Address>)
    ensures Read(Deny(cidr)).Ok? <==> UsableCidr(cidr)
    ensures Read(Deny(cidr)).Err? ==> Read(Deny(cidr)).error == InvalidCidr
    ensures Read(Subnet(cidr)).Ok? <==> UsableCidr(cidr)
    ensures Read(Subnet(cidr)).Err? ==> Read(Subnet(cidr)).error == InvalidSubnet
    ensures Read(Gateway(g)).Ok? <==> UsableGateway(g)
    ensures Read(Gateway(g)).Err? ==> Read(Gateway(g)).error == InvalidGateway
  {
    if cidr.Some? {
      MappedExactly(cidr.value.addr);
    }
    if g.Some? {
      MappedExactly(g.value);
    }
  }

  lemma DeniedRead(cidrs: seq<Cidr>, k: int, e: Error)
    ensures AllRead(Denied(cidrs)) <==> forall i :: 0 <= i < |cidrs| ==> UsableCidr(cidrs[i])
    ensures FirstBad(Denied(cidrs), k, e) ==> e == InvalidCidr
  {
    forall i | 0 <= i < |cidrs|
      ensures Read(Denied(cidrs)[i]).Ok? <==> UsableCidr(cidrs[i])
      ensures Read(Denied(cidrs)[i]).Err? ==> Read(Denied(cidrs)[i]).error == InvalidCidr
    {
      ReadExactly(cidrs[i], None);
    }
    if AllRead(Denied(cidrs)) {
      forall i | 0 <= i < |cidrs|
        ensures UsableCidr(cidrs[i])
      {
        assert Read(Denied(cidrs)[i]).Ok?;
      }
    }
  }

  /** The inputs of a network with subnets, by position. */
  lemma InputsOfNetwork(n: Network, i: nat)
    requires n.subnets != [] && i < |n.subnets| + |n.gateways|
    ensures |OfNetwork(n)| == |n.subnets| + |n.gateways|
    ensures OfNetwork(n)[i] == if i < |n.subnets| then Subnet(n.subnets[i]) else Gateway(n.gateways[i - |n.subnets|])
  {
  }

  lemma NetworkRead(n: Network)
    ensures AllRead(OfNetwork(n)) <==> UsableNetwork(n)
  {
    if n.subnets == [] {
      assert Read(OfNetwork(n)[0]).Err?;
    } else {
      var inputs := OfNetwork(n);
      forall i | 0 <= i < |n.subnets|
        ensures Read(inputs[i]).Ok? <==> UsableCidr(n.subnets[i])
      {
        InputsOfNetwork(n, i);
        ReadExactly(n.subnets[i], None);
      }
      forall i | 0 <= i < |n.gateways|
        ensures Read(inputs[|n.subnets| + i]).Ok? <==> UsableGateway(n.gateways[i])
      {
        InputsOfNetwork(n, |n.subnets| + i);
        ReadExactly(None, n.gateways[i]);
      }
      if UsableNetwork(n) {
        forall i | 0 <= i < |inputs|
          ensures Read(inputs[i]).Ok?
        {
          if i >= |n.subnets| {
            assert UsableGateway(n.gateways[i - |n.subnets|]);
          }
        }
      }
      if AllRead(inputs) {
        forall i | 0 <= i < |n.gateways|
          ensures UsableGateway(n.gateways[i])
        {
          assert Read(inputs[|n.subnets| + i]).Ok?;
        }
      }
    }
  }

  lemma NetworkComplains(n: Network, k: int, e: Error)
    requires FirstBad(OfNetwork(n), k, e)
    ensures e == Complaint(n)
  {
    if n.subnets != [] {
      InputsOfNetwork(n, k);
      if k < |n.subnets| {
        ReadExactly(n.subnets[k], None);
      } else {
        ReadExactly(None, n.gateways[k - |n.subnets|]);
        forall i | 0 <= i < |n.subnets|
          ensures UsableCidr(n.subnets[i])
        {
          InputsOfNetwork(n, i);
          ReadExactly(n.subnets[i], None);
          assert Read(OfNetwork(n)[i]).Ok?;
        }
      }
    }
  }

  /** The first network that cannot be used. */
  predicate FirstUnusable(networks: seq<Network>, k: int) {
    0 <= k < |networks| && !UsableNetwork(networks[k]) && forall i :: 0 <= i < k ==> UsableNetwork(networks[i])
  }

  lemma {:induction false} NetworksGather(sofar: seq<Prefix>, networks: seq<Network>)
    ensures var r := Gathered(Ok(sofar), OfNetworks(networks));
            && (r.Ok? <==> forall i :: 0 <= i < |networks| ==> UsableNetwork(networks[i]))
            && (r.Err? ==> exists k :: FirstUnusable(networks, k) && r.error == Complaint(networks[k]))
    decreases networks
  {
    if networks != [] {
      var first, rest := OfNetwork(networks[0]), OfNetworks(networks[1..]);
      var mid := Gathered(Ok(sofar), first);
      GatheredAppend(Ok(sofar), first, rest);
      GatheredExactly(sofar, first);
      NetworkRead(networks[0]);
      if mid.Ok? {
        NetworksGather(mid.value, networks[1..]);
        assert forall i :: 0 < i < |networks| ==> networks[i] == networks[1..][i-1];
        if Gathered(mid, rest).Err? {
          var k :| FirstUnusable(networks[1..], k) && Gathered(mid, rest).error == Complaint(networks[1..][k]);
          assert FirstUnusable(networks, k + 1);
        }
      } else {
        var k :| FirstBad(first, k, mid.error);
        NetworkComplains(networks[0], k, mid.error);
        assert FirstUnusable(networks, 0);
      }
    }
  }

  lemma BaselineUsable()
    ensures forall i :: 0 <= i < |BASELINE| ==> UsableCidr(BASELINE[i])
  {
  }

  predicate AllUsable(cidrs: seq<Cidr>) {
    forall i :: 0 <= i < |cidrs| ==> UsableCidr(cidrs[i])
  }

  lemma AllUsableTwo(x: seq<Cidr>, y: seq<Cidr>)
    requires AllUsable(x)
    ensures AllUsable(x + y) <==> AllUsable(y)
  {
    assert forall i :: 0 <= i < |y| ==> (x + y)[|x| + i] == y[i];
  }

  lemma GatherExactly(cidrs: seq<Cidr>, networks: seq<Network>)
    ensures match Gathered(Ok([]), Inputs(cidrs, networks))
            case Ok(_) => AllUsable(cidrs) && forall i :: 0 <= i < |networks| ==> UsableNetwork(networks[i])
            case Err(e) =>
              if !AllUsable(cidrs) then e == InvalidCidr else exists k :: FirstUnusable(networks, k) && e == Complaint(networks[k])
  {
    var mid := Gathered(Ok([]), Denied(cidrs));
    GatheredAppend(Ok([]), Denied(cidrs), OfNetworks(networks));
    GatheredExactly([], Denied(cidrs));
    DeniedRead(cidrs, 0, InvalidCidr);
    if mid.Ok? {
      NetworksGather(mid.value, networks);
    } else {
      var k :| FirstBad(Denied(cidrs), k, mid.error);
      DeniedRead(cidrs, k, mid.error);
    }
  }

  /** When `Build` succeeds, and with which error it fails: it succeeds if and only if every configured CIDR and
      every network can be used; a bad CIDR is reported before any network, and then the first bad network. */
  lemma BuildSucceedsExactly(additional: seq<Cidr>, networks: seq<Network>, digest: (seq<Prefix>, seq<Prefix>) -> string)
    ensures match Built(additional, networks, digest)
            case Ok(p) =>
              && AllUsable(additional) && (forall i :: 0 <= i < |networks| ==> UsableNetwork(networks[i]))
              && p.protocol == 1 && p.schema == 1 && p.hash == digest(p.ipv4, p.ipv6)
            case Err(e) =>
              if !AllUsable(additional) then e == InvalidCidr
              else exists k :: FirstUnusable(networks, k) && e == Complaint(networks[k])
  {
    BaselineUsable();
    AllUsableTwo(BASELINE, additional);
    GatherExactly(BASELINE + additional, networks);
  }

  // ---------- What a built policy denies ----------

  /** A subnet of the network contains the address, or it is one of its gateways. */
  ghost predicate NetworkHas(n: Network, a: Address) {
    SomeContains(n.subnets, a) || exists i :: 0 <= i < |n.gateways| && n.gateways[i] == Some(a)
  }

  ghost predicate SomeInput(inputs: seq<Input>, a: Address) {
    exists i :: 0 <= i < |inputs| && InputDenies(inputs[i], a)
  }

  lemma SomeInputTwo(x: seq<Input>, y: seq<Input>, a: Address)
    ensures SomeInput(x + y, a) <==> SomeInput(x, a) || SomeInput(y, a)
  {
    if SomeInput(x, a) {
      var i :| 0 <= i < |x| && InputDenies(x[i], a);
      assert InputDenies((x + y)[i], a);
    }
    if SomeInput(y, a) {
      var i :| 0 <= i < |y| && InputDenies(y[i], a);
      assert InputDenies((x + y)[|x| + i], a);
    }
  }

  lemma DeniedDeny(cidrs: seq<Cidr>, a: Address)
    ensures SomeInput(Denied(cidrs), a) <==> SomeContains(cidrs, a)
  {
    if SomeContains(cidrs, a) {
      var i :| 0 <= i < |cidrs| && cidrs[i].Some? && Contains(cidrs[i].value, a);
      assert InputDenies(Denied(cidrs)[i], a);
    }
  }

  lemma NetworkDenies(n: Network, a: Address)
    requires n.subnets != []
    ensures SomeInput(OfNetwork(n), a) <==> NetworkHas(n, a)
  {
    var inputs := OfNetwork(n);
    if SomeInput(inputs, a) {
      var i :| 0 <= i < |inputs| && InputDenies(inputs[i], a);
      InputsOfNetwork(n, i);
    }
    if SomeContains(n.subnets, a) {
      var i :| 0 <= i < |n.subnets| && n.subnets[i].Some? && Contains(n.subnets[i].value, a);
      assert InputDenies(inputs[i], a);
    }
    if i :| 0 <= i < |n.gateways| && n.gateways[i] == Some(a) {
      InputsOfNetwork(n, |n.subnets| + i);
      assert InputDenies(inputs[|n.subnets| + i], a);
    }
  }

  lemma {:induction false} NetworksDeny(networks: seq<Network>, a: Address)
    requires forall i :: 0 <= i < |networks| ==> networks[i].subnets != []
    ensures SomeInput(OfNetworks(networks), a) <==> exists i :: 0 <= i < |networks| && NetworkHas(networks[i], a)
    decreases networks
  {
    if networks != [] {
      NetworkDenies(networks[0], a);
      NetworksDeny(networks[1..], a);
      SomeInputTwo(OfNetwork(networks[0]), OfNetworks(networks[1..]), a);
      if i :| 0 < i < |networks| && NetworkHas(networks[i], a) {
        assert NetworkHas(networks[1..][i-1], a);
      }
    }
  }

  /** Of every address a built policy tells whether it is denied: it is if it is reserved, or in a configured CIDR or a
      subnet of a managed network, or a gateway of one; and each list only denies addresses of its own family. */
  lemma BuiltPolicyDeniesExactly(additional: seq<Cidr>, networks: seq<Network>,
                                 digest: (seq<Prefix>, seq<Prefix>) -> string, a: Address)
    requires Built(additional, networks, digest).Ok? && InFamily(a)
    ensures var p := Built(additional, networks, digest).value;
            && (Denies(p.ipv4, a) || Denies(p.ipv6, a) <==>
                  || Reserved(a) || SomeContains(additional, a)
                  || exists i :: 0 <= i < |networks| && NetworkHas(networks[i], a))
            && (Denies(p.ipv4, a) ==> !a.v6) && (Denies(p.ipv6, a) ==> a.v6)
  {
    var cidrs := BASELINE + additional;
    BuildSucceedsExactly(additional, networks, digest);
    BuildDeniesExactly(cidrs, networks, digest, a);
    SomeInputTwo(Denied(cidrs), OfNetworks(networks), a);
    DeniedDeny(cidrs, a);
    NetworksDeny(networks, a);
    SomeOfTwo(BASELINE, additional, a);
    BaselineExactly(a);
  }

  /** The addresses a sandbox must never reach, whatever is configured: the metadata service of a cloud, and loopback. */
  lemma MetadataIsAlwaysDenied(additional: seq<Cidr>, networks: seq<Network>, digest: (seq<Prefix>, seq<Prefix>) -> string)
    requires Built(additional, networks, digest).Ok?
    ensures var p := Built(additional, networks, digest).value;
            && Denies(p.ipv4, Address(false, Quad(169, 254, 169, 254)))
            && Denies(p.ipv6, Address(true, 1))
  {
    BuiltPolicyDeniesExactly(additional, networks, digest, Address(false, Quad(169, 254, 169, 254)));
    BuiltPolicyDeniesExactly(additional, networks, digest, Address(true, 1));
  }

  /** While 8.8.8.8 is only denied if somebody asks for it. */
  lemma PublicIsNotDenied(digest: (seq<Prefix>, seq<Prefix>) -> string)
    ensures Built([], [], digest).Ok? && !Denies(Built([], [], digest).value.ipv4, Address(false, Quad(8, 8, 8, 8)))
  {
    BuildSucceedsExactly([], [], digest);
    BuiltPolicyDeniesExactly([], [], digest, Address(false, Quad(8, 8, 8, 8)));
  }
}
