/** Instants as the SQLite store writes and compares them: RFC 3339 text with the fraction's trailing zeros
    left out, compared byte by byte (internal/store/sqlite/store.go, section 5.6 of RFC 3339). */
module TimeText {
  import opened Ordering
  import opened Decimal

  /** The end of the year 9999, in nanoseconds since `time.Time{}`, the start of the year 1. */
  const YEAR_10000 := 315_537_897_600_000_000_000

  /** Nanoseconds since `time.Time{}`. In this range the date and time of day have one fixed width. */
  type Instant = t: int | 0 <= t < YEAR_10000

  const SECOND := 1_000_000_000

  /** n in exactly w decimal digits. */
  function Padded(n: nat, w: nat): (s: string)
    ensures |s| == w
    decreases w
  {
    if w == 0 then "" else Padded(n / 10, w - 1) + [DIGITS[n % 10]]
  }

  /** `.999999999` in the layout: trailing zeros are dropped. */
  function Trimmed(s: string): (t: string)
    ensures t <= s
  {
    if s == "" || s[|s|-1] != '0' then s else Trimmed(s[..|s|-1])
  }

  function Fraction(t: Instant): string {
    Trimmed(Padded(t % SECOND, 9))
  }

  /** Date and time of day are written here as the padded count of seconds, which has the same two
      properties: a fixed width, and the order of time. */
  function Seconds(t: Instant): string {
    Padded(t / SECOND, 12)
  }

  /** `Format(time.RFC3339Nano)` in UTC. */
  function Text(t: Instant): string {
    Seconds(t) + (if Fraction(t) == "" then "Z" else "." + Fraction(t) + "Z")
  }

  /** `a < b` in SQL. */
  predicate Earlier(a: Instant, b: Instant) {
    Less(Text(a), Text(b))
  }

  /** The two instants whose texts come in the wrong order: b's fraction goes on where a's stops. */
  predicate Inverted(a: Instant, b: Instant) {
    a / SECOND == b / SECOND && Fraction(a) < Fraction(b)
  }

  /** 9999 years of the Gregorian calendar. */
  lemma YearsAreGregorian()
    ensures YEAR_10000 == (9999 * 365 + 9999 / 4 - 9999 / 100 + 9999 / 400) * 86_400 * 1_000_000_000
  {
  }

  predicate AreDigits(s: string) {
    forall i :: 0 <= i < |s| ==> '0' <= s[i] <= '9'
  }

  lemma {:induction false} PaddedDigits(n: nat, w: nat)
    ensures AreDigits(Padded(n, w))
    decreases w
  {
    if w > 0 {
      PaddedDigits(n / 10, w - 1);
      DigitIs(n % 10);
    }
  }

  lemma {:induction false} PaddedOrder(m: nat, n: nat, w: nat)
    requires m < n < Pow10(w)
    ensures Less(Padded(m, w), Padded(n, w))
    decreases w
  {
    var p, q := Padded(m / 10, w - 1), Padded(n / 10, w - 1);
    if m / 10 == n / 10 {
      LessCommonPrefix(p, [DIGITS[m % 10]], [DIGITS[n % 10]]);
      DigitIs(m % 10);
      DigitIs(n % 10);
    } else {
      PaddedOrder(m / 10, n / 10, w - 1);
      if p == q {
        LessIrreflexive(p);
      }
      LessFixedWidth(p, q, [DIGITS[m % 10]], [DIGITS[n % 10]]);
    }
  }

  /** Texts that part before either of them ends are ordered where they part. */
  lemma {:induction false} LessWherePart(p: string, q: string, a: string, b: string)
    requires !(p <= q) && !(q <= p)
    ensures Less(p + a, q + b) == Less(p, q)
    decreases |p|
  {
    assert p != "" && q != "";
    assert (p + a)[0] == p[0] && (q + b)[0] == q[0];
    if p[0] == q[0] {
      assert p == [p[0]] + p[1..] && q == [q[0]] + q[1..];
      assert (p + a)[1..] == p[1..] + a && (q + b)[1..] == q[1..] + b;
      LessWherePart(p[1..], q[1..], a, b);
    }
  }

  lemma {:induction false} NothingBelowZeros(x: string, z: string)
    requires |x| == |z| && AreDigits(x) && forall i :: 0 <= i < |z| ==> z[i] == '0'
    ensures !Less(x, z)
    decreases |x|
  {
    if x != "" && x[0] == z[0] {
      NothingBelowZeros(x[1..], z[1..]);
    }
  }

  lemma {:induction false} TrimmedZeros(s: string)
    ensures forall i :: |Trimmed(s)| <= i < |s| ==> s[i] == '0'
    ensures s == Trimmed(s) + s[|Trimmed(s)|..]
  {
    if s != "" && s[|s|-1] == '0' {
      TrimmedZeros(s[..|s|-1]);
    }
  }

  /** The smaller of two fractions of one width is never the longer one with the same beginning. */
  lemma SmallerIsNotLonger(s: string, t: string)
    requires |s| == |t| && AreDigits(s) && Less(s, t)
    ensures !(Trimmed(t) <= Trimmed(s))
  {
    TrimmedZeros(t);
    var p := Trimmed(t);
    if p <= Trimmed(s) {
      assert s == p + s[|p|..];
      NotBelow(p, s[|p|..], t[|p|..]);
    }
  }

  lemma NotBelow(p: string, x: string, z: string)
    requires |x| == |z| && AreDigits(x) && forall i :: 0 <= i < |z| ==> z[i] == '0'
    ensures !Less(p + x, p + z)
  {
    LessCommonPrefix(p, x, z);
    NothingBelowZeros(x, z);
  }

  function Tail(fraction: string): string {
    if fraction == "" then "Z" else "." + fraction + "Z"
  }

  /** Within one second, two fractions with f < g as numbers. */
  lemma FractionOrder(s: string, t: string)
    requires |s| == |t| && AreDigits(s) && AreDigits(t) && Less(s, t)
    ensures Less(Tail(Trimmed(s)), Tail(Trimmed(t))) <==> !(Trimmed(s) <= Trimmed(t))
    ensures Less(Tail(Trimmed(t)), Tail(Trimmed(s))) <==> Trimmed(s) <= Trimmed(t)
  {
    var f, g := Trimmed(s), Trimmed(t);
    SmallerIsNotLonger(s, t);
    if f <= g {
      GoesOn(f, g);
    } else {
      PartsBefore(s, t);
    }
  }

  lemma GoesOn(f: string, g: string)
    requires f < g && AreDigits(g)
    ensures Less(Tail(g), Tail(f)) && !Less(Tail(f), Tail(g))
  {
    if f != "" {
      var rest := g[|f|..] + "Z";
      assert Tail(g) == ("." + f) + rest && Tail(f) == ("." + f) + "Z";
      assert rest[0] == g[|f|];
      LessCommonPrefix("." + f, rest, "Z");
      LessCommonPrefix("." + f, "Z", rest);
    }
  }

  lemma PartsBefore(s: string, t: string)
    requires |s| == |t| && Less(s, t)
    requires !(Trimmed(s) <= Trimmed(t)) && !(Trimmed(t) <= Trimmed(s))
    ensures Less(Tail(Trimmed(s)), Tail(Trimmed(t))) && !Less(Tail(Trimmed(t)), Tail(Trimmed(s)))
  {
    var f, g := Trimmed(s), Trimmed(t);
    TrimmedZeros(s);
    TrimmedZeros(t);
    LessWherePart(f, g, s[|f|..], t[|g|..]);
    LessWherePart(f, g, "Z", "Z");
    assert Tail(f) == "." + (f + "Z") && Tail(g) == "." + (g + "Z");
    LessCommonPrefix(".", f + "Z", g + "Z");
    if Less(Tail(g), Tail(f)) {
      LessTransitive(Tail(f), Tail(g), Tail(f));
      LessIrreflexive(Tail(f));
    }
  }

  lemma SecondsOrder(a: Instant, b: Instant)
    requires a / SECOND < b / SECOND
    ensures Earlier(a, b) && !Earlier(b, a)
  {
    Pow10Twelve();
    PaddedOrder(a / SECOND, b / SECOND, 12);
    var p, q := Seconds(a), Seconds(b);
    if p == q {
      LessIrreflexive(p);
    }
    LessFixedWidth(p, q, Tail(Fraction(a)), Tail(Fraction(b)));
    if Earlier(b, a) {
      LessTransitive(Text(a), Text(b), Text(a));
      LessIrreflexive(Text(a));
    }
  }

  lemma Pow10Twelve()
    ensures Pow10(9) == 1_000_000_000 && Pow10(12) == 1_000_000_000_000
  {
    assert Pow10(4) == 10_000;
    assert Pow10(8) == 10_000 * Pow10(4);
    assert Pow10(12) == 10_000 * Pow10(8);
  }

  /** The text comparison agrees with the order of time exactly when the fractions are not inverted; then
      it says the opposite. */
  lemma TextOrder(a: Instant, b: Instant)
    requires a < b
    ensures Earlier(a, b) <==> !Inverted(a, b)
    ensures Earlier(b, a) <==> Inverted(a, b)
  {
    if a / SECOND < b / SECOND {
      SecondsOrder(a, b);
    } else {
      assert a / SECOND == b / SECOND && a % SECOND < b % SECOND;
      Pow10Twelve();
      var s, t := Padded(a % SECOND, 9), Padded(b % SECOND, 9);
      PaddedDigits(a % SECOND, 9);
      PaddedDigits(b % SECOND, 9);
      PaddedOrder(a % SECOND, b % SECOND, 9);
      FractionOrder(s, t);
      SmallerIsNotLonger(s, t);
      LessCommonPrefix(Seconds(a), Tail(Fraction(a)), Tail(Fraction(b)));
      LessCommonPrefix(Seconds(a), Tail(Fraction(b)), Tail(Fraction(a)));
    }
  }

  /** Only an earlier instant can be inverted with a later one. */
  lemma InvertedIsBefore(a: Instant, b: Instant)
    requires Inverted(a, b)
    ensures a < b
  {
    if b < a {
      assert b % SECOND < a % SECOND;
      Pow10Twelve();
      PaddedOrder(b % SECOND, a % SECOND, 9);
      PaddedDigits(b % SECOND, 9);
      SmallerIsNotLonger(Padded(b % SECOND, 9), Padded(a % SECOND, 9));
    }
  }

  /** Different instants have different texts. */
  lemma TextIsInjective(a: Instant, b: Instant)
    requires Text(a) == Text(b)
    ensures a == b
  {
    LessIrreflexive(Text(a));
    if a < b {
      TextOrder(a, b);
    } else if b < a {
      TextOrder(b, a);
    }
  }

  /** Half a second past a full second sorts before the full second. */
  lemma HalfPastSortsFirst()
    ensures Inverted(2_000_000_000, 2_500_000_000) && Earlier(2_500_000_000, 2_000_000_000)
  {
    NoFraction(9);
    PaddedHalf();
    TextOrder(2_000_000_000, 2_500_000_000);
  }

  lemma {:induction false} NoFraction(w: nat)
    ensures Trimmed(Padded(0, w)) == ""
    decreases w
  {
    if w > 0 {
      NoFraction(w - 1);
      assert Padded(0, w)[..w-1] == Padded(0, w - 1);
    }
  }

  lemma PaddedHalf()
    ensures Fraction(500_000_000) != ""
  {
    Pow10Twelve();
    PaddedOrder(0, 500_000_000, 9);
    SmallerIsNotLonger(Padded(0, 9), Padded(500_000_000, 9));
  }
}
