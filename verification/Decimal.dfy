/** Unsigned decimal numbers as `strconv.FormatUint` writes and `strconv.ParseUint` reads them. */
module Decimal {
  import opened Wrappers

  const UINT64_LIMIT := 0x1_0000_0000_0000_0000

  const DIGITS := "0123456789"

  function Format(n: nat): string {
    if n < 10 then [DIGITS[n]] else Format(n / 10) + [DIGITS[n % 10]]
  }

  predicate AllDigits(s: string) {
    forall i :: 0 <= i < |s| ==> '0' <= s[i] <= '9'
  }

  function Value(s: string): nat
    requires AllDigits(s)
  {
    if s == "" then 0 else Value(s[..|s|-1]) * 10 + (s[|s|-1] as int - '0' as int)
  }

  function Parse(s: string): Option<nat> {
    if s == "" || !AllDigits(s) || Value(s) >= UINT64_LIMIT then None else Some(Value(s))
  }

  lemma DigitIs(d: nat)
    requires d < 10
    ensures DIGITS[d] as int == '0' as int + d
  {
    assert d == 0 || d == 1 || d == 2 || d == 3 || d == 4 || d == 5 || d == 6 || d == 7 || d == 8 || d == 9;
  }

  lemma {:induction false} FormatValue(n: nat)
    ensures AllDigits(Format(n)) && Value(Format(n)) == n && Format(n) != ""
  {
    DigitIs(n % 10);
    if n < 10 {
      assert Format(n)[..0] == "";
    } else {
      FormatValue(n / 10);
      assert Format(n)[..|Format(n)|-1] == Format(n / 10);
    }
  }

  lemma ParseFormat(n: nat)
    requires n < UINT64_LIMIT
    ensures Parse(Format(n)) == Some(n)
  {
    FormatValue(n);
  }

  /** Without leading zeros a text is the format of its value: what the decoder's second check pins down. */
  lemma FormatIsInjective(m: nat, n: nat)
    requires Format(m) == Format(n)
    ensures m == n
  {
    FormatValue(m);
    FormatValue(n);
  }

  function Pow10(k: nat): nat {
    if k == 0 then 1 else 10 * Pow10(k - 1)
  }

  lemma {:induction false} FormatLength(n: nat, k: nat)
    requires k > 0 && n < Pow10(k)
    ensures 1 <= |Format(n)| <= k
  {
    if n >= 10 {
      assert k > 1;
      FormatLength(n / 10, k - 1);
    }
  }

  lemma Uint64Length(n: nat)
    requires n < UINT64_LIMIT
    ensures 1 <= |Format(n)| <= 20
  {
    assert Pow10(4) == 10_000;
    assert Pow10(8) == 10_000 * Pow10(4);
    assert Pow10(12) == 10_000 * Pow10(8);
    assert Pow10(16) == 10_000 * Pow10(12);
    assert Pow10(20) == 10_000 * Pow10(16);
    FormatLength(n, 20);
  }
}
