/** The capped exponential full-jitter delay (internal/reconcile/backoff.go:14-40). Durations are 64-bit
    nanosecond counts. */
module Backoff {
  import opened Wrappers

  const MAX_ATTEMPT := 63
  const MAX_INT64 := 0x7fff_ffff_ffff_ffff

  newtype Duration = d: int | -0x8000_0000_0000_0000 <= d <= 0x7fff_ffff_ffff_ffff

  function Power(n: nat): nat {
    if n == 0 then 1 else 2 * Power(n - 1)
  }

  /** The cap that is meant, in unbounded numbers. */
  function Capped(minimum: int, maximum: int, attempt: nat): int {
    if minimum * Power(attempt) < maximum then minimum * Power(attempt) else maximum
  }

  lemma {:induction false} PowerGrows(m: nat, n: nat)
    requires m <= n
    ensures 1 <= Power(m) <= Power(n)
    decreases n
  {
    if m < n {
      PowerGrows(m, n - 1);
    } else if m > 0 {
      PowerGrows(m - 1, n - 1);
    }
  }

  lemma Doubled(minimum: int, attempt: nat)
    ensures minimum * Power(attempt + 1) == 2 * (minimum * Power(attempt))
  {
  }

  /** Once the maximum is reached it stays reached. */
  lemma Saturated(minimum: int, maximum: int, m: nat, n: nat)
    requires 0 < minimum && m <= n && minimum * Power(m) >= maximum
    ensures Capped(minimum, maximum, n) == maximum
  {
    PowerGrows(m, n);
    assert minimum * Power(n) >= minimum * Power(m);
  }

  lemma {:induction false} PowerSum(m: nat, n: nat)
    ensures Power(m + n) == Power(m) * Power(n)
  {
    if m > 0 {
      PowerSum(m - 1, n);
      assert 2 * (Power(m - 1) * Power(n)) == (2 * Power(m - 1)) * Power(n);
    }
  }

  lemma PowerOfClamp()
    ensures Power(MAX_ATTEMPT) == MAX_INT64 + 1
  {
    assert Power(7) == 128 && Power(8) == 256;
    PowerSum(8, 8);
    PowerSum(16, 16);
    PowerSum(16, 8);
    PowerSum(24, 7);
    PowerSum(32, 31);
  }

  lemma Clamp(minimum: int, maximum: int, attempt: nat)
    requires 0 < minimum <= maximum <= MAX_INT64
    ensures Capped(minimum, maximum, attempt) == Capped(minimum, maximum, if attempt > MAX_ATTEMPT then MAX_ATTEMPT else attempt)
  {
    if attempt > MAX_ATTEMPT {
      PowerOfClamp();
      assert minimum * Power(MAX_ATTEMPT) >= Power(MAX_ATTEMPT) > maximum;
      Saturated(minimum, maximum, MAX_ATTEMPT, attempt);
    }
  }

  /** The doubling loop in 64-bit arithmetic: no step overflows, and the result is the cap that is meant for
      the attempt itself, which the clamp at 63 never changes. */
  method Cap(attempt: nat, minimum: Duration, maximum: Duration) returns (cap: Duration)
    requires 0 < minimum <= maximum
    ensures cap as int == Capped(minimum as int, maximum as int, attempt)
    ensures minimum <= cap <= maximum
  {
    Clamp(minimum as int, maximum as int, attempt);
    var clamped := if attempt > MAX_ATTEMPT then MAX_ATTEMPT else attempt;
    cap := minimum;
    var step := 0;
    while step < clamped && cap < maximum
      invariant step <= clamped && minimum <= cap <= maximum
      invariant cap as int == Capped(minimum as int, maximum as int, step)
      invariant cap < maximum ==> cap as int == minimum as int * Power(step)
    {
      Doubled(minimum as int, step);
      if cap > maximum - cap {
        Saturated(minimum as int, maximum as int, step + 1, clamped);
        cap := maximum;
        return;
      }
      cap := cap * 2;
      step := step + 1;
    }
    if cap == maximum {
      Saturated(minimum as int, maximum as int, step, clamped);
    }
    if cap > maximum {
      cap := maximum;
    }
  }

  /** `FullJitterBackoff`; the random source answers for the cap it is asked for, or fails. */
  method FullJitterBackoff(attempt: nat, minimum: Duration, maximum: Duration, random: Duration -> Option<Duration>)
    returns (delay: Option<Duration>)
    ensures delay.Some? <==>
              && 0 < minimum <= maximum
              && var value := random(Capped(minimum as int, maximum as int, attempt) as Duration);
                 value.Some? && 0 <= value.value as int < Capped(minimum as int, maximum as int, attempt)
    ensures delay.Some? ==> 0 < delay.value as int <= Capped(minimum as int, maximum as int, attempt)
    ensures delay.Some? ==>
              delay.value as int == random(Capped(minimum as int, maximum as int, attempt) as Duration).value as int + 1
  {
    if minimum <= 0 || maximum < minimum {
      return None;
    }
    var cap := Cap(attempt, minimum, maximum);
    var value := random(cap);
    if value.None? {
      return None;
    }
    if value.value < 0 || value.value >= cap {
      return None;
    }
    return Some(value.value + 1);
  }
}
