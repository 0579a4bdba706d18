/**
 * The two exponential backoffs: the retry queue's doubling loop and the vault
 * sync's shift, both in wrapping int64 nanoseconds.
 */
module Backoff {
  import opened Int64s

  const SECOND: int64 := 1_000_000_000
  const DEFAULT_BASE_BACKOFF: int64 := SECOND
  const DEFAULT_MAX_BACKOFF: int64 := 300_000_000_000
  const SYNC_MAX_BACKOFF: int64 := 30_000_000_000

  function Pow2(n: nat): (r: nat)
    ensures r >= 1
  {
    if n == 0 then 1 else 2 * Pow2(n - 1)
  }

  function Min(a: int, b: int): int {
    if a <= b then a else b
  }

  /** backoff after n more doublings with the loop's early exit. */
  function DoubleOrCap(backoff: int64, maxBackoff: int64, n: nat): int64
    decreases n
  {
    if n == 0 then backoff
    else
      var doubled := Wrap(backoff * 2);
      if doubled > maxBackoff then maxBackoff else DoubleOrCap(doubled, maxBackoff, n - 1)
  }

  function Delay(baseBackoff: int64, maxBackoff: int64, attempt: int64): int64 {
    if attempt <= 0 then 0 else DoubleOrCap(baseBackoff, maxBackoff, attempt - 1)
  }

  /** What the comment in the code promises: base * 2^(attempt-1), capped. */
  function Promised(baseBackoff: int64, maxBackoff: int64, attempt: int64): int {
    if attempt <= 0 then 0 else Min(baseBackoff * Pow2(attempt - 1), maxBackoff)
  }

  /** The first doubling of backoff, itself included, that is above maxBackoff. */
  function FirstAbove(backoff: int, maxBackoff: int): int
    requires backoff > 0
    decreases maxBackoff - backoff
  {
    if backoff > maxBackoff then backoff else FirstAbove(2 * backoff, maxBackoff)
  }

  /** A check on the configuration alone. */
  predicate Sound(baseBackoff: int64, maxBackoff: int64)
    requires baseBackoff > 0
  {
    baseBackoff <= maxBackoff && FirstAbove(baseBackoff, maxBackoff) <= MAX_INT64
  }

  lemma MulMonotone(c: int, x: int, y: int)
    requires 0 < c && x <= y
    ensures c * x <= c * y
  {
  }

  lemma DoubleTimes(b: int, n: nat)
    requires n > 0
    ensures b * Pow2(n) == 2 * b * Pow2(n - 1)
  {
  }

  lemma TimesAtLeast(b: int, n: nat)
    requires b > 0
    ensures b * Pow2(n) >= b
  {
    MulMonotone(b, 1, Pow2(n));
  }

  lemma DoubleWithin(b: int64)
    requires 0 <= b && 2 * b <= MAX_INT64
    ensures Wrap(b * 2) == 2 * b
  {
  }

  lemma {:induction false} SoundDoubling(b: int64, max: int64, n: nat)
    requires 0 < b <= max && FirstAbove(b, max) <= MAX_INT64
    ensures DoubleOrCap(b, max, n) == Min(b * Pow2(n), max)
    decreases n
  {
    if n > 0 {
      FirstAboveIsAbove(2 * b, max);
      DoubleWithin(b);
      DoubleTimes(b, n);
      hide Pow2, Wrap;
      if 2 * b <= max {
        SoundDoubling(2 * b, max, n - 1);
      } else {
        TimesAtLeast(2 * b, n - 1);
      }
    }
  }

  lemma {:induction false} FirstAboveIsAbove(b: int, max: int)
    requires b > 0
    ensures FirstAbove(b, max) > max && FirstAbove(b, max) >= b
    decreases max - b
  {
    if b <= max {
      FirstAboveIsAbove(2 * b, max);
    }
  }

  /** Otherwise some number of doublings overflows to a negative delay. */
  lemma {:induction false} UnsoundDoubling(b: int64, max: int64, k: nat) returns (n: nat)
    requires 0 < b <= max && FirstAbove(b, max) > MAX_INT64 && Pow2(k) <= b
    ensures DoubleOrCap(b, max, n) < 0 && n + k <= 63
    decreases max - b
  {
    SmallExponent(k);
    if 2 * b > max {
      var w := Wrap(b * 2);
      assert w == 2 * b - TWO_TO_THE_64;
      assert DoubleOrCap(w, max, 0) == w;
      n := 1;
    } else {
      assert Wrap(b * 2) == 2 * b;
      n := UnsoundDoubling(2 * b, max, k + 1);
      n := n + 1;
    }
  }

  lemma SmallExponent(k: nat)
    requires Pow2(k) <= MAX_INT64
    ensures k <= 62
  {
    if k > 62 {
      Pow2Monotone(63, k);
      Pow2Values();
    }
  }

  lemma {:induction false} Pow2Monotone(a: nat, b: nat)
    requires a <= b
    ensures Pow2(a) <= Pow2(b)
    decreases b
  {
    if a < b {
      Pow2Monotone(a, b - 1);
    }
  }

  lemma {:induction false} Pow2Sum(a: nat, b: nat)
    ensures Pow2(a + b) == Pow2(a) * Pow2(b)
    decreases b
  {
    if b > 0 {
      Pow2Sum(a, b - 1);
    }
  }

  lemma Pow2Seven()
    ensures Pow2(5) == 32 && Pow2(6) == 64 && Pow2(7) == 128
  {
    assert Pow2(1) == 2 && Pow2(2) == 4 && Pow2(3) == 8 && Pow2(4) == 16;
  }

  lemma Pow2Square(a: nat, value: nat)
    requires Pow2(a) == value
    ensures Pow2(a + a) == value * value
  {
    Pow2Sum(a, a);
  }

  lemma Pow2Values()
    ensures Pow2(33) == 0x2_0000_0000 && Pow2(34) == 0x4_0000_0000 && Pow2(63) == 0x8000_0000_0000_0000
  {
    Pow2Seven();
    hide Pow2;
    Pow2Square(7, 128);
    Pow2Square(14, 0x4000);
    Pow2Square(28, 0x1000_0000);
    Pow2Sum(28, 5);
    Pow2Sum(28, 6);
    Pow2Sum(56, 7);
  }

  /**
   * The loop computes the promised capped exponential for every attempt exactly
   * when the base does not exceed the cap and the first doubling above the cap
   * is still an int64.
   */
  lemma BackoffIsPromisedIff(baseBackoff: int64, maxBackoff: int64)
    requires 0 < baseBackoff && 0 < maxBackoff
    ensures (forall attempt: int64 :: Delay(baseBackoff, maxBackoff, attempt) == Promised(baseBackoff, maxBackoff, attempt))
       <==> Sound(baseBackoff, maxBackoff)
  {
    if Sound(baseBackoff, maxBackoff) {
      forall attempt: int64
        ensures Delay(baseBackoff, maxBackoff, attempt) == Promised(baseBackoff, maxBackoff, attempt)
      {
        if attempt > 0 {
          SoundDoubling(baseBackoff, maxBackoff, attempt - 1);
        }
      }
    } else if baseBackoff > maxBackoff {
      assert Delay(baseBackoff, maxBackoff, 1) == baseBackoff;
      assert Pow2(0) == 1;
      assert Promised(baseBackoff, maxBackoff, 1) == maxBackoff;
    } else {
      var n := UnsoundDoubling(baseBackoff, maxBackoff, 0);
      assert Delay(baseBackoff, maxBackoff, n + 1) < 0;
      assert Promised(baseBackoff, maxBackoff, n + 1) >= 0 by {
        assert baseBackoff * Pow2(n) >= 0;
      }
    }
  }

  /** For instance NewRetryQueue(500ms, nil): the base of one second is above the cap and is the first delay. */
  lemma HalfSecondCap()
    ensures Delay(DEFAULT_BASE_BACKOFF, SECOND / 2, 1) == SECOND
    ensures Promised(DEFAULT_BASE_BACKOFF, SECOND / 2, 1) == SECOND / 2
  {
    assert Pow2(0) == 1;
  }

  lemma {:induction false} DoublesBelowCap(b: int64, max: int64, n: nat, more: nat)
    requires 0 < b && b * Pow2(n) <= max
    ensures b * Pow2(n) <= MAX_INT64 && DoubleOrCap(b, max, n + more) == DoubleOrCap(b * Pow2(n), max, more)
    decreases n
  {
    if n > 0 {
      DoubleTimes(b, n);
      TimesAtLeast(2 * b, n - 1);
      DoubleWithin(b);
      hide Pow2, Wrap;
      DoublesBelowCap(2 * b, max, n - 1, more);
    }
  }

  /** And with a cap of 2^33 seconds, which is about 272 years, the 35th attempt waits a negative time. */
  lemma HugeCap()
    ensures SECOND * 0x2_0000_0000 <= MAX_INT64
    ensures Delay(DEFAULT_BASE_BACKOFF, SECOND * 0x2_0000_0000, 35) < 0
  {
    Pow2Values();
    var max: int64 := SECOND * 0x2_0000_0000;
    DoublesBelowCap(SECOND, max, 33, 1);
    assert Wrap(max * 2) == 2 * max - TWO_TO_THE_64;
    assert DoubleOrCap(Wrap(max * 2), max, 0) == Wrap(max * 2);
  }

  lemma {:induction false} FirstAbovePower(b: int, max: int, k: nat)
    requires b > 0
    ensures max < b * Pow2(k) ==> FirstAbove(b, max) <= b * Pow2(k)
    ensures max >= b * Pow2(k) ==> FirstAbove(b, max) >= b * Pow2(k + 1)
    decreases k
  {
    if k == 0 {
      if max >= b {
        FirstAboveIsAbove(2 * b, max);
      }
    } else {
      DoubleTimes(b, k);
      DoubleTimes(b, k + 1);
      TimesAtLeast(2 * b, k - 1);
      hide Pow2;
      if b <= max {
        FirstAbovePower(2 * b, max, k - 1);
      }
    }
  }

  /** With the queue's base of one second: a cap from 1s up to but excluding 2^33 s. */
  lemma QueueBackoffSoundIff(maxBackoff: int64)
    ensures Sound(DEFAULT_BASE_BACKOFF, maxBackoff) <==> SECOND <= maxBackoff < SECOND * 0x2_0000_0000
  {
    FirstAbovePower(SECOND, maxBackoff, 33);
    Pow2Values();
  }

  /** Longer for every failure, from the base up to the cap. */
  lemma DelayMonotone(baseBackoff: int64, maxBackoff: int64, a: int64, b: int64)
    requires 0 < baseBackoff && Sound(baseBackoff, maxBackoff) && a <= b
    ensures 0 <= Delay(baseBackoff, maxBackoff, a) <= Delay(baseBackoff, maxBackoff, b) <= maxBackoff
    ensures 0 < a ==> baseBackoff <= Delay(baseBackoff, maxBackoff, a)
  {
    BackoffIsPromisedIff(baseBackoff, maxBackoff);
    assert Delay(baseBackoff, maxBackoff, a) == Promised(baseBackoff, maxBackoff, a);
    assert Delay(baseBackoff, maxBackoff, b) == Promised(baseBackoff, maxBackoff, b);
    if 0 < a {
      Pow2Monotone(a - 1, b - 1);
      MulMonotone(baseBackoff, Pow2(a - 1), Pow2(b - 1));
      MulMonotone(baseBackoff, 1, Pow2(a - 1));
    } else if 0 < b {
      MulMonotone(baseBackoff, 1, Pow2(b - 1));
    }
  }

  /** A sound loop that has not left early has really doubled, and is within the cap. */
  ghost predicate OnCourse(baseBackoff: int64, maxBackoff: int64, backoff: int64, rounds: nat) {
    0 < baseBackoff && Sound(baseBackoff, maxBackoff) ==>
      && backoff == baseBackoff * Pow2(rounds)
      && 0 < backoff <= maxBackoff
      && FirstAbove(backoff, maxBackoff) <= MAX_INT64
  }

  lemma StayOnCourse(baseBackoff: int64, maxBackoff: int64, backoff: int64, rounds: nat)
    requires OnCourse(baseBackoff, maxBackoff, backoff, rounds)
    ensures Wrap(backoff * 2) <= maxBackoff ==> OnCourse(baseBackoff, maxBackoff, Wrap(backoff * 2), rounds + 1)
  {
    if 0 < baseBackoff && Sound(baseBackoff, maxBackoff) {
      FirstAboveIsAbove(2 * backoff, maxBackoff);
      assert baseBackoff * Pow2(rounds + 1) == 2 * (baseBackoff * Pow2(rounds));
    }
  }

  /** The source's loop; `rounds` counts its iterations, about log2(max/base) + 1 at most. */
  method CalculateBackoff(baseBackoff: int64, maxBackoff: int64, attempt: int64) returns (backoff: int64, ghost rounds: nat)
    ensures backoff == Delay(baseBackoff, maxBackoff, attempt)
    ensures 0 < baseBackoff && Sound(baseBackoff, maxBackoff) && rounds > 0 ==> baseBackoff * Pow2(rounds - 1) <= maxBackoff
  {
    rounds := 0;
    if attempt <= 0 {
      return 0, 0;
    }
    backoff := baseBackoff;
    ghost var earlier := baseBackoff;
    for i := 1 to attempt
      invariant DoubleOrCap(backoff, maxBackoff, attempt - i) == DoubleOrCap(baseBackoff, maxBackoff, attempt - 1)
      invariant rounds == i - 1
      invariant OnCourse(baseBackoff, maxBackoff, backoff, rounds)
      invariant rounds > 0 ==> OnCourse(baseBackoff, maxBackoff, earlier, rounds - 1)
    {
      StayOnCourse(baseBackoff, maxBackoff, backoff, rounds);
      earlier := backoff;
      backoff := Wrap(backoff * 2);
      rounds := rounds + 1;
      if backoff > maxBackoff {
        return maxBackoff, rounds;
      }
    }
  }

  // ----- the shift form -----

  /** backoffSleep's duration: the shift, the product and their wrapping. */
  function ShiftDelay(attempt: nat): int64 {
    var backoff := Wrap(SECOND * Wrap(Pow2(attempt)));
    if backoff > SYNC_MAX_BACKOFF then SYNC_MAX_BACKOFF else backoff
  }

  predicate ShiftAgrees(attempt: nat) {
    attempt < MAX_INT64 && ShiftDelay(attempt) == Delay(SECOND, SYNC_MAX_BACKOFF, attempt + 1)
  }

  lemma ShiftAgreesUpTo33(attempt: nat)
    requires attempt <= 33
    ensures ShiftAgrees(attempt) && ShiftDelay(attempt) == Min(SECOND * Pow2(attempt), 30 * SECOND)
  {
    QueueBackoffSoundIff(SYNC_MAX_BACKOFF);
    SoundDoubling(SECOND, SYNC_MAX_BACKOFF, attempt);
    Pow2Monotone(attempt, 33);
    Pow2Values();
    assert Wrap(Pow2(attempt)) == Pow2(attempt);
    assert Wrap(SECOND * Pow2(attempt)) == SECOND * Pow2(attempt);
  }

  /** At the 34th the product overflows and the sleep is negative, that is, none. */
  lemma ShiftOverflowsAt34()
    ensures ShiftDelay(34) < 0 && !ShiftAgrees(34)
  {
    Pow2Values();
    QueueBackoffSoundIff(SYNC_MAX_BACKOFF);
    SoundDoubling(SECOND, SYNC_MAX_BACKOFF, 34);
  }

  /** The two backoffs agree on a whole retry schedule exactly up to 33 retries after the first. */
  lemma BackoffsAgreeIff(n: nat)
    ensures (forall attempt: nat :: attempt <= n ==> ShiftAgrees(attempt)) <==> n <= 33
  {
    ShiftOverflowsAt34();
    forall attempt: nat | attempt <= 33 {
      ShiftAgreesUpTo33(attempt);
    }
  }
}
