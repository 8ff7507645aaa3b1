/** The retry delay policy: a failed job waits `base ^ attempts` seconds
    before it becomes eligible again. */
module Backoff {

  /** `base` raised to the power `e`, as Python's integer `**` computes it. */
  function Pow(base: int, e: nat): int
  {
    if e == 0 then 1 else base * Pow(base, e - 1)
  }

  /** Seconds to wait after the `attempts`-th failure: nothing before the
      first failure (or for a defensive non-positive count), never a
      negative wait for a non-negative base, and at least a second for a
      positive one. */
  function ComputeBackoff(base: int, attempts: int): (r: int)
    ensures attempts <= 0 ==> r == 0
    ensures base >= 0 ==> r >= 0
    ensures base >= 1 && attempts >= 1 ==> r >= 1
  {
    if attempts <= 0 then 0
    else
      if base >= 1 then PowPositive(base, attempts); Pow(base, attempts)
      else if base >= 0 then PowNonNegative(base, attempts); Pow(base, attempts)
      else Pow(base, attempts)
  }

  /** The first retry waits exactly `base` seconds. */
  lemma FirstRetryWaitsBase(base: int)
    ensures ComputeBackoff(base, 1) == base
  {
    assert Pow(base, 1) == base * Pow(base, 0);
  }

  /** Each further failure multiplies the delay by `base`. */
  lemma NextDelayIsScaledByBase(base: int, attempts: int)
    requires attempts >= 1
    ensures ComputeBackoff(base, attempts + 1) == base * ComputeBackoff(base, attempts)
  {
  }

  lemma {:induction false} PowNonNegative(base: int, e: nat)
    requires base >= 0
    ensures Pow(base, e) >= 0
  {
    if e > 0 {
      PowNonNegative(base, e - 1);
    }
  }

  lemma {:induction false} PowPositive(base: int, e: nat)
    requires base >= 1
    ensures Pow(base, e) >= 1
  {
    if e > 0 {
      PowPositive(base, e - 1);
    }
  }

  /** For base >= 2 the delay strictly grows with every extra failure:
      the backoff is exponential, not constant. */
  lemma {:induction false} DelayStrictlyIncreasing(base: int, a: int, b: int)
    requires base >= 2
    requires 0 <= a < b
    ensures ComputeBackoff(base, a) < ComputeBackoff(base, b)
    decreases b - a
  {
    if b == a + 1 {
      if a == 0 {
        FirstRetryWaitsBase(base);
      } else {
        PowPositive(base, a);
        assert ComputeBackoff(base, b) == base * ComputeBackoff(base, a);
      }
    } else {
      DelayStrictlyIncreasing(base, a, b - 1);
      DelayStrictlyIncreasing(base, b - 1, b);
    }
  }
}
