/** internal/transport/backoff.go: reconnect delays that double up to a cap, on 64-bit durations. */
module Backoff {
  import opened Protocol
  import opened Retry

  const TWO62: int := 0x4000_0000_0000_0000

  /** The base delay after one more call, including the wrap-around of the doubling. */
  function NextBase(min: int, max: int, next: int): int {
    if next == 0 then min
    else
      var doubled := Wrap64(next * 2);
      if doubled > max then max else doubled
  }

  /** Conversion of a real number of nanoseconds to a duration truncates toward zero. */
  function Truncate(x: real): int { if x >= 0.0 then x.Floor else -((-x).Floor) }

  class Backoff {
    const min: int
    const max: int
    const jitter: real
    var next: int

    constructor (minDelay: int, maxDelay: int, jitter: real)
      requires minDelay <= MAX_INT64 && maxDelay <= MAX_INT64
      ensures next == 0 && 0 < min <= max <= MAX_INT64 && this.jitter >= 0.0
      ensures min == if minDelay > 0 then minDelay else 1_000_000_000
      ensures this.jitter == if jitter > 0.0 then jitter else 0.0
      ensures maxDelay >= min ==> max == maxDelay
      ensures maxDelay < min ==> max == min
    {
      min := if minDelay <= 0 then SECOND else minDelay;
      var low := if minDelay <= 0 then SECOND else minDelay;
      max := if maxDelay < low then low else maxDelay;
      this.jitter := if jitter < 0.0 then 0.0 else jitter;
      next := 0;
    }

    /** The next delay: the base doubled and capped, then spread by a random factor r in [0, 1). */
    method Next(r: real) returns (delay: int)
      requires 0.0 <= r < 1.0 && jitter >= 0.0
      modifies this`next
      ensures next == NextBase(min, max, old(next))
      ensures delay == if jitter == 0.0 then next else Jittered(next, jitter, r)
    {
      if next == 0 {
        next := min;
      } else {
        next := Wrap64(next * 2);
        if next > max {
          next := max;
        }
      }
      if jitter == 0.0 {
        return next;
      }
      var base := next;
      var delta := base as real * jitter;
      var offset := Offset(delta, r);
      assert base as real + offset == Spread(base, jitter, r);
      delay := Truncate(base as real + offset);
      if delay < 0 {
        delay := 0;
      }
    }

    method Reset()
      modifies this`next
      ensures next == 0
    {
      next := 0;
    }
  }

  function Spread(base: int, jitter: real, r: real): real {
    base as real + Offset(base as real * jitter, r)
  }

  function Offset(delta: real, r: real): real { (r * 2.0 - 1.0) * delta }

  function Clamped(x: real): int { if Truncate(x) < 0 then 0 else Truncate(x) }

  function Jittered(base: int, jitter: real, r: real): int { Clamped(Spread(base, jitter, r)) }

  /** The spread delay runs evenly from base * (1 - jitter) at r = 0 to base * (1 + jitter) at r = 1. */
  lemma SpreadExactly(base: int, jitter: real, r: real)
    ensures Spread(base, jitter, 0.0) == base as real - base as real * jitter
    ensures Spread(base, jitter, 1.0) == base as real + base as real * jitter
    ensures Spread(base, jitter, r) == Spread(base, jitter, 0.0) + r * (Spread(base, jitter, 1.0) - Spread(base, jitter, 0.0))
  {
    var delta := base as real * jitter;
    assert Offset(delta, 0.0) == -delta && Offset(delta, 1.0) == delta;
    assert Offset(delta, r) == r * (2.0 * delta) - delta;
  }

  /** Conversion drops the fraction, and a negative delay becomes none. */
  lemma ClampedExactly(x: real)
    ensures x <= 0.0 ==> Clamped(x) == 0
    ensures x >= 0.0 ==> Clamped(x) as real <= x < Clamped(x) as real + 1.0
  {
    if x < 0.0 { assert (-x).Floor >= 0; }
  }

  lemma ClampedNear(x: real, low: real, high: real)
    requires low <= x <= high && 0.0 <= high
    ensures 0 <= Clamped(x) && low - 1.0 < Clamped(x) as real <= high
  {
  }

  /** The spread delay is never negative and stays within the jitter band around the base (a
      nanosecond below it at most, for the truncation). */
  lemma JitterBand(base: int, jitter: real, r: real)
    requires base >= 0 && jitter > 0.0 && 0.0 <= r < 1.0
    ensures var delta := base as real * jitter;
            && 0 <= Jittered(base, jitter, r)
            && base as real - delta - 1.0 < Jittered(base, jitter, r) as real <= base as real + delta
  {
    var delta := base as real * jitter;
    NonNegative(base as real, jitter);
    OffsetBound(delta, r);
    var offset := Offset(delta, r);
    assert Spread(base, jitter, r) == base as real + offset;
    ClampedNear(base as real + offset, base as real - delta, base as real + delta);
  }

  lemma NonNegative(a: real, b: real)
    requires a >= 0.0 && b >= 0.0
    ensures a * b >= 0.0
  {
  }

  lemma OffsetBound(delta: real, r: real)
    requires 0.0 <= delta && 0.0 <= r < 1.0
    ensures -delta <= Offset(delta, r) <= delta
  {
    assert Offset(delta, r) == 2.0 * (r * delta) - delta;
    assert 0.0 <= r * delta;
    assert r * delta <= delta by { assert (1.0 - r) * delta >= 0.0; }
  }

  // ----- the sequence of base delays -----

  /** The base delay of the k-th call after a reset. */
  function BaseAfter(min: int, max: int, k: nat): int {
    if k == 0 then 0 else NextBase(min, max, BaseAfter(min, max, k - 1))
  }

  /** The law: min doubled k - 1 times, capped at max. */
  function CappedDouble(min: int, max: int, k: nat): int
    requires k >= 1
  {
    Min(max, min * Pow2(k - 1))
  }

  /** Below 2^62 doubling does not overflow. */
  lemma DoublesBelow(min: int, max: int, b: int)
    requires 0 < b < TWO62
    ensures NextBase(min, max, b) == Min(max, 2 * b)
  {
  }

  lemma CappedDoubleStep(min: int, max: int, k: nat)
    requires k >= 1 && 0 < min <= max
    ensures CappedDouble(min, max, k + 1) == Min(max, 2 * CappedDouble(min, max, k))
  {
  }

  lemma {:induction false} LawHoldsBelow(min: int, max: int, k: nat)
    requires 0 < min <= max < TWO62 && k >= 1
    ensures BaseAfter(min, max, k) == CappedDouble(min, max, k)
  {
    if k > 1 {
      LawHoldsBelow(min, max, k - 1);
      DoublingGrows(min, k - 2);
      DoublesBelow(min, max, BaseAfter(min, max, k - 1));
      CappedDoubleStep(min, max, k - 1);
    }
  }

  /** Doubling a positive delay eventually reaches 2^62. */
  lemma {:induction false} DoublingGrows(min: int, k: nat)
    requires min > 0
    ensures min * Pow2(k) >= k + 1
  {
    if k > 0 {
      DoublingGrows(min, k - 1);
      assert min * Pow2(k) == 2 * (min * Pow2(k - 1));
    }
  }

  /** With a cap of 2^62 or more some call overflows: the doubled delay wraps below zero. */
  lemma LawBreaksAbove(min: int, max: int) returns (k: nat)
    requires 0 < min <= max <= MAX_INT64 && max >= TWO62
    ensures k >= 1 && BaseAfter(min, max, k) != CappedDouble(min, max, k)
  {
    k := 1;
    while CappedDouble(min, max, k) < TWO62
      invariant k >= 1 && BaseAfter(min, max, k) == CappedDouble(min, max, k)
      decreases TWO62 - k
    {
      DoublingGrows(min, k - 1);
      DoublesBelow(min, max, BaseAfter(min, max, k));
      CappedDoubleStep(min, max, k);
      k := k + 1;
    }
    WrapsNegative(BaseAfter(min, max, k));
    CappedDoubleStep(min, max, k);
    k := k + 1;
  }

  lemma WrapsNegative(b: int)
    requires TWO62 <= b <= MAX_INT64
    ensures Wrap64(b * 2) < 0
  {
  }

  /** The capped-doubling law holds for every call exactly when the cap is below 2^62 ns. */
  lemma LawHoldsExactly(min: int, max: int)
    requires 0 < min <= max <= MAX_INT64
    ensures (forall k: nat :: k >= 1 ==> BaseAfter(min, max, k) == CappedDouble(min, max, k)) <==> max < TWO62
  {
    if max < TWO62 {
      forall k: nat | k >= 1 ensures BaseAfter(min, max, k) == CappedDouble(min, max, k) {
        LawHoldsBelow(min, max, k);
      }
    } else {
      var k := LawBreaksAbove(min, max);
    }
  }
}
