/** Retry timing of internal/outbox/store.go: the capped doubling delay, its jitter, and what a
    failed delivery does to a record. */
module Retry {
  import opened Protocol
  import opened Records

  function Pow2(n: nat): (p: int)
    ensures p >= 1
  {
    if n == 0 then 1 else 2 * Pow2(n - 1)
  }

  function Min(a: int, b: int): int { if a <= b then a else b }

  /** Closed form: 5 s doubled once per earlier failure, never more than a minute. */
  function RetryDelay(attempts: int): (d: int)
    ensures 5 * SECOND <= d <= MINUTE
  {
    if attempts <= 0 then 5 * SECOND else Min(MINUTE, 5 * SECOND * Pow2(attempts - 1))
  }

  method ComputeRetryDelay(attempts: int) returns (delay: int)
    ensures delay == RetryDelay(attempts)
  {
    if attempts <= 0 {
      return 5 * SECOND;
    }
    delay := 5 * SECOND;
    for i := 1 to attempts
      invariant delay == 5 * SECOND * Pow2(i - 1) && delay < MINUTE
    {
      delay := delay * 2;
      if delay >= MINUTE {
        Pow2Monotone(i, attempts - 1);
        return MINUTE;
      }
    }
  }

  lemma {:induction false} Pow2Monotone(a: nat, b: nat)
    requires a <= b
    ensures Pow2(a) <= Pow2(b)
  {
    if a < b { Pow2Monotone(a, b - 1); }
  }

  /** A uniformly drawn offset of at most a fifth of the delay; no offset if the draw fails. */
  method RetryJitter(delay: int) returns (jitter: int)
    ensures delay <= 0 ==> jitter == 0
    ensures delay > 0 ==> -(delay / 5) <= jitter <= delay / 5
  {
    if delay <= 0 {
      return 0;
    }
    var spread := delay / 5;
    if spread <= 0 {
      return 0;
    }
    var n: int :| 0 <= n <= 2 * spread;
    var drawn: bool := *;
    jitter := if drawn then n - spread else 0;
  }

  function ShortError(msg: string): string {
    if |msg| > 200 then msg[..200] else msg
  }

  /** The record a failed delivery at `now` leaves behind, for some admissible jitter. */
  predicate IsMarked(before: Record, now: int, error: string, after: Record) {
    && after == before.(attempts := before.attempts + 1, updatedAt := now, lastError := ShortError(error),
                        nextRetryAt := after.nextRetryAt)
    && var delay := RetryDelay(before.attempts + 1);
       now + delay - delay / 5 <= after.nextRetryAt <= now + delay + delay / 5
  }

  /** The delays in nanoseconds: 5 s, 10 s, 20 s, 40 s, then a minute. */
  lemma RetryDelayTable(attempts: int)
    ensures attempts <= 1 ==> RetryDelay(attempts) == 5_000_000_000
    ensures RetryDelay(2) == 10_000_000_000 && RetryDelay(3) == 20_000_000_000 && RetryDelay(4) == 40_000_000_000
    ensures attempts >= 5 ==> RetryDelay(attempts) == 60_000_000_000
  {
    assert Pow2(0) == 1 && Pow2(1) == 2 && Pow2(2) == 4 && Pow2(3) == 8 && Pow2(4) == 16;
    if attempts >= 5 { Pow2Monotone(4, attempts - 1); }
  }

  /** What a failed delivery changes and what it keeps. */
  lemma MarkedExactly(before: Record, now: int, error: string, after: Record)
    requires IsMarked(before, now, error, after)
    ensures after.attempts - before.attempts == 1 && after.updatedAt == now
    ensures after.recordId == before.recordId && after.commandId == before.commandId
            && after.createdAt == before.createdAt && after.envelope == before.envelope
    ensures after.lastError <= error && (|error| <= 200 ==> after.lastError == error) && (|error| > 200 ==> |after.lastError| == 200)
    ensures now + 4_000_000_000 <= after.nextRetryAt <= now + 72_000_000_000
  {
    RetryDelayTable(before.attempts + 1);
    var delay := RetryDelay(before.attempts + 1);
    assert delay - delay / 5 >= 4_000_000_000 && delay + delay / 5 <= 72_000_000_000;
  }

  /** Due means never scheduled, or scheduled for a moment that has come. */
  const ZERO_TIME: int := 0

  predicate IsDue(r: Record, now: int) {
    r.nextRetryAt == ZERO_TIME || r.nextRetryAt <= now
  }

  /** After a failure at t nothing is retried before t + 4 s and everything from t + 72 s on. */
  lemma RetryWindow(before: Record, t: int, error: string, after: Record, now: int)
    requires IsMarked(before, t, error, after) && t >= 0
    ensures t <= now < t + 4 * SECOND ==> !IsDue(after, now)
    ensures now >= t + 72 * SECOND ==> IsDue(after, now)
  {
  }

  /** The delay never shrinks from one failure to the next, and is a minute from the fifth on. */
  lemma RetryDelayGrows(attempts: int)
    ensures RetryDelay(attempts) <= RetryDelay(attempts + 1)
    ensures attempts >= 5 ==> RetryDelay(attempts) == MINUTE
  {
    if attempts >= 5 {
      assert Pow2(4) == 16;
      Pow2Monotone(4, attempts - 1);
    }
  }
}
