/**
 The doubling delays: refresh retries, webhook redelivery, adaptive rate limiting and provider operations
 each double a local delay in a loop. All durations are nanoseconds.
 */
module Backoff {
  import opened Text

  const MILLISECOND := 1_000_000
  const SECOND := 1_000_000_000

  function Pow2(n: nat): (p: int)
    ensures p >= 1
  {
    if n == 0 then 1 else 2 * Pow2(n - 1)
  }

  function Min(a: int, b: int): int { if a < b then a else b }
  function Max(a: int, b: int): int { if a < b then b else a }

  /** The n-th delay in closed form. */
  function Delay(initial: int, maximum: int, n: nat): int
    requires n >= 1
  {
    Min(maximum, initial * Pow2(n - 1))
  }

  function OrDefault(value: int, default: int): int { if value <= 0 then default else value }

  lemma {:induction false} Pow2Monotone(initial: int, m: nat, n: nat)
    requires initial > 0 && m <= n
    ensures initial * Pow2(m) <= initial * Pow2(n)
  {
    if m < n {
      Pow2Monotone(initial, m, n - 1);
      assert initial * Pow2(n) == 2 * (initial * Pow2(n - 1));
    }
  }

  lemma DelayMonotone(initial: int, maximum: int, m: nat, n: nat)
    requires initial > 0 && maximum > 0 && 1 <= m <= n
    ensures 0 < Delay(initial, maximum, m) <= Delay(initial, maximum, n) <= maximum
  {
    Pow2Monotone(initial, 0, m - 1);
    Pow2Monotone(initial, m - 1, n - 1);
  }

  /** The loop that all four share; `peak` is the largest value its variable takes. */
  method Doubling(initial: int, maximum: int, attempt: int) returns (delay: int, ghost peak: int)
    requires initial > 0 && maximum > 0
    ensures delay == Delay(initial, maximum, Max(attempt, 1))
    ensures delay <= peak <= 2 * Max(initial, maximum)
  {
    delay, peak := initial, Max(initial, maximum);
    var i := 1;
    while i < attempt
      invariant 1 <= i <= Max(attempt, 1)
      invariant delay == initial * Pow2(i - 1) && (i == 1 || delay < maximum)
      invariant Max(initial, maximum) <= peak <= 2 * Max(initial, maximum) && delay <= peak
    {
      delay := delay * 2;
      peak := Max(peak, delay);
      assert delay == initial * Pow2(i);
      if delay >= maximum {
        Pow2Monotone(initial, i, attempt - 1);
        return maximum, peak;
      }
      i := i + 1;
    }
    if delay > maximum {
      delay := maximum;
    }
  }

  method RefreshDelay(initial: int, maximum: int, attempt: int) returns (delay: int)
    ensures delay == Delay(if initial > 0 then initial else 500_000_000,
                           if maximum > 0 then maximum else 10_000_000_000, if attempt > 1 then attempt else 1)
  {
    var n := if attempt < 1 then 1 else attempt;
    ghost var peak;
    delay, peak := Doubling(OrDefault(initial, 500 * MILLISECOND), OrDefault(maximum, 10 * SECOND), n);
  }

  method WebhookDelay(initial: int, maximum: int, attempt: int) returns (delay: int)
    ensures delay == Delay(if initial > 0 then initial else 1_000_000_000,
                           if maximum > 0 then maximum else 30_000_000_000, if attempt > 1 then attempt else 1)
  {
    ghost var peak;
    delay, peak := Doubling(OrDefault(initial, SECOND), OrDefault(maximum, 30 * SECOND), attempt);
  }

  /** Below the first attempt the rate limiter hands out its initial delay without the cap. */
  method RateLimitDelay(initial: int, maximum: int, attempt: int) returns (delay: int)
    ensures delay ==
      if attempt < 1 then (if initial > 0 then initial else 1_000_000_000)
      else Delay(if initial > 0 then initial else 1_000_000_000,
                 if maximum > 0 then maximum else 60_000_000_000, attempt)
  {
    var start := OrDefault(initial, SECOND);
    if attempt <= 0 {
      return start;
    }
    ghost var peak;
    delay, peak := Doubling(start, OrDefault(maximum, 60 * SECOND), attempt);
  }

  /** A provider operation's policy is normalised first; a positive hint from the response wins over the backoff. */
  method OperationDelay(initial: int, maximum: int, attempt: int, hint: Option<int>) returns (delay: int)
    requires initial > 0 && maximum >= initial
    ensures delay > 0
    ensures delay == if hint.Some? && hint.value > 0 then hint.value else Delay(initial, maximum, Max(attempt, 1))
  {
    if hint.Some? && hint.value > 0 {
      return hint.value;
    }
    ghost var peak;
    delay, peak := Doubling(initial, maximum, attempt);
    DelayMonotone(initial, maximum, Max(attempt, 1), Max(attempt, 1));
  }
}
