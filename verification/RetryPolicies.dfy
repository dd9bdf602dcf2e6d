/** How many times an operation may be retried automatically, and how far apart. Delays are in seconds. */
module RetryPolicies {
  import opened Prelude

  function Pow2(n: nat): (r: real)
    ensures 1.0 <= r
  {
    if n == 0 then 1.0 else 2.0 * Pow2(n - 1)
  }

  /** Half of the window fixed, the other half random. */
  function EqualJitter(w: real, rand: real): real { w / 2.0 + rand * w / 2.0 }

  datatype RetryPolicy = RetryPolicy(maxRetries: int, baseDelay: real, maxDelay: real, requiresReconciliation: bool) {

    /** What the constructor accepts. */
    predicate Valid() { 0 <= maxRetries && 0.0 <= baseDelay <= maxDelay }

    function MaxAttempts(): int { 1 + maxRetries }

    predicate AllowsRetry(attempt: int) { attempt <= maxRetries }

    /** The window before doubling meets the cap. */
    function Doubled(retry: nat): real
      requires 1 <= retry
    {
      baseDelay * Pow2(retry - 1)
    }

    function DelayWindow(retry: nat): real
      requires 1 <= retry
    {
      if Doubled(retry) < maxDelay then Doubled(retry) else maxDelay
    }

    function Delay(retry: nat, retryAfter: Option<real>, rand: real): real
      requires 1 <= retry
    {
      var delay := EqualJitter(DelayWindow(retry), rand);
      if retryAfter.Some? && retryAfter.value > delay then retryAfter.value else delay
    }
  }

  const READ := RetryPolicy(3, 0.2, 30.0, false)
  const DRAFT := RetryPolicy(2, 0.2, 30.0, false)
  const SEND := RetryPolicy(0, 0.2, 30.0, false)
  const CALENDAR_WRITE := RetryPolicy(1, 1.0, 30.0, true)
  const EVENT_DELIVERY := RetryPolicy(4, 5.0, 600.0, false)

  predicate Jitter(rand: real) { 0.0 <= rand < 1.0 }

  lemma ProductIsNonNegative(a: real, b: real)
    requires 0.0 <= a && 0.0 <= b
    ensures 0.0 <= a * b
  {
  }

  lemma EqualJitterBounds(w: real, rand: real)
    requires Jitter(rand) && 0.0 <= w
    ensures w / 2.0 <= EqualJitter(w, rand) <= w
  {
    ProductIsNonNegative(rand, w);
    ProductIsNonNegative(1.0 - rand, w);
  }

  /** Some jitter takes a delay in window `w` past the least delay in a window that is not twice as long. */
  lemma JitterPastNextWindow(w: real, next: real) returns (rand: real)
    requires 0.0 <= next < 2.0 * w
    ensures Jitter(rand) && EqualJitter(next, 0.0) < EqualJitter(w, rand)
  {
    rand := next / (2.0 * w);
    assert rand * (2.0 * w) == next;
    assert rand * w == next / 2.0;
    assert 0.0 * next == 0.0;
  }

  lemma WindowIsNonNegative(p: RetryPolicy, retry: nat)
    requires p.Valid() && 1 <= retry
    ensures 0.0 <= p.DelayWindow(retry) <= p.maxDelay
  {
    assert 0.0 <= p.baseDelay * Pow2(retry - 1);
  }

  /** A delay never leaves its window, except to honour a longer `Retry-After`, which is always a floor. */
  lemma DelayStaysInWindow(p: RetryPolicy, retry: nat, retryAfter: Option<real>, rand: real)
    requires p.Valid() && 1 <= retry && Jitter(rand)
    ensures retryAfter.None? ==>
              p.DelayWindow(retry) / 2.0 <= p.Delay(retry, None, rand) <= p.DelayWindow(retry)
    ensures retryAfter.Some? ==>
              && retryAfter.value <= p.Delay(retry, retryAfter, rand)
              && (p.Delay(retry, retryAfter, rand) == retryAfter.value
                  || p.Delay(retry, retryAfter, rand) == p.Delay(retry, None, rand))
    ensures 0.0 <= p.Delay(retry, None, rand) <= p.Delay(retry, retryAfter, rand)
  {
    WindowIsNonNegative(p, retry);
    EqualJitterBounds(p.DelayWindow(retry), rand);
  }

  /** Retry `retry + 1` waits at least as long as retry `retry`, whatever the two jitters. */
  ghost predicate Grows(p: RetryPolicy, retry: nat)
    requires 1 <= retry
  {
    forall r1: real, r2: real :: Jitter(r1) && Jitter(r2) ==> p.Delay(retry, None, r1) <= p.Delay(retry + 1, None, r2)
  }

  /** "Each retry waits at least as long as the one before it" holds exactly while the
      doubled window still fits under the cap. */
  lemma GrowsExactlyBelowTheCap(p: RetryPolicy, retry: nat)
    requires p.Valid() && 1 <= retry
    ensures Grows(p, retry) <==> p.Doubled(retry + 1) <= p.maxDelay
  {
    var w, w' := p.DelayWindow(retry), p.DelayWindow(retry + 1);
    assert p.Doubled(retry + 1) == 2.0 * p.Doubled(retry);
    WindowIsNonNegative(p, retry);
    WindowIsNonNegative(p, retry + 1);
    if p.Doubled(retry + 1) <= p.maxDelay {
      assert w' == 2.0 * w;
      forall r1: real, r2: real | Jitter(r1) && Jitter(r2)
        ensures p.Delay(retry, None, r1) <= p.Delay(retry + 1, None, r2)
      {
        DelayStaysInWindow(p, retry, None, r1);
        DelayStaysInWindow(p, retry + 1, None, r2);
      }
    } else {
      // The window no longer doubles, so a long wait can be followed by a short one.
      var r1 := JitterPastNextWindow(w, w');
      assert Jitter(0.0);
    }
  }

  /** Every retry a shipped policy allows waits at least as long as the one before. */
  lemma ShippedPoliciesGrow(p: RetryPolicy, retry: nat)
    requires p in {READ, DRAFT, SEND, CALENDAR_WRITE, EVENT_DELIVERY}
    requires 1 <= retry && p.AllowsRetry(retry + 1)
    ensures p.Valid() && Grows(p, retry)
  {
    assert Pow2(0) == 1.0 && Pow2(1) == 2.0 && Pow2(2) == 4.0 && Pow2(3) == 8.0;
    assert retry == 1 || retry == 2 || retry == 3;
    GrowsExactlyBelowTheCap(p, retry);
  }

  /** How often each shipped policy retries, and how long its last window is. None of them meets its cap. */
  lemma ShippedSchedules(p: RetryPolicy, retry: nat)
    requires p in {READ, DRAFT, SEND, CALENDAR_WRITE, EVENT_DELIVERY} && 1 <= retry
    ensures p.AllowsRetry(retry) ==>
              p.DelayWindow(retry) == p.Doubled(retry) && p.DelayWindow(retry) <= p.DelayWindow(p.maxRetries)
    ensures READ.MaxAttempts() == 4 && READ.DelayWindow(3) == 0.8
    ensures DRAFT.MaxAttempts() == 3 && DRAFT.DelayWindow(2) == 0.4
    ensures SEND.MaxAttempts() == 1 && CALENDAR_WRITE.MaxAttempts() == 2 && CALENDAR_WRITE.DelayWindow(1) == 1.0
    ensures EVENT_DELIVERY.MaxAttempts() == 5 && EVENT_DELIVERY.DelayWindow(4) == 40.0
    ensures p.requiresReconciliation <==> p == CALENDAR_WRITE
  {
    assert Pow2(0) == 1.0 && Pow2(1) == 2.0 && Pow2(2) == 4.0 && Pow2(3) == 8.0;
    if p.AllowsRetry(retry) { assert retry == 1 || retry == 2 || retry == 3 || retry == 4; }
  }
}
