// The waiting times a decision reports are exact: RetryAfter, ResetAt and the bucket's
// time to live against the refill that really happens later.
module WaitLaws {
  import opened Arithmetic
  import opened TokenBucket

  // ---- When a refill reaches a level ----

  // The first grid instant at which the bucket holds the target.
  function ReadyAt(s: Dated, cfg: Config, target: int): int
    requires ValidConfig(cfg)
  {
    s.last.ns + CeilDiv(target - s.tokens, cfg.refillTokens) * cfg.refillInterval
  }

  lemma IntervalsReach(t: int, s: Dated, cfg: Config, n: int)
    requires ValidConfig(cfg) && n >= 1
    ensures Intervals(t, s, cfg) >= n <==> t >= s.last.ns + n * cfg.refillInterval
  {
    var elapsed := t - s.last.ns;
    var k := elapsed / cfg.refillInterval;
    QuotientBounds(elapsed, cfg.refillInterval);
    MulLe(1, n, cfg.refillInterval);
    if k >= n {
      MulLe(n, k, cfg.refillInterval);
    } else {
      MulLe(k + 1, n, cfg.refillInterval);
    }
  }

  // A bucket below a target within its capacity holds it from ReadyAt on, and not before.
  lemma ReachesTarget(t: int, s: Dated, cfg: Config, target: int)
    requires ValidConfig(cfg) && Normalized(s, cfg) && s.tokens < target <= cfg.capacity
    ensures Refill(t, s, cfg).tokens >= target <==> t >= ReadyAt(s, cfg, target)
    ensures ReadyAt(s, cfg, target) >= s.last.ns + cfg.refillInterval
  {
    RefillShape(t, s, cfg);
    var n := CeilDiv(target - s.tokens, cfg.refillTokens);
    CeilDivLeast(target - s.tokens, cfg.refillTokens, 0);
    CeilDivLeast(target - s.tokens, cfg.refillTokens, Intervals(t, s, cfg));
    IntervalsReach(t, s, cfg, n);
    MulLe(1, n, cfg.refillInterval);
  }

  // How far a clock is behind the refill instant.
  function Behind(now: int, s: Dated): int {
    Max(0, s.last.ns - now)
  }

  // The next refill is reported right for a clock at or after the refill instant of an
  // up-to-date state, and short by exactly the lag for a clock behind it.
  lemma NextRefillIsExact(now: int, s: Dated, cfg: Config)
    requires ValidConfig(cfg) && now < s.last.ns + cfg.refillInterval
    ensures now + DurationUntilNextRefill(now, s.last.ns, cfg.refillInterval) + Behind(now, s)
         == s.last.ns + cfg.refillInterval
  {
    if now >= s.last.ns {
      QuotientUnique(now - s.last.ns, cfg.refillInterval, 0);
      QuotientBounds(now - s.last.ns, cfg.refillInterval);
    }
  }

  lemma WaitIsExact(now: int, s: Dated, cfg: Config, target: int)
    requires ValidConfig(cfg) && s.tokens < target
    requires now < s.last.ns + cfg.refillInterval
    ensures now + DurationUntilTokens(now, s, cfg, target) + Behind(now, s) == ReadyAt(s, cfg, target)
    ensures DurationUntilTokens(now, s, cfg, target) > 0
  {
    NextRefillIsExact(now, s, cfg);
    var n := CeilDiv(target - s.tokens, cfg.refillTokens);
    assert (n - 1) * cfg.refillInterval == n * cfg.refillInterval - cfg.refillInterval;
    CeilDivLeast(target - s.tokens, cfg.refillTokens, 0);
    MulLe(1, n, cfg.refillInterval);
    if now >= s.last.ns {
      QuotientBounds(now - s.last.ns, cfg.refillInterval);
    }
  }

  // What every decision's state satisfies.
  lemma DecisionShape(now: int, s: State, cfg: Config, cost: int)
    requires ValidConfig(cfg) && cost > 0
    ensures var d := Decide(now, s, cfg, cost);
            && Normalized(d.state, cfg)
            && d.remaining == d.state.tokens
            && d.limit == cfg.capacity
            && now < d.state.last.ns + cfg.refillInterval
            && (d.allowed ==> d.retryAfter == 0 && d.state.tokens + cost <= cfg.capacity)
            && (!d.allowed ==> d.state.tokens < cost)
            && (s.last.At? && now < s.last.ns ==> d.state.last == s.last)
            && (s.last.ZeroTime? || s.last.ns <= now ==> d.state.last.ns <= now)
  {
    RefillShape(now, NormalizeState(s, now, cfg.capacity), cfg);
  }

  // ---- RetryAfter ----

  // A blocked request whose cost fits the capacity, repeated at a later time with no
  // other request between, is allowed from now + RetryAfter on and not before. When the
  // clock was behind the refill instant the reported wait is short by exactly that lag.
  lemma ExactRetry(now: int, s: State, cfg: Config, cost: int, t: int)
    requires ValidConfig(cfg) && 0 < cost <= cfg.capacity
    requires !Decide(now, s, cfg, cost).allowed
    ensures var d := Decide(now, s, cfg, cost);
            Decide(t, d.state, cfg, cost).allowed
            <==> t >= now + d.retryAfter + Behind(now, d.state)
  {
    var d := Decide(now, s, cfg, cost);
    DecisionShape(now, s, cfg, cost);
    WaitIsExact(now, d.state, cfg, cost);
    ReachesTarget(t, d.state, cfg, cost);
  }

  // A cost above the capacity is blocked at every time and from every state, although
  // the decision still reports a finite positive wait: to the refill instant at which a
  // bucket without a capacity would hold the cost.
  lemma TooCostlyForever(now: int, s: State, cfg: Config, cost: int)
    requires ValidConfig(cfg) && cost > cfg.capacity
    ensures !Decide(now, s, cfg, cost).allowed
    ensures var d := Decide(now, s, cfg, cost);
            d.retryAfter > 0 && now + d.retryAfter + Behind(now, d.state) == ReadyAt(d.state, cfg, cost)
  {
    DecisionShape(now, s, cfg, cost);
    WaitIsExact(now, Decide(now, s, cfg, cost).state, cfg, cost);
  }

  // The Retry-After header: a duration in whole seconds, rounded up.
  function DurationToHeaderSeconds(value: int): (seconds: int)
    ensures seconds >= 0
  {
    if value <= 0 then 0
    else
      var seconds := value / NANOS_PER_SECOND;
      if value % NANOS_PER_SECOND != 0 then seconds + 1 else seconds
  }

  lemma HeaderSecondsLeast(value: int, h: nat)
    ensures h * NANOS_PER_SECOND >= value <==> h >= DurationToHeaderSeconds(value)
  {
  }

  // The header is the least whole number of seconds after which the request succeeds, for
  // every clock not behind the refill instant; for one that is, the lag must be added.
  lemma RetryAfterHeaderIsLeast(now: int, s: State, cfg: Config, cost: int, h: nat)
    requires ValidConfig(cfg) && 0 < cost <= cfg.capacity
    ensures var d := Decide(now, s, cfg, cost);
            !d.allowed ==>
              (Decide(now + h * NANOS_PER_SECOND, d.state, cfg, cost).allowed
               <==> h >= DurationToHeaderSeconds(d.retryAfter + Behind(now, d.state)))
    ensures s.last.ZeroTime? || now >= s.last.ns ==> Behind(now, Decide(now, s, cfg, cost).state) == 0
  {
    hide Decide;
    var d := Decide(now, s, cfg, cost);
    DecisionShape(now, s, cfg, cost);
    if !d.allowed {
      ExactRetry(now, s, cfg, cost, now + h * NANOS_PER_SECOND);
      HeaderSecondsLeast(d.retryAfter + Behind(now, d.state), h);
    }
  }

  // ---- ResetAt ----

  lemma UntilFullIsUntilCapacity(now: int, s: Dated, cfg: Config)
    requires ValidConfig(cfg)
    ensures DurationUntilFull(now, s, cfg) == DurationUntilTokens(now, s, cfg, cfg.capacity)
  {
  }

  // From the decision's own clock on, the bucket is full exactly from ResetAt on, with
  // the lag of a clock behind the refill instant added unless the bucket is full already.
  lemma ExactReset(now: int, s: State, cfg: Config, cost: int, t: int)
    requires ValidConfig(cfg) && cost > 0 && t >= now
    ensures var d := Decide(now, s, cfg, cost);
            Refill(t, d.state, cfg).tokens == cfg.capacity
            <==> t >= d.resetAt + (if d.state.tokens == cfg.capacity then 0 else Behind(now, d.state))
  {
    var d := Decide(now, s, cfg, cost);
    DecisionShape(now, s, cfg, cost);
    RefillShape(t, d.state, cfg);
    UntilFullIsUntilCapacity(now, d.state, cfg);
    if d.state.tokens < cfg.capacity {
      WaitIsExact(now, d.state, cfg, cfg.capacity);
      ReachesTarget(t, d.state, cfg, cfg.capacity);
    } else {
      MulNonneg(Intervals(t, d.state, cfg), cfg.refillTokens);
    }
  }

  // A blocked request that can succeed at all is told to retry no later than the reset.
  lemma RetryNotAfterReset(now: int, s: State, cfg: Config, cost: int)
    requires ValidConfig(cfg) && 0 < cost <= cfg.capacity
    requires !Decide(now, s, cfg, cost).allowed
    ensures now + Decide(now, s, cfg, cost).retryAfter <= Decide(now, s, cfg, cost).resetAt
  {
    var d := Decide(now, s, cfg, cost);
    DecisionShape(now, s, cfg, cost);
    var n := CeilDiv(cost - d.state.tokens, cfg.refillTokens);
    var m := CeilDiv(cfg.capacity - d.state.tokens, cfg.refillTokens);
    CeilDivMonotone(cost - d.state.tokens, cfg.capacity - d.state.tokens, cfg.refillTokens);
    MulLe(n - 1, m - 1, cfg.refillInterval);
  }

  // ---- Time to live ----

  // The time to live runs exactly one interval past the reported reset.
  lemma TimeToLiveIsResetPlusInterval(now: int, s: State, cfg: Config, cost: int)
    requires ValidConfig(cfg) && cost > 0
    ensures var d := Decide(now, s, cfg, cost);
            d.resetAt >= now && d.bucketTTL == d.resetAt - now + cfg.refillInterval
  {
    var d := Decide(now, s, cfg, cost);
    DecisionShape(now, s, cfg, cost);
    UntilFullIsUntilCapacity(now, d.state, cfg);
    if d.state.tokens < cfg.capacity {
      WaitIsExact(now, d.state, cfg, cfg.capacity);
    }
  }

  // The client sends EXPIRE in whole seconds, truncated toward zero, and never less than
  // one for a positive duration (an assumption about the Redis client).
  function ExpireSeconds(ttl: int): (seconds: int)
    ensures 0 < ttl < 1_000_000_000 ==> seconds == 1
    ensures ttl >= 1_000_000_000 ==> seconds * 1_000_000_000 <= ttl < (seconds + 1) * 1_000_000_000
    ensures ttl <= 0 ==> (seconds - 1) * 1_000_000_000 < ttl <= seconds * 1_000_000_000 <= 0
  {
    if 0 < ttl < NANOS_PER_SECOND then 1
    else if ttl >= 0 then ttl / NANOS_PER_SECOND
    else -(-ttl / NANOS_PER_SECOND)
  }

  // The instant, on the request's clock, from which the key may be gone.
  function ExpiryInstant(now: int, d: Decision): int {
    now + ExpireSeconds(d.bucketTTL) * NANOS_PER_SECOND
  }

  lemma ExpireSecondsBounds(ttl: int)
    requires ttl > 0
    ensures ExpireSeconds(ttl) >= 1
    ensures ttl - NANOS_PER_SECOND < ExpireSeconds(ttl) * NANOS_PER_SECOND
    ensures ttl >= NANOS_PER_SECOND ==> ttl - NANOS_PER_SECOND < ExpireSeconds(ttl) * NANOS_PER_SECOND <= ttl
    ensures ttl >= NANOS_PER_SECOND ==> ExpireSeconds(ttl) * NANOS_PER_SECOND == ttl - ttl % NANOS_PER_SECOND
  {
  }

  // With an interval of at least one second, the bucket that expires is one that would
  // have refilled to capacity anyway, at its earliest expiry and at every time after it,
  // exactly when the request's clock was behind the stored refill instant by no more than
  // the extra interval less what whole seconds cut off (or the bucket was full).
  lemma SafeExpiry(now: int, s: State, cfg: Config, cost: int, t: int)
    requires ValidConfig(cfg) && cost > 0
    requires cfg.refillInterval >= NANOS_PER_SECOND
    ensures var d := Decide(now, s, cfg, cost);
            var covered := d.state.tokens == cfg.capacity
                        || d.state.last.ns - now <= cfg.refillInterval - d.bucketTTL % NANOS_PER_SECOND;
            && (covered && t >= ExpiryInstant(now, d) ==> Refill(t, d.state, cfg).tokens == cfg.capacity)
            && (!covered ==> Refill(ExpiryInstant(now, d), d.state, cfg).tokens < cfg.capacity)
  {
    var d := Decide(now, s, cfg, cost);
    DecisionShape(now, s, cfg, cost);
    var deadline := ExpiryInstant(now, d);
    RefillShape(t, d.state, cfg);
    if d.state.tokens == cfg.capacity {
      MulNonneg(Intervals(t, d.state, cfg), cfg.refillTokens);
    } else {
      UntilFullIsUntilCapacity(now, d.state, cfg);
      WaitIsExact(now, d.state, cfg, cfg.capacity);
      ReachesTarget(t, d.state, cfg, cfg.capacity);
      ReachesTarget(deadline, d.state, cfg, cfg.capacity);
      RefillShape(deadline, d.state, cfg);
      assert d.bucketTTL == DurationUntilFull(now, d.state, cfg) + cfg.refillInterval;
      ExpireSecondsBounds(d.bucketTTL);
    }
  }

  // A clock behind the stored refill instant is given a time to live of whole intervals.
  lemma LaggingTimeToLive(now: int, s: State, cfg: Config, cost: int)
    requires ValidConfig(cfg) && cost > 0 && cfg.refillInterval % NANOS_PER_SECOND == 0
    ensures var d := Decide(now, s, cfg, cost);
            now < d.state.last.ns && d.state.tokens < cfg.capacity ==> d.bucketTTL % NANOS_PER_SECOND == 0
  {
    var d := Decide(now, s, cfg, cost);
    DecisionShape(now, s, cfg, cost);
    if now < d.state.last.ns && d.state.tokens < cfg.capacity {
      UntilFullIsUntilCapacity(now, d.state, cfg);
      WaitIsExact(now, d.state, cfg, cfg.capacity);
      var n := CeilDiv(cfg.capacity - d.state.tokens, cfg.refillTokens);
      assert d.bucketTTL == (n + 1) * cfg.refillInterval by {
        assert (n + 1) * cfg.refillInterval == (n - 1) * cfg.refillInterval + 2 * cfg.refillInterval;
      }
      WholeSeconds(n + 1, cfg.refillInterval);
    }
  }

  // With an interval of whole seconds, as every policy has, the extra interval covers a
  // clock up to one interval behind the stored refill instant, and no more.
  lemma SafeExpiryOfPolicies(now: int, s: State, cfg: Config, cost: int, t: int)
    requires ValidConfig(cfg) && cost > 0
    requires cfg.refillInterval % NANOS_PER_SECOND == 0
    ensures var d := Decide(now, s, cfg, cost);
            var covered := d.state.tokens == cfg.capacity || d.state.last.ns - now <= cfg.refillInterval;
            && (covered && t >= ExpiryInstant(now, d) ==> Refill(t, d.state, cfg).tokens == cfg.capacity)
            && (!covered ==> Refill(ExpiryInstant(now, d), d.state, cfg).tokens < cfg.capacity)
  {
    hide Decide, Refill, ExpiryInstant;
    DecisionShape(now, s, cfg, cost);
    SafeExpiry(now, s, cfg, cost, t);
    LaggingTimeToLive(now, s, cfg, cost);
  }

  lemma WholeSeconds(k: int, interval: int)
    requires interval % NANOS_PER_SECOND == 0
    ensures (k * interval) % NANOS_PER_SECOND == 0
  {
    var m := interval / NANOS_PER_SECOND;
    assert k * interval == (k * m) * NANOS_PER_SECOND;
    QuotientUnique(k * interval, NANOS_PER_SECOND, k * m);
  }
}
