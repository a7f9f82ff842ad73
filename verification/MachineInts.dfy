// The same decision in 64-bit arithmetic: sums and products wrap, division truncates
// toward zero, and the difference of two instants saturates. Instants themselves are
// not limited to 64 bits of nanoseconds.
module MachineInts {
  import opened Arithmetic
  import opened TokenBucket
  import opened WaitLaws

  const MAX_INT64: int := 0x7FFF_FFFF_FFFF_FFFF
  const MIN_INT64: int := -0x8000_0000_0000_0000

  predicate Fits(x: int) {
    MIN_INT64 <= x <= MAX_INT64
  }

  // The one value in range that differs by a multiple of 2^64.
  function Wrap(x: int): (r: int)
    ensures Fits(r)
    ensures Fits(x) ==> r == x
    ensures exists k :: r == x + k * 0x1_0000_0000_0000_0000
  {
    var r := (x - MIN_INT64) % 0x1_0000_0000_0000_0000 + MIN_INT64;
    assert r == x + -((x - MIN_INT64) / 0x1_0000_0000_0000_0000) * 0x1_0000_0000_0000_0000;
    r
  }

  // Division toward zero: the multiple of the divisor that is nearest from there.
  function TruncDiv(x: int, d: int): (q: int)
    requires d > 0
    ensures x >= 0 ==> q >= 0 && q * d <= x < (q + 1) * d
    ensures x <= 0 ==> q <= 0 && (q - 1) * d < x <= q * d
  {
    QuotientBounds(x, d);
    QuotientBounds(-x, d);
    if x >= 0 then x / d else -((-x) / d)
  }

  // The difference of two instants, or the nearest duration there is.
  function Sub(now: int, earlier: int): (r: int)
    ensures Fits(r)
    ensures Fits(now - earlier) ==> r == now - earlier
    ensures now - earlier > r ==> r == 0x7FFF_FFFF_FFFF_FFFF
    ensures now - earlier < r ==> r == -0x8000_0000_0000_0000
  {
    if now - earlier > MAX_INT64 then MAX_INT64
    else if now - earlier < MIN_INT64 then MIN_INT64
    else now - earlier
  }

  function CeilDiv64(numerator: int, denominator: int): int
    requires denominator > 0
  {
    TruncDiv(Wrap(Wrap(numerator + denominator) - 1), denominator)
  }

  function Refill64(now: int, current: Dated, cfg: Config): Dated
    requires ValidConfig(cfg)
  {
    if now < current.last.ns then
      current
    else
      var intervals := TruncDiv(Sub(now, current.last.ns), cfg.refillInterval);
      if intervals <= 0 then
        current
      else
        var refilledTokens := Wrap(current.tokens + Wrap(intervals * cfg.refillTokens));
        State(
          if refilledTokens > cfg.capacity then cfg.capacity else refilledTokens,
          At(current.last.ns + Wrap(intervals * cfg.refillInterval)))
  }

  function DurationUntilNextRefill64(now: int, lastRefillAt: int, interval: int): int
    requires interval > 0
  {
    if now < lastRefillAt then
      interval
    else
      var remainder := Sub(now, lastRefillAt) % interval;
      if remainder == 0 then interval else interval - remainder
  }

  // Both waits of the program: for a cost, and, with the capacity as target, until full.
  function Wait64(now: int, state: Dated, cfg: Config, target: int): int
    requires ValidConfig(cfg)
  {
    if state.tokens >= target then
      0
    else
      var intervalsNeeded := CeilDiv64(Wrap(target - state.tokens), cfg.refillTokens);
      Wrap(DurationUntilNextRefill64(now, state.last.ns, cfg.refillInterval)
           + Wrap(Wrap(intervalsNeeded - 1) * cfg.refillInterval))
  }

  function BucketTTL64(now: int, state: Dated, cfg: Config): int
    requires ValidConfig(cfg)
  {
    var untilFull := Wait64(now, state, cfg, cfg.capacity);
    if untilFull <= 0 then cfg.refillInterval else Wrap(untilFull + cfg.refillInterval)
  }

  function Decide64(now: int, current: State, cfg: Config, cost: int): Decision
    requires ValidConfig(cfg) && cost > 0
  {
    var refilled := Refill64(now, NormalizeState(current, now, cfg.capacity), cfg);
    var allowed := refilled.tokens >= cost;
    var after: Dated := if allowed then State(Wrap(refilled.tokens - cost), refilled.last) else refilled;
    Decision(
      allowed,
      cfg.capacity,
      after.tokens,
      if allowed then 0 else Wait64(now, after, cfg, cost),
      now + Wait64(now, after, cfg, cfg.capacity),
      BucketTTL64(now, after, cfg),
      after)
  }

  // Policy and cost are 64-bit values already.
  predicate MachineInputs(cfg: Config, cost: int) {
    ValidConfig(cfg) && cost > 0
    && Fits(cfg.capacity) && Fits(cfg.refillTokens) && Fits(cfg.refillInterval) && Fits(cost)
  }

  // Whether the token counts fit: the elapsed time, the refill before clamping, and the
  // numerator that rounding up forms.
  predicate TokenCountsFit(now: int, current: State, cfg: Config, cost: int)
    requires ValidConfig(cfg)
  {
    var start := NormalizeState(current, now, cfg.capacity);
    && now - start.last.ns <= MAX_INT64
    && cfg.capacity + Intervals(now, start, cfg) * cfg.refillTokens <= MAX_INT64
    && Max(cfg.capacity, cost) + cfg.refillTokens - 1 <= MAX_INT64
  }

  lemma RefillAgrees(now: int, s: Dated, cfg: Config)
    requires ValidConfig(cfg) && Fits(cfg.capacity) && Normalized(s, cfg)
    requires now - s.last.ns <= MAX_INT64
    requires cfg.capacity + Intervals(now, s, cfg) * cfg.refillTokens <= MAX_INT64
    ensures Refill64(now, s, cfg) == Refill(now, s, cfg)
  {
    if now >= s.last.ns {
      var k := Intervals(now, s, cfg);
      QuotientBounds(now - s.last.ns, cfg.refillInterval);
      MulNonneg(k, cfg.refillTokens);
      MulNonneg(k, cfg.refillInterval);
      assert Fits(k * cfg.refillTokens);
      assert Fits(k * cfg.refillInterval);
    }
  }

  lemma NextRefillAgrees(now: int, last: int, interval: int)
    requires 0 < interval && now - last <= MAX_INT64
    ensures DurationUntilNextRefill64(now, last, interval) == DurationUntilNextRefill(now, last, interval)
    ensures 0 < DurationUntilNextRefill(now, last, interval) <= interval
  {
    if now >= last {
      QuotientBounds(now - last, interval);
    }
  }

  lemma CeilDivAgrees(x: int, d: int)
    requires x > 0 && d > 0 && x + d - 1 <= MAX_INT64
    ensures CeilDiv64(x, d) == CeilDiv(x, d)
    ensures 1 <= CeilDiv(x, d) <= x
  {
    // The first sum may pass the largest value by one; subtracting one wraps it back.
    assert Wrap(Wrap(x + d) - 1) == x + d - 1;
    CeilDivLeast(x, d, 0);
    CeilDivLeast(x, d, x);
    MulLe(1, d, x);
  }

  // A wait agrees with the unbounded one exactly when the unbounded one fits.
  lemma WaitAgrees(now: int, s: Dated, cfg: Config, target: int)
    requires ValidConfig(cfg) && Normalized(s, cfg) && Fits(cfg.refillInterval)
    requires now - s.last.ns <= MAX_INT64
    requires target + cfg.refillTokens - 1 <= MAX_INT64
    ensures DurationUntilTokens(now, s, cfg, target) >= 0
    ensures Wait64(now, s, cfg, target) == DurationUntilTokens(now, s, cfg, target)
       <==> Fits(DurationUntilTokens(now, s, cfg, target))
  {
    if s.tokens < target {
      CeilDivAgrees(target - s.tokens, cfg.refillTokens);
      NextRefillAgrees(now, s.last.ns, cfg.refillInterval);
      MulNonneg(CeilDiv(target - s.tokens, cfg.refillTokens) - 1, cfg.refillInterval);
    }
  }

  // With token counts that fit, the machine's decision is the unbounded one if and only
  // if the two durations the unbounded decision reports fit in 64 bits.
  lemma MachineAgreesIffDurationsFit(now: int, s: State, cfg: Config, cost: int)
    requires MachineInputs(cfg, cost) && TokenCountsFit(now, s, cfg, cost)
    ensures var d := Decide(now, s, cfg, cost);
            Decide64(now, s, cfg, cost) == d <==> Fits(d.retryAfter) && Fits(d.bucketTTL)
  {
    hide Refill, Refill64, Wait64, Intervals, DurationUntilTokens, DurationUntilFull;
    var start := NormalizeState(s, now, cfg.capacity);
    RefillAgrees(now, start, cfg);
    RefillShape(now, start, cfg);
    var d := Decide(now, s, cfg, cost);
    WaitAgrees(now, d.state, cfg, cost);
    WaitAgrees(now, d.state, cfg, cfg.capacity);
    UntilFullIsUntilCapacity(now, d.state, cfg);
  }

  lemma NextRefillWithinInterval(now: int, last: int, interval: int)
    requires interval > 0
    ensures 0 < DurationUntilNextRefill(now, last, interval) <= interval
  {
    if now >= last {
      QuotientBounds(now - last, interval);
    }
  }

  // A wait is at most its whole intervals.
  lemma WaitWithinIntervals(now: int, s: Dated, cfg: Config, target: int, most: int)
    requires ValidConfig(cfg) && Normalized(s, cfg) && target <= most && most > 0
    ensures DurationUntilTokens(now, s, cfg, target) <= CeilDiv(most, cfg.refillTokens) * cfg.refillInterval
  {
    hide CeilDiv, DurationUntilNextRefill;
    var n := CeilDiv(most, cfg.refillTokens);
    CeilDivLeast(most, cfg.refillTokens, 0);
    MulNonneg(n, cfg.refillInterval);
    if s.tokens < target {
      CeilDivMonotone(target - s.tokens, most, cfg.refillTokens);
      MulLe(CeilDiv(target - s.tokens, cfg.refillTokens) - 1, n - 1, cfg.refillInterval);
      assert (n - 1) * cfg.refillInterval == n * cfg.refillInterval - cfg.refillInterval;
      NextRefillWithinInterval(now, s.last.ns, cfg.refillInterval);
    }
  }

  // A condition on the policy and the elapsed time alone under which nothing overflows.
  lemma MachineRefinesIntegers(now: int, s: State, cfg: Config, cost: int)
    requires MachineInputs(cfg, cost) && TokenCountsFit(now, s, cfg, cost)
    requires (CeilDiv(Max(cfg.capacity, cost), cfg.refillTokens) + 1) * cfg.refillInterval <= MAX_INT64
    ensures Decide64(now, s, cfg, cost) == Decide(now, s, cfg, cost)
  {
    hide Decide64, CeilDiv, Refill, NormalizeState, Intervals, TokenCountsFit;
    var d := Decide(now, s, cfg, cost);
    var most := Max(cfg.capacity, cost);
    DecisionShape(now, s, cfg, cost);
    WaitWithinIntervals(now, d.state, cfg, cost, most);
    WaitWithinIntervals(now, d.state, cfg, cfg.capacity, most);
    UntilFullIsUntilCapacity(now, d.state, cfg);
    var n := CeilDiv(most, cfg.refillTokens);
    assert (n + 1) * cfg.refillInterval == n * cfg.refillInterval + cfg.refillInterval;
    NonnegativeDurations(now, s, cfg, cost);
    MachineAgreesIffDurationsFit(now, s, cfg, cost);
  }

  lemma NonnegativeDurations(now: int, s: State, cfg: Config, cost: int)
    requires MachineInputs(cfg, cost) && TokenCountsFit(now, s, cfg, cost)
    ensures Decide(now, s, cfg, cost).retryAfter >= 0 && Decide(now, s, cfg, cost).bucketTTL >= 0
  {
    RefillShape(now, NormalizeState(s, now, cfg.capacity), cfg);
    WaitAgrees(now, Decide(now, s, cfg, cost).state, cfg, cost);
  }

  // A policy row holds 32-bit columns and an interval in seconds.
  predicate PolicyConfig(cfg: Config) {
    && 0 < cfg.capacity <= MAX_INT32
    && 0 < cfg.refillTokens <= MAX_INT32
    && 0 < cfg.refillInterval <= MAX_INT32 * NANOS_PER_SECOND
    && cfg.refillInterval % NANOS_PER_SECOND == 0
  }

  // The test on a policy and a cost alone: the intervals that refill the capacity, and one
  // more, fit, and so do those that refill the cost.
  predicate PolicyFits(cfg: Config, cost: int)
    requires ValidConfig(cfg)
  {
    && (CeilDiv(cfg.capacity, cfg.refillTokens) + 1) * cfg.refillInterval <= MAX_INT64
    && CeilDiv(cost, cfg.refillTokens) * cfg.refillInterval <= MAX_INT64
  }

  lemma PolicyFitsDecides(now: int, s: State, cfg: Config, cost: int)
    requires PolicyConfig(cfg) && 0 < cost <= MAX_INT32 && PolicyFits(cfg, cost)
    ensures TokenCountsFit(now, s, cfg, cost) ==> Decide64(now, s, cfg, cost) == Decide(now, s, cfg, cost)
  {
    hide Decide, Decide64, CeilDiv, TokenCountsFit;
    DecisionShape(now, s, cfg, cost);
    var d := Decide(now, s, cfg, cost);
    RetryWithin(now, s, cfg, cost);
    WaitWithinIntervals(now, d.state, cfg, cfg.capacity, cfg.capacity);
    WaitWithinIntervals(now, d.state, cfg, cost, cost);
    UntilFullIsUntilCapacity(now, d.state, cfg);
    var n := CeilDiv(cfg.capacity, cfg.refillTokens);
    assert (n + 1) * cfg.refillInterval == n * cfg.refillInterval + cfg.refillInterval;
    if TokenCountsFit(now, s, cfg, cost) {
      NonnegativeDurations(now, s, cfg, cost);
      MachineAgreesIffDurationsFit(now, s, cfg, cost);
    }
  }

  lemma RetryWithin(now: int, s: State, cfg: Config, cost: int)
    requires ValidConfig(cfg) && cost > 0
    ensures var d := Decide(now, s, cfg, cost);
            && d.retryAfter <= DurationUntilTokens(now, d.state, cfg, cost)
            && d.bucketTTL <= Max(0, DurationUntilFull(now, d.state, cfg)) + cfg.refillInterval
  {
    hide DurationUntilFull, Refill;
    DecisionShape(now, s, cfg, cost);
    if !Decide(now, s, cfg, cost).allowed {
      WaitIsExact(now, Decide(now, s, cfg, cost).state, cfg, cost);
    }
  }

  // An empty bucket asks for the longest waits there are.
  lemma EmptyBucketWaitsLongest(cfg: Config, cost: int)
    requires PolicyConfig(cfg) && cost > 0
    ensures var d := Decide(0, State(0, At(0)), cfg, cost);
            && d.retryAfter == CeilDiv(cost, cfg.refillTokens) * cfg.refillInterval
            && d.bucketTTL == (CeilDiv(cfg.capacity, cfg.refillTokens) + 1) * cfg.refillInterval
  {
    hide CeilDiv;
    var s: Dated := State(0, At(0));
    QuotientUnique(0, cfg.refillInterval, 0);
    var d := Decide(0, s, cfg, cost);
    assert d.state == s && !d.allowed;
    WaitIsExact(0, s, cfg, cost);
    WaitIsExact(0, s, cfg, cfg.capacity);
    UntilFullIsUntilCapacity(0, s, cfg);
    var n := CeilDiv(cfg.capacity, cfg.refillTokens);
    assert (n + 1) * cfg.refillInterval == n * cfg.refillInterval + cfg.refillInterval;
  }

  ghost predicate AlwaysAgrees(cfg: Config, cost: int)
    requires ValidConfig(cfg) && cost > 0
  {
    forall now, s :: TokenCountsFit(now, s, cfg, cost) ==> Decide64(now, s, cfg, cost) == Decide(now, s, cfg, cost)
  }

  // For a policy row and a cost, machine and integers agree at every clock and on every
  // state whose token counts fit, if and only if the test on the policy and cost holds.
  lemma PolicyAgreesIff(cfg: Config, cost: int)
    requires PolicyConfig(cfg) && 0 < cost <= MAX_INT32
    ensures AlwaysAgrees(cfg, cost) <==> PolicyFits(cfg, cost)
  {
    hide Decide, Decide64, TokenCountsFit;
    if PolicyFits(cfg, cost) {
      forall now, s | TokenCountsFit(now, s, cfg, cost)
        ensures Decide64(now, s, cfg, cost) == Decide(now, s, cfg, cost)
      {
        PolicyFitsDecides(now, s, cfg, cost);
      }
    }
    if AlwaysAgrees(cfg, cost) {
      var s: Dated := State(0, At(0));
      EmptyCountsFit(cfg, cost);
      assert Decide64(0, s, cfg, cost) == Decide(0, s, cfg, cost);
      MachineAgreesIffDurationsFit(0, s, cfg, cost);
      EmptyBucketWaitsLongest(cfg, cost);
    }
  }

  lemma EmptyCountsFit(cfg: Config, cost: int)
    requires PolicyConfig(cfg) && 0 < cost <= MAX_INT32
    ensures TokenCountsFit(0, State(0, At(0)), cfg, cost)
  {
    QuotientUnique(0, cfg.refillInterval, 0);
  }

  // A clock this far past a bucket's refill instant, 136 years, leaves the token counts of
  // every policy in range.
  const MAX_ELAPSED: int := (0x1_0000_0000 - 2) * NANOS_PER_SECOND

  lemma CountsFitForYears(now: int, s: State, cfg: Config, cost: int)
    requires PolicyConfig(cfg) && 0 < cost <= MAX_INT32
    requires s.last.At? ==> now - s.last.ns <= MAX_ELAPSED
    ensures TokenCountsFit(now, s, cfg, cost)
  {
    var start := NormalizeState(s, now, cfg.capacity);
    var k := Intervals(now, start, cfg);
    var most := 0x1_0000_0000 - 2;
    QuotientMonotone(now - start.last.ns, MAX_ELAPSED, cfg.refillInterval);
    WholeSecondsPerInterval(cfg);
    assert k <= most;
    if k >= 0 {
      MulLe(k, most, cfg.refillTokens);
      MulLe(cfg.refillTokens, MAX_INT32, most);
    }
  }

  lemma WholeSecondsPerInterval(cfg: Config)
    requires PolicyConfig(cfg)
    ensures MAX_ELAPSED / cfg.refillInterval <= 0x1_0000_0000 - 2
    ensures cfg.refillInterval >= NANOS_PER_SECOND
  {
    var most := 0x1_0000_0000 - 2;
    MulLe(NANOS_PER_SECOND, cfg.refillInterval, most);
    assert MAX_ELAPSED <= most * cfg.refillInterval;
    assert most * cfg.refillInterval < (most + 1) * cfg.refillInterval;
    QuotientUnique(most * cfg.refillInterval, cfg.refillInterval, most);
    QuotientMonotone(MAX_ELAPSED, most * cfg.refillInterval, cfg.refillInterval);
  }

  // On a fresh bucket the first affordable request already tells: machine and integers
  // agree if and only if the intervals that refill its cost, and one more, fit.
  lemma FreshBucketAgreesIff(now: int, cfg: Config, cost: int)
    requires PolicyConfig(cfg) && 0 < cost <= cfg.capacity
    ensures Decide64(now, State(cfg.capacity, At(now)), cfg, cost)
         == Decide(now, State(cfg.capacity, At(now)), cfg, cost)
       <==> (CeilDiv(cost, cfg.refillTokens) + 1) * cfg.refillInterval <= MAX_INT64
  {
    var s: Dated := State(cfg.capacity, At(now));
    assert Intervals(now, s, cfg) == 0;
    var d := Decide(now, s, cfg, cost);
    assert d.state == State(cfg.capacity - cost, At(now));
    var n := CeilDiv(cost, cfg.refillTokens);
    assert DurationUntilNextRefill(now, now, cfg.refillInterval) == cfg.refillInterval;
    CeilDivAgrees(cost, cfg.refillTokens);
    MulLe(1, n, cfg.refillInterval);
    assert (n - 1) * cfg.refillInterval == n * cfg.refillInterval - cfg.refillInterval;
    assert (n + 1) * cfg.refillInterval == n * cfg.refillInterval + cfg.refillInterval;
    MachineAgreesIffDurationsFit(now, s, cfg, cost);
  }

  // Legal policy values alone do not guarantee agreement: one token per largest interval
  // is a legal row, and the first report request, of cost 5, overflows the time to live.
  lemma LegalPolicyOverflows(now: int)
    ensures var cfg := Config(10, 1, MAX_INT32 * NANOS_PER_SECOND);
            && PolicyConfig(cfg)
            && Decide64(now, State(10, At(now)), cfg, 5) != Decide(now, State(10, At(now)), cfg, 5)
  {
    var cfg := Config(10, 1, MAX_INT32 * NANOS_PER_SECOND);
    FreshBucketAgreesIff(now, cfg, 5);
  }
}
