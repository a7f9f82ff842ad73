// The lazily refilled token bucket: one decision of the limiter, as a function of the
// request's clock, the stored state, the policy and the cost of the route. Instants and
// durations are whole nanoseconds; the arithmetic is exact here and bounded to 64 bits
// in MachineInts.
module TokenBucket {
  import opened Arithmetic
  import opened Wrappers

  datatype Config = Config(capacity: int, refillTokens: int, refillInterval: int)

  // Go's zero time is a value of its own, not an instant of the clock.
  datatype Instant = ZeroTime | At(ns: int)

  datatype State = State(tokens: int, last: Instant)

  // A state with a real refill instant: every state a decision carries.
  type Dated = s: State | s.last.At? witness State(0, At(0))

  datatype Decision = Decision(
    allowed: bool,
    limit: int,
    remaining: int,
    retryAfter: int,
    resetAt: int,
    bucketTTL: int,
    state: Dated)

  datatype ApplyError =
    | InvalidCapacity
    | InvalidRefillTokens
    | InvalidRefillInterval
    | InvalidRequestCost

  predicate ValidConfig(cfg: Config) {
    cfg.capacity > 0 && cfg.refillTokens > 0 && cfg.refillInterval > 0
  }

  function ValidateConfig(cfg: Config): (error: Option<ApplyError>)
    ensures error.None? <==> ValidConfig(cfg)
  {
    if cfg.capacity <= 0 then Some(InvalidCapacity)
    else if cfg.refillTokens <= 0 then Some(InvalidRefillTokens)
    else if cfg.refillInterval <= 0 then Some(InvalidRefillInterval)
    else None
  }

  function NormalizeState(current: State, now: int, capacity: int): Dated {
    var atLeastZero := if current.tokens < 0 then 0 else current.tokens;
    State(
      if atLeastZero > capacity then capacity else atLeastZero,
      if current.last.ZeroTime? then At(now) else current.last)
  }

  function Refill(now: int, current: Dated, cfg: Config): Dated
    requires ValidConfig(cfg)
  {
    if now < current.last.ns then
      current
    else
      var elapsed := now - current.last.ns;
      var intervals := elapsed / cfg.refillInterval;
      if intervals <= 0 then
        current
      else
        var refilledTokens := current.tokens + intervals * cfg.refillTokens;
        State(
          if refilledTokens > cfg.capacity then cfg.capacity else refilledTokens,
          At(current.last.ns + intervals * cfg.refillInterval))
  }

  function DurationUntilNextRefill(now: int, lastRefillAt: int, interval: int): int
    requires interval > 0
  {
    if now < lastRefillAt then
      interval
    else
      var remainder := (now - lastRefillAt) % interval;
      if remainder == 0 then interval else interval - remainder
  }

  function DurationUntilTokens(now: int, state: Dated, cfg: Config, cost: int): int
    requires ValidConfig(cfg)
  {
    if state.tokens >= cost then
      0
    else
      var intervalsNeeded := CeilDiv(cost - state.tokens, cfg.refillTokens);
      DurationUntilNextRefill(now, state.last.ns, cfg.refillInterval)
      + (intervalsNeeded - 1) * cfg.refillInterval
  }

  function DurationUntilFull(now: int, state: Dated, cfg: Config): int
    requires ValidConfig(cfg)
  {
    if state.tokens >= cfg.capacity then
      0
    else
      var intervalsNeeded := CeilDiv(cfg.capacity - state.tokens, cfg.refillTokens);
      DurationUntilNextRefill(now, state.last.ns, cfg.refillInterval)
      + (intervalsNeeded - 1) * cfg.refillInterval
  }

  function BucketTTL(now: int, state: Dated, cfg: Config): int
    requires ValidConfig(cfg)
  {
    var untilFull := DurationUntilFull(now, state, cfg);
    if untilFull <= 0 then cfg.refillInterval else untilFull + cfg.refillInterval
  }

  // The decision for a valid policy and cost.
  function Decide(now: int, current: State, cfg: Config, cost: int): Decision
    requires ValidConfig(cfg) && cost > 0
  {
    var refilled := Refill(now, NormalizeState(current, now, cfg.capacity), cfg);
    var allowed := refilled.tokens >= cost;
    var after: Dated := if allowed then State(refilled.tokens - cost, refilled.last) else refilled;
    Decision(
      allowed,
      cfg.capacity,
      after.tokens,
      if allowed then 0 else DurationUntilTokens(now, after, cfg, cost),
      now + DurationUntilFull(now, after, cfg),
      BucketTTL(now, after, cfg),
      after)
  }

  function Apply(now: int, current: State, cfg: Config, cost: int): (r: Result<Decision, ApplyError>)
    ensures r.Ok? <==> ValidConfig(cfg) && cost > 0
    ensures r == Err(InvalidCapacity) <==> cfg.capacity <= 0
    ensures r == Err(InvalidRefillTokens) <==> cfg.capacity > 0 && cfg.refillTokens <= 0
    ensures r == Err(InvalidRefillInterval) <==> cfg.capacity > 0 && cfg.refillTokens > 0 && cfg.refillInterval <= 0
    ensures r == Err(InvalidRequestCost) <==> ValidConfig(cfg) && cost <= 0
  {
    match ValidateConfig(cfg)
    case Some(error) => Err(error)
    case None =>
      if cost <= 0 then Err(InvalidRequestCost) else Ok(Decide(now, current, cfg, cost))
  }

  // The state a decision starts from: tokens cut to the policy's capacity from above and to
  // none from below, so that a lowered policy takes effect at once, and an unset refill
  // instant taken as now. Any other state decides as this one does.
  lemma DecidesFromClamped(now: int, s: State, cfg: Config, cost: int)
    ensures Apply(now, s, cfg, cost)
         == Apply(now, State(Min(cfg.capacity, Max(0, s.tokens)), s.last), cfg, cost)
    ensures s.last.ZeroTime? ==> Apply(now, s, cfg, cost) == Apply(now, State(s.tokens, At(now)), cfg, cost)
  {
  }

  // With the capacity or more in the bucket every cost within the capacity is allowed at
  // every clock, and leaves the rest of the capacity; with nothing or less in it and no
  // refill since, none is.
  lemma FullAndEmptyDecide(now: int, s: State, cfg: Config, cost: int)
    requires ValidConfig(cfg) && 0 < cost <= cfg.capacity
    ensures var d := Apply(now, s, cfg, cost).value;
            && (s.tokens >= cfg.capacity ==> d.allowed && d.remaining == cfg.capacity - cost)
            && (s.tokens <= 0 && (s.last.At? ==> now < s.last.ns + cfg.refillInterval) ==>
                  !d.allowed && d.remaining == 0)
  {
    var start := NormalizeState(s, now, cfg.capacity);
    RefillShape(now, start, cfg);
    MulNonneg(Intervals(now, start, cfg), cfg.refillTokens);
    if now >= start.last.ns {
      if now < start.last.ns + cfg.refillInterval {
        QuotientUnique(now - start.last.ns, cfg.refillInterval, 0);
      }
    }
  }

  // A state whose tokens lie within the policy's capacity.
  predicate Normalized(s: Dated, cfg: Config) {
    0 <= s.tokens <= cfg.capacity
  }

  // How many refill instants lie between the state's own and the clock.
  function Intervals(now: int, s: Dated, cfg: Config): int
    requires ValidConfig(cfg)
  {
    if now < s.last.ns then 0 else (now - s.last.ns) / cfg.refillInterval
  }

  // Refilling in closed form: the tokens of every elapsed interval, clamped, and the
  // refill instant moved along its own grid to the last point not after the clock.
  lemma RefillShape(now: int, s: Dated, cfg: Config)
    requires ValidConfig(cfg) && Normalized(s, cfg)
    ensures Intervals(now, s, cfg) >= 0
    ensures Refill(now, s, cfg)
         == State(Min(cfg.capacity, s.tokens + Intervals(now, s, cfg) * cfg.refillTokens),
                  At(s.last.ns + Intervals(now, s, cfg) * cfg.refillInterval))
    ensures Normalized(Refill(now, s, cfg), cfg)
    ensures now >= s.last.ns ==>
              Refill(now, s, cfg).last.ns <= now < Refill(now, s, cfg).last.ns + cfg.refillInterval
    ensures now < s.last.ns ==> Refill(now, s, cfg) == s
  {
    if now >= s.last.ns {
      QuotientBounds(now - s.last.ns, cfg.refillInterval);
      var k := Intervals(now, s, cfg);
      MulNonneg(k, cfg.refillTokens);
      assert (k + 1) * cfg.refillInterval == k * cfg.refillInterval + cfg.refillInterval;
    }
  }
}
