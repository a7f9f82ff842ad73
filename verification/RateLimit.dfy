// One protected request from its API key to its response: resolve the policy, consume
// from its bucket, set the headers, and forward, block or refuse.
module RateLimit {
  import opened Arithmetic
  import opened Wrappers
  import opened Text
  import opened Scopes
  import opened TokenBucket
  import opened WaitLaws
  import opened MachineInts
  import opened BucketHistory
  import opened WindowBound
  import opened ConsumeProtocol
  import opened BucketStore
  import P = PolicyTable
  import R = Resolver

  datatype Headers = Headers(limit: int, remaining: int, reset: int)

  // What makes a request impossible to judge: the codes rate_limit_resolution_unavailable,
  // missing_rate_limit_policy and rate_limit_unavailable.
  datatype Unavailable = ResolutionUnavailable | MissingPolicy | LimitUnavailable

  datatype Response =
    | InternalServerError
    | ServiceUnavailable(cause: Unavailable)
    | TooManyRequests(headers: Headers, retryAfter: int)
    | Forwarded(headers: Headers)

  // An audit record; its columns are 32 bits wide.
  datatype BlockedRequest = BlockedRequest(apiKey: UUID, route: string, policy: UUID, cost: int, tokensRemaining: int)

  // The one 32-bit value that differs by a multiple of 2^32.
  function ToInt32(x: int): (r: int)
    ensures -0x8000_0000 <= r < 0x8000_0000
    ensures exists k :: r == x + k * 0x1_0000_0000
  {
    var r := (x + 0x8000_0000) % 0x1_0000_0000 - 0x8000_0000;
    assert r == x + -((x + 0x8000_0000) / 0x1_0000_0000) * 0x1_0000_0000;
    r
  }

  function ConfigOf(policy: P.Policy): Config {
    Config(policy.capacity, policy.refillTokens, policy.refillIntervalSeconds * NANOS_PER_SECOND)
  }

  function HeadersOf(d: Decision): Headers {
    Headers(d.limit, d.remaining, d.resetAt / NANOS_PER_SECOND)
  }

  function ResponseTo(d: Decision): Response {
    if d.allowed then Forwarded(HeadersOf(d))
    else TooManyRequests(HeadersOf(d), DurationToHeaderSeconds(d.retryAfter))
  }

  // The configurations of policy rows are exactly those that 32-bit columns can hold.
  lemma RowConfigs(cfg: Config)
    ensures PolicyConfig(cfg) <==>
              exists policy: P.Policy ::
                policy.capacity > 0 && policy.refillTokens > 0 && policy.refillIntervalSeconds > 0
                && ConfigOf(policy) == cfg
  {
    if PolicyConfig(cfg) {
      var seconds := cfg.refillInterval / NANOS_PER_SECOND;
      var id: UUID := [0, 0, 0, 0, 0, 0, 0, 0, 0, 0, 0, 0, 0, 0, 0, 1];
      var policy := P.Policy(id, Scope(GLOBAL, None, None), cfg.capacity, cfg.refillTokens, seconds, true);
      assert ConfigOf(policy) == cfg;
    }
  }

  // What a client can rely on: the remaining tokens lie within the limit and survive the
  // audit record's width, a blocked client is never told to retry at once, and one whose
  // cost fits the limit never to wait past the second in which the bucket is full.
  lemma ResponseIsConsistent(stored: Option<Stored>, policy: P.Policy, cost: int, now: int)
    requires ValidRequest(Request(ConfigOf(policy), cost, now))
    ensures var req := Request(ConfigOf(policy), cost, now);
            var d := Answer(stored, req).value;
            && 0 <= d.remaining <= d.limit == policy.capacity
            && ToInt32(d.remaining) == d.remaining
            && (!d.allowed ==> DurationToHeaderSeconds(d.retryAfter) >= 1)
            && (!d.allowed && cost <= policy.capacity ==>
                  now + DurationToHeaderSeconds(d.retryAfter) * NANOS_PER_SECOND < d.resetAt + NANOS_PER_SECOND)
  {
    var req := Request(ConfigOf(policy), cost, now);
    var s, d := ReadBucketState(stored, req.cfg, now), Answer(stored, req).value;
    DecisionShape(now, s, req.cfg, cost);
    if !d.allowed {
      WaitIsExact(now, d.state, req.cfg, cost);
      if cost <= policy.capacity {
        RetryNotAfterReset(now, s, req.cfg, cost);
      }
    }
  }

  // The response keeps its word. A blocked client that sends the same request again after
  // k whole seconds, with no other request between, is forwarded if and only if k is at
  // least the Retry-After it was told, and never if its cost is above the limit; and by the
  // whole second after the reported reset the stored bucket is full. For a clock behind the
  // bucket's refill instant, and only then, the lag must be added to both.
  lemma ResponseKeepsItsWord(stored: Option<Stored>, policy: P.Policy, cost: int, now: int, k: nat, t: int)
    requires ValidRequest(Request(ConfigOf(policy), cost, now))
    ensures var req := Request(ConfigOf(policy), cost, now);
            var d := Answer(stored, req).value;
            var left := Persist(d.state);
            var lag := Behind(now, d.state);
            var again := ResponseTo(Answer(Some(left), req.(now := now + k * NANOS_PER_SECOND)).value);
            && (stored.None? || Reload(stored.value).last.ns <= now ==> lag == 0)
            && match ResponseTo(d)
               case TooManyRequests(h, retryAfter) =>
                 && 0 <= h.remaining < cost && h.remaining <= h.limit == policy.capacity
                 && (again.Forwarded? <==>
                       cost <= policy.capacity && k >= DurationToHeaderSeconds(d.retryAfter + lag))
                 && (lag == 0 ==> DurationToHeaderSeconds(d.retryAfter + lag) == retryAfter)
                 && (t >= (h.reset + 1) * NANOS_PER_SECOND + lag ==>
                       Refill(t, Reload(left), req.cfg).tokens == policy.capacity)
               case Forwarded(h) =>
                 && 0 <= h.remaining && h.remaining + cost <= h.limit == policy.capacity
                 && (t >= (h.reset + 1) * NANOS_PER_SECOND + lag ==>
                       Refill(t, Reload(left), req.cfg).tokens == policy.capacity)
               case _ => false
  {
    hide Refill, Persist, Reload, Answer, MilliGrid, Behind, DurationToHeaderSeconds;
    var req := Request(ConfigOf(policy), cost, now);
    PolicyOnMillis(policy);
    AnswerShape(stored, req);
    FullByReset(stored, req, t);
    AgainAllowed(stored, req, k);
  }

  lemma PolicyOnMillis(policy: P.Policy)
    ensures MilliGrid(ConfigOf(policy))
  {
    var seconds: int := policy.refillIntervalSeconds;
    var interval := seconds * NANOS_PER_SECOND;
    assert interval == seconds * 1000 * NANOS_PER_MILLI;
    QuotientUnique(interval, NANOS_PER_MILLI, seconds * 1000);
    QuotientBounds(interval, NANOS_PER_MILLI);
  }

  lemma AnswerShape(stored: Option<Stored>, req: Request)
    requires ValidRequest(req)
    ensures var d := Answer(stored, req).value;
            && 0 <= d.remaining <= d.limit == req.cfg.capacity
            && (d.allowed ==> d.remaining + req.cost <= d.limit)
            && (!d.allowed ==> d.remaining < req.cost)
            && (stored.None? || Reload(stored.value).last.ns <= req.now ==> Behind(req.now, d.state) == 0)
  {
    hide Answer, Apply;
    AnswerIsDecide(stored, req);
    hide Decide;
    DecisionShape(req.now, ReadBucketState(stored, req.cfg, req.now), req.cfg, req.cost);
  }

  lemma FullByReset(stored: Option<Stored>, req: Request, t: int)
    requires ValidRequest(req)
    ensures var d := Answer(stored, req).value;
            t >= (d.resetAt / NANOS_PER_SECOND + 1) * NANOS_PER_SECOND + Behind(req.now, d.state) ==>
              Refill(t, Reload(Persist(d.state)), req.cfg).tokens == req.cfg.capacity
  {
    hide Refill, Persist, Answer, Apply;
    AnswerIsDecide(stored, req);
    hide Decide;
    var s, d := ReadBucketState(stored, req.cfg, req.now), Answer(stored, req).value;
    if t >= (d.resetAt / NANOS_PER_SECOND + 1) * NANOS_PER_SECOND + Behind(req.now, d.state) {
      QuotientBounds(d.resetAt, NANOS_PER_SECOND);
      DecisionShape(req.now, s, req.cfg, req.cost);
      TimeToLiveIsResetPlusInterval(req.now, s, req.cfg, req.cost);
      ExactReset(req.now, s, req.cfg, req.cost, t);
      StoredIsNotLater(d.state);
      EarlierInstantFullToo(t, d.state, Reload(Persist(d.state)), req.cfg);
    }
  }

  lemma AgainAllowed(stored: Option<Stored>, req: Request, k: nat)
    requires ValidRequest(req) && MilliGrid(req.cfg)
    ensures var d := Answer(stored, req).value;
            var again := Answer(Some(Persist(d.state)), req.(now := req.now + k * NANOS_PER_SECOND)).value;
            !d.allowed ==>
              (again.allowed <==> req.cost <= req.cfg.capacity
                                  && k >= DurationToHeaderSeconds(d.retryAfter + Behind(req.now, d.state)))
  {
    hide Persist, Answer, Apply;
    var d := Answer(stored, req).value;
    if req.cost <= req.cfg.capacity {
      ExactRetryThroughStore(stored, req, req.now + k * NANOS_PER_SECOND);
      HeaderSecondsLeast(d.retryAfter + Behind(req.now, d.state), k);
    } else {
      var later := req.(now := req.now + k * NANOS_PER_SECOND);
      AnswerIsDecide(Some(Persist(d.state)), later);
      hide Decide;
      TooCostlyForever(later.now, Reload(Persist(d.state)), req.cfg, req.cost);
    }
  }

  lemma StoredIsNotLater(s: Dated)
    ensures Reload(Persist(s)).tokens == s.tokens && Reload(Persist(s)).last.ns <= s.last.ns
  {
    QuotientBounds(s.last.ns, NANOS_PER_MILLI);
  }

  // ---- What the headers mean to a client ----

  predicate Judgeable(policy: P.Policy, cost: int) {
    policy.capacity > 0 && policy.refillTokens > 0 && policy.refillIntervalSeconds > 0 && cost > 0
  }

  // The response to a request on a bucket, and the bucket it leaves.
  function Judge(stored: Option<Stored>, policy: P.Policy, cost: int, now: int): (Response, Stored)
    requires Judgeable(policy, cost)
  {
    var d := Answer(stored, Request(ConfigOf(policy), cost, now)).value;
    (ResponseTo(d), Persist(d.state))
  }

  // The bucket left behind holds what the decision left, and gains nothing at its clock.
  lemma LeftAtOnce(stored: Option<Stored>, req: Request)
    requires ValidRequest(req) && MilliGrid(req.cfg)
    ensures var d := Answer(stored, req).value;
            var left := Reload(Persist(d.state));
            && left.tokens == d.state.tokens == d.remaining && 0 <= left.tokens <= req.cfg.capacity
            && Refill(req.now, left, req.cfg).tokens == left.tokens
            && (stored.None? ==> left.last.ns == req.now / NANOS_PER_MILLI * NANOS_PER_MILLI)
            && (stored.Some? ==> left == d.state)
  {
    hide Answer, Apply, Refill, Persist, Reload, MilliGrid;
    AnswerIsDecide(stored, req);
    hide Decide;
    var d := Answer(stored, req).value;
    DecisionShape(req.now, ReadBucketState(stored, req.cfg, req.now), req.cfg, req.cost);
    StoredIsNotLater(d.state);
    match stored {
      case Some(b) =>
        SaveReloadIsIdentity(b, req);
      case None =>
        FreshAnswer(req);
    }
    NoRefillYet(req.now, Reload(Persist(d.state)), req.cfg);
  }

  lemma NoRefillYet(now: int, s: Dated, cfg: Config)
    requires ValidConfig(cfg) && Normalized(s, cfg) && now < s.last.ns + cfg.refillInterval
    ensures Refill(now, s, cfg).tokens == s.tokens
  {
    hide Refill;
    RefillShape(now, s, cfg);
    if now >= s.last.ns {
      QuotientUnique(now - s.last.ns, cfg.refillInterval, 0);
    }
  }

  // A stored bucket forwards exactly the costs its refill covers.
  lemma ForwardsWhatRefillCovers(b: Stored, policy: P.Policy, cost: int, now: int)
    requires Judgeable(policy, cost) && 0 <= b.tokens <= policy.capacity
    ensures Judge(Some(b), policy, cost, now).0.Forwarded? <==> cost <= Refill(now, Reload(b), ConfigOf(policy)).tokens
  {
    hide Refill;
    PolicyOnMillis(policy);
    StoredAnswer(b, Request(ConfigOf(policy), cost, now));
    AnswerShape(Some(b), Request(ConfigOf(policy), cost, now));
  }

  // X-RateLimit-Remaining is the largest cost that a further request at the same clock
  // would be forwarded with, and X-RateLimit-Limit the largest that ever could be.
  lemma RemainingIsWhatIsLeft(stored: Option<Stored>, policy: P.Policy, cost: int, now: int, more: int)
    requires Judgeable(policy, cost) && more > 0
    ensures var (r, left) := Judge(stored, policy, cost, now);
            && (r.Forwarded? || r.TooManyRequests?)
            && r.headers.limit == policy.capacity
            && (Judge(Some(left), policy, more, now).0.Forwarded? <==> more <= r.headers.remaining)
  {
    hide Refill, Answer;
    var req := Request(ConfigOf(policy), cost, now);
    PolicyOnMillis(policy);
    LeftAtOnce(stored, req);
    AnswerShape(stored, req);
    ForwardsWhatRefillCovers(Persist(Answer(stored, req).value.state), policy, more, now);
  }

  // X-RateLimit-Reset is the whole second in which the bucket fills: a request for the
  // whole capacity is not forwarded before it, and is from the next second on.
  lemma ResetIsWhenFull(stored: Option<Stored>, policy: P.Policy, cost: int, now: int, t: int)
    requires Judgeable(policy, cost) && t >= now
    ensures var (r, left) := Judge(stored, policy, cost, now);
            var whole := Judge(Some(left), policy, policy.capacity, t).0;
            && (r.Forwarded? || r.TooManyRequests?)
            && (t < r.headers.reset * 1_000_000_000 ==> !whole.Forwarded?)
            && (t >= (r.headers.reset + 1) * 1_000_000_000 && (stored.Some? ==> Reload(stored.value).last.ns <= now)
                ==> whole.Forwarded?)
  {
    hide Refill, Answer;
    var req := Request(ConfigOf(policy), cost, now);
    PolicyOnMillis(policy);
    LeftAtOnce(stored, req);
    AnswerShape(stored, req);
    FullByReset(stored, req, t);
    NotFullBeforeReset(stored, req, t);
    ForwardsWhatRefillCovers(Persist(Answer(stored, req).value.state), policy, policy.capacity, t);
    RefillShape(t, Reload(Persist(Answer(stored, req).value.state)), req.cfg);
  }

  lemma NotFullBeforeReset(stored: Option<Stored>, req: Request, t: int)
    requires ValidRequest(req) && MilliGrid(req.cfg) && t >= req.now
    ensures var d := Answer(stored, req).value;
            t < d.resetAt / NANOS_PER_SECOND * NANOS_PER_SECOND ==>
              Refill(t, Reload(Persist(d.state)), req.cfg).tokens < req.cfg.capacity
  {
    hide Answer, Apply, Refill, Persist;
    AnswerIsDecide(stored, req);
    hide Decide;
    var s, d := ReadBucketState(stored, req.cfg, req.now), Answer(stored, req).value;
    var left := Reload(Persist(d.state));
    LeftAtOnce(stored, req);
    DecisionShape(req.now, s, req.cfg, req.cost);
    QuotientBounds(d.resetAt, NANOS_PER_SECOND);
    if t < d.resetAt / NANOS_PER_SECOND * NANOS_PER_SECOND {
      ExactReset(req.now, s, req.cfg, req.cost, t);
      RefillShape(t, left, req.cfg);
      if stored.None? {
        FreshAnswer(req);
        FreshNotFullBeforeReset(req, d, left, t);
      }
    }
  }

  // A fresh bucket is anchored up to a millisecond early, but not in an earlier second.
  lemma FreshNotFullBeforeReset(req: Request, d: Decision, left: Dated, t: int)
    requires ValidRequest(req) && MilliGrid(req.cfg) && Answer(None, req) == Ok(d)
    requires left == Reload(Persist(d.state)) && left.tokens == d.state.tokens && d.state.last.ns == req.now
    requires left.last.ns == req.now / NANOS_PER_MILLI * NANOS_PER_MILLI && Normalized(left, req.cfg)
    requires req.now <= t < d.resetAt / NANOS_PER_SECOND * NANOS_PER_SECOND
    ensures Refill(t, left, req.cfg).tokens < req.cfg.capacity
  {
    hide Answer, Apply, Refill, Persist;
    AnswerIsDecide(None, req);
    hide Decide;
    var s := ReadBucketState(None, req.cfg, req.now);
    DecisionShape(req.now, s, req.cfg, req.cost);
    TimeToLiveIsResetPlusInterval(req.now, s, req.cfg, req.cost);
    QuotientBounds(d.resetAt, NANOS_PER_SECOND);
    if left.tokens < req.cfg.capacity {
      ResetIsReady(req.now, s, req.cfg, req.cost);
      ReachesTarget(t, left, req.cfg, req.cfg.capacity);
      RefillShape(t, left, req.cfg);
      var wait := CeilDiv(req.cfg.capacity - left.tokens, req.cfg.refillTokens) * req.cfg.refillInterval;
      assert d.resetAt == req.now + wait;
      MultipleSum(0, CeilDiv(req.cfg.capacity - left.tokens, req.cfg.refillTokens), req.cfg.refillInterval);
      WholeSecondNotAfterMilli(req.now, wait);
    } else {
      ExactReset(req.now, s, req.cfg, req.cost, req.now);
    }
  }

  lemma WholeSecondNotAfterMilli(now: int, wait: int)
    requires wait % NANOS_PER_MILLI == 0
    ensures (now + wait) / NANOS_PER_SECOND * NANOS_PER_SECOND <= now / NANOS_PER_MILLI * NANOS_PER_MILLI + wait
  {
    var second := (now + wait) / NANOS_PER_SECOND;
    QuotientBounds(now + wait, NANOS_PER_SECOND);
    QuotientBounds(now, NANOS_PER_MILLI);
    QuotientUnique(second * NANOS_PER_SECOND, NANOS_PER_MILLI, second * 1000);
    MultipleSum(second * NANOS_PER_SECOND, -1, wait);
    MultipleOfMilli(second * NANOS_PER_SECOND - wait);
    QuotientMonotone(second * NANOS_PER_SECOND - wait, now, NANOS_PER_MILLI);
  }

  // What the policy row says: a new bucket emptied at a clock forwards, k policy intervals
  // later and with no other request, exactly the costs up to k times the refill tokens and
  // the capacity.
  lemma EmptiedBucketRefills(policy: P.Policy, now: int, k: nat, cost: int)
    requires Judgeable(policy, cost)
    ensures var (r, left) := Judge(None, policy, policy.capacity, now);
            && r.Forwarded? && r.headers.remaining == 0
            && (Judge(Some(left), policy, cost, now + k * policy.refillIntervalSeconds * 1_000_000_000).0.Forwarded?
                <==> cost <= policy.capacity && cost <= k * policy.refillTokens)
  {
    hide Refill, Answer, Apply;
    var cfg := ConfigOf(policy);
    var req := Request(cfg, policy.capacity, now);
    var later := now + k * policy.refillIntervalSeconds * 1_000_000_000;
    PolicyOnMillis(policy);
    FreshBucketNeverBlocks(req);
    LeftAtOnce(None, req);
    AnswerShape(None, req);
    var left := Persist(Answer(None, req).value.state);
    ForwardsWhatRefillCovers(left, policy, cost, later);
    RefillShape(later, Reload(left), cfg);
    assert k * policy.refillIntervalSeconds * 1_000_000_000 == k * cfg.refillInterval;
    MulNonneg(k, cfg.refillInterval);
    QuotientBounds(now, NANOS_PER_MILLI);
    assert (k + 1) * cfg.refillInterval == k * cfg.refillInterval + cfg.refillInterval;
    QuotientUnique(later - Reload(left).last.ns, cfg.refillInterval, k);
  }

  class Middleware {
    const routeID: string
    const cost: int
    const resolver: R.Resolver
    const buckets: BucketStore
    var audit: seq<BlockedRequest>

    constructor (routeID: string, cost: int, resolver: R.Resolver, buckets: BucketStore)
      ensures this.routeID == routeID && this.cost == cost
      ensures this.resolver == resolver && this.buckets == buckets && audit == []
    {
      this.routeID, this.cost, this.resolver, this.buckets := routeID, cost, resolver, buckets;
      audit := [];
    }

    // What resolving the request finds, if the route is known and Redis answers.
    function Found(apiKey: Option<UUID>): Option<R.Resolution>
      requires resolver.reader != null
      reads resolver.reader
    {
      R.FirstFound(resolver.reader.entries, R.Candidates(apiKey, TrimSpace(routeID)))
    }

    // The request reaches the bucket if and only if it carries a key, its route is known,
    // Redis answers and a policy is found; otherwise the response names which of these is
    // missing. There it is the call with the given id in a run of the protocol. A response
    // that forwards or blocks is the answer to the resolved policy's bucket as everything
    // before the commit left it, and leaves exactly that commit; any other response has
    // written nothing to any bucket, and at the bucket comes only from an invalid policy or
    // cost or after the key has changed at every attempt. A request is audited if and only
    // if it is blocked and the audit write succeeds.
    method EnforceRateLimit(apiKey: Option<UUID>, now: int, redisUp: bool, auditFails: bool, id: nat,
                            traffic: nat -> seq<Step>)
      returns (response: Response, ghost slots: nat)
      requires buckets.Valid() && id !in buckets.calls
      requires forall n: nat :: ByOthers(traffic(n), id)
      modifies this, buckets
      ensures buckets.Valid()
      ensures response == InternalServerError <==> apiKey.None?
      ensures response == ServiceUnavailable(ResolutionUnavailable) <==>
                apiKey.Some? && resolver.reader != null && (!ValidRoute(TrimSpace(routeID)) || !redisUp)
      ensures response == ServiceUnavailable(MissingPolicy) <==>
                && apiKey.Some?
                && (resolver.reader == null
                    || (ValidRoute(TrimSpace(routeID)) && redisUp && Found(apiKey).None?))
      ensures slots > 0 <==>
                && apiKey.Some? && resolver.reader != null
                && ValidRoute(TrimSpace(routeID)) && redisUp && Found(apiKey).Some?
      ensures slots == 0 ==> buckets.State() == old(buckets.State()) && buckets.steps == old(buckets.steps)
      ensures slots > 0 ==>
                && resolver.reader != null && Found(apiKey).Some?
                && var Resolution(policy, matched) := Found(apiKey).value;
                && var key := BucketKey(matched);
                && var req := Request(Config(policy.capacity, policy.refillTokens,
                                             policy.refillIntervalSeconds * 1_000_000_000), cost, now);
                && buckets.steps == old(buckets.steps) + Script(traffic, id, key, req, slots)
                && id in buckets.calls && buckets.calls[id].phase.Returned?
                && (response == ServiceUnavailable(LimitUnavailable) <==> buckets.calls[id].phase.outcome.Err?)
                && (response == ServiceUnavailable(LimitUnavailable) ==>
                      || !ValidRequest(req)
                      || KeyAt(buckets.State(), key).version >= KeyAt(old(buckets.State()), key).version + 32)
      ensures if response.Forwarded? || response.TooManyRequests? then
                && resolver.reader != null && buckets.steps != []
                && var before := Run(buckets.steps[..|buckets.steps| - 1]);
                && Found(apiKey).Some?
                && var Resolution(policy, matched) := Found(apiKey).value;
                && var key := BucketKey(matched);
                && var req := Request(Config(policy.capacity, policy.refillTokens,
                                             policy.refillIntervalSeconds * 1_000_000_000), cost, now);
                && var answer := Answer(Content(KeyAt(before, key)), req);
                && answer.Ok?
                && id in before.calls && before.calls[id].key == key && before.calls[id].req == req
                && buckets.State() == Commit(before, id, answer.value)
                && response == ResponseTo(answer.value)
                && audit == old(audit)
                            + if response.TooManyRequests? && !auditFails
                              then [BlockedRequest(apiKey.value, routeID, policy.id, ToInt32(cost),
                                                   answer.value.remaining)]
                              else []
              else
                && audit == old(audit)
                && forall key, e :: e in KeyAt(buckets.State(), key).history && e.Consumed? ==> e.id != id
    {
      hide TrimSpace, Answer, KeyFromParts, Run, Script, Commit, ByOthers, ToInt32, R.Candidates;
      slots := 0;
      NothingCommitted(buckets.steps, id);
      if apiKey.None? {
        return InternalServerError, 0;
      }
      var resolution := resolver.Resolve(apiKey, routeID, redisUp);
      if resolution.Err? {
        return ServiceUnavailable(ResolutionUnavailable), 0;
      }
      if resolution.value.None? {
        return ServiceUnavailable(MissingPolicy), 0;
      }
      var found := resolution.value.value;
      var outcome;
      outcome, slots := buckets.Consume(found.matched, ConfigOf(found.policy), cost, now, id, traffic);
      if outcome.Err? {
        NothingCommitted(buckets.steps, id);
        return ServiceUnavailable(LimitUnavailable), slots;
      }
      var decision := outcome.value;
      var headers := HeadersOf(decision);
      if !decision.allowed {
        ghost var before := Run(buckets.steps[..|buckets.steps| - 1]);
        RemainingSurvives(Content(KeyAt(before, BucketKey(found.matched))), found.policy, cost, now);
        if !auditFails {
          audit := audit + [BlockedRequest(apiKey.value, routeID, found.policy.id, ToInt32(cost),
                                           ToInt32(decision.remaining))];
        }
        return TooManyRequests(headers, DurationToHeaderSeconds(decision.retryAfter)), slots;
      }
      return Forwarded(headers), slots;
    }
  }

  lemma RemainingSurvives(stored: Option<Stored>, policy: P.Policy, cost: int, now: int)
    ensures var answer := Answer(stored, Request(ConfigOf(policy), cost, now));
            answer.Ok? ==> ToInt32(answer.value.remaining) == answer.value.remaining
  {
    if ValidRequest(Request(ConfigOf(policy), cost, now)) {
      ResponseIsConsistent(stored, policy, cost, now);
    }
  }
}
