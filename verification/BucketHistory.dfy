// What a bucket's Redis hash holds, and the sequential meaning of a history of commits
// and expiries: read, decide, persist, one commit after the other.
module BucketHistory {
  import opened Arithmetic
  import opened Wrappers
  import opened TokenBucket
  import opened WaitLaws

  // The hash fields tokens_remaining and last_refill_unix_ms.
  datatype Stored = Stored(tokens: int, lastMs: int)

  datatype Request = Request(cfg: Config, cost: int, now: int)

  // What happens to one key: a committed call (its number, its request and the server's
  // clock at the commit), or the removal of the expired key.
  datatype Event =
    | Consumed(id: nat, req: Request, at: int)
    | Expired(at: int)

  type History = seq<Event>

  // The deadline that EXPIRE sets, on the server's clock.
  function Deadline(at: int, d: Decision): int {
    at + ExpireSeconds(d.bucketTTL) * NANOS_PER_SECOND
  }

  predicate ValidRequest(req: Request) {
    ValidConfig(req.cfg) && req.cost > 0
  }

  // The refill instant is cut down to its millisecond.
  function Persist(s: Dated): Stored {
    Stored(s.tokens, s.last.ns / NANOS_PER_MILLI)
  }

  function Reload(b: Stored): Dated {
    State(b.tokens, At(b.lastMs * NANOS_PER_MILLI))
  }

  // A missing key reads as a full bucket that was refilled now.
  function ReadBucketState(stored: Option<Stored>, cfg: Config, now: int): State {
    match stored
    case None => State(cfg.capacity, At(now))
    case Some(b) => Reload(b)
  }

  function Answer(stored: Option<Stored>, req: Request): (r: Result<Decision, ApplyError>)
    ensures r.Ok? <==> ValidRequest(req)
  {
    Apply(req.now, ReadBucketState(stored, req.cfg, req.now), req.cfg, req.cost)
  }

  lemma AnswerIsDecide(stored: Option<Stored>, req: Request)
    requires ValidRequest(req)
    ensures Answer(stored, req) == Ok(Decide(req.now, ReadBucketState(stored, req.cfg, req.now), req.cfg, req.cost))
  {
    hide Decide;
  }

  predicate ValidHistory(h: History) {
    forall e :: e in h && e.Consumed? ==> ValidRequest(e.req)
  }

  // The content of the key after a history.
  function Replay(h: History): Option<Stored>
    requires ValidHistory(h)
  {
    if h == [] then None
    else
      var before, e := h[..|h| - 1], h[|h| - 1];
      match e
      case Expired(_) => None
      case Consumed(_, req, _) => Some(Persist(Answer(Replay(before), req).value.state))
  }

  // The decision the i-th event of a history was answered with.
  function DecisionAt(h: History, i: nat): Decision
    requires ValidHistory(h) && i < |h| && h[i].Consumed?
  {
    Answer(Replay(h[..i]), h[i].req).value
  }

  lemma ReplayAppend(h: History, e: Event)
    requires ValidHistory(h + [e])
    ensures ValidHistory(h)
    ensures e.Expired? ==> Replay(h + [e]) == None
    ensures e.Consumed? ==> Replay(h + [e]) == Some(Persist(Answer(Replay(h), e.req).value.state))
    ensures e.Consumed? ==> DecisionAt(h + [e], |h|) == Answer(Replay(h), e.req).value
  {
    forall f | f in h && f.Consumed? ensures ValidRequest(f.req) {
      assert f in h + [e];
    }
    assert (h + [e])[..|h + [e]| - 1] == h;
    assert (h + [e])[..|h|] == h;
  }

  // An interval of whole milliseconds, as whole seconds are.
  predicate MilliGrid(cfg: Config) {
    cfg.refillInterval % NANOS_PER_MILLI == 0
  }

  // ---- The store keeps the waiting times exact ----

  // Once a bucket is stored its refill instant stays on whole milliseconds, and saving
  // and reloading it loses nothing.
  lemma SaveReloadIsIdentity(b: Stored, req: Request)
    requires ValidRequest(req) && MilliGrid(req.cfg)
    ensures Reload(Persist(Answer(Some(b), req).value.state)) == Answer(Some(b), req).value.state
  {
    var start := NormalizeState(Reload(b), req.now, req.cfg.capacity);
    RefillShape(req.now, start, req.cfg);
    var k := Intervals(req.now, start, req.cfg);
    QuotientUnique(start.last.ns, NANOS_PER_MILLI, b.lastMs);
    assert start.last.ns % NANOS_PER_MILLI == 0;
    MultipleSum(start.last.ns, k, req.cfg.refillInterval);
    MultipleOfMilli(Answer(Some(b), req).value.state.last.ns);
  }

  lemma FreshBucketNeverBlocks(req: Request)
    requires ValidRequest(req) && req.cost <= req.cfg.capacity
    ensures Answer(None, req).value.allowed
  {
    RefillShape(req.now, State(req.cfg.capacity, At(req.now)), req.cfg);
    MulNonneg(Intervals(req.now, State(req.cfg.capacity, At(req.now)), req.cfg), req.cfg.refillTokens);
  }

  // Through the store: the blocked request, repeated against what its own commit left in
  // Redis, is allowed from now + RetryAfter on and not before (with the lag of a clock
  // behind the stored refill instant added).
  lemma ExactRetryThroughStore(stored: Option<Stored>, req: Request, t: int)
    requires ValidRequest(req) && MilliGrid(req.cfg) && req.cost <= req.cfg.capacity
    ensures var d := Answer(stored, req).value;
            !d.allowed ==>
              (Answer(Some(Persist(d.state)), req.(now := t)).value.allowed
               <==> t >= req.now + d.retryAfter + Behind(req.now, d.state))
  {
    if !Answer(stored, req).value.allowed {
      match stored
      case None => FreshBucketNeverBlocks(req);
      case Some(b) =>
        SaveReloadIsIdentity(b, req);
        ExactRetry(req.now, Reload(b), req.cfg, req.cost, t);
    }
  }

  // A refill instant moved back can only help.
  lemma EarlierInstantFullToo(t: int, s: Dated, earlier: Dated, cfg: Config)
    requires ValidConfig(cfg) && Normalized(s, cfg)
    requires earlier.tokens == s.tokens && earlier.last.ns <= s.last.ns
    requires Refill(t, s, cfg).tokens == cfg.capacity
    ensures Refill(t, earlier, cfg).tokens == cfg.capacity
  {
    RefillShape(t, earlier, cfg);
    if s.tokens < cfg.capacity {
      ReachesTarget(t, s, cfg, cfg.capacity);
      ReachesTarget(t, earlier, cfg, cfg.capacity);
    } else {
      MulNonneg(Intervals(t, earlier, cfg), cfg.refillTokens);
    }
  }

  // What a commit stored would have refilled to capacity at the earliest expiry it set,
  // and at every later time, so that a fresh bucket adds no tokens, exactly when the
  // request's clock was at most one interval behind its refill instant (or the bucket was
  // full).
  lemma SafeExpiryThroughStore(stored: Option<Stored>, req: Request, t: int)
    requires ValidRequest(req) && req.cfg.refillInterval % NANOS_PER_SECOND == 0
    ensures var d := Answer(stored, req).value;
            var left := Reload(Persist(d.state));
            var covered := d.state.tokens == req.cfg.capacity
                        || d.state.last.ns - req.now <= req.cfg.refillInterval;
            && (covered && t >= ExpiryInstant(req.now, d) ==> Refill(t, left, req.cfg).tokens == req.cfg.capacity)
            && (!covered ==> Refill(ExpiryInstant(req.now, d), left, req.cfg).tokens < req.cfg.capacity)
  {
    hide Refill, NormalizeState, ExpiryInstant, DurationUntilTokens, DurationUntilFull, BucketTTL;
    var s := ReadBucketState(stored, req.cfg, req.now);
    var d := Answer(stored, req).value;
    DecisionShape(req.now, s, req.cfg, req.cost);
    SafeExpiryOfPolicies(req.now, s, req.cfg, req.cost, t);
    match stored
    case None =>
      QuotientBounds(d.state.last.ns, NANOS_PER_MILLI);
      if t >= ExpiryInstant(req.now, d) {
        EarlierInstantFullToo(t, d.state, Reload(Persist(d.state)), req.cfg);
      }
    case Some(b) =>
      SaveReloadIsIdentity(b, req);
  }

  // ---- Equal requests at one clock ----

  function AllowedCount(h: History): nat
    requires ValidHistory(h)
  {
    if h == [] then 0
    else
      var n := |h| - 1;
      AllowedCount(h[..n]) + if h[n].Consumed? && DecisionAt(h, n).allowed then 1 else 0
  }

  // Any number of equal requests with one clock, committed in any order to a bucket that
  // did not exist, admit exactly as many as the capacity holds.
  lemma {:induction false} EqualRequestsAdmitExactly(h: History, req: Request)
    requires ValidRequest(req)
    requires forall e :: e in h ==> e.Consumed? && e.req == req
    requires req.now % NANOS_PER_MILLI < req.cfg.refillInterval
    ensures var admitted := Min(|h|, req.cfg.capacity / req.cost);
            && AllowedCount(h) == admitted
            && (h != [] ==> Replay(h) == Some(Stored(req.cfg.capacity - req.cost * admitted,
                                                     req.now / NANOS_PER_MILLI)))
  {
    hide Answer, Persist;
    var most := req.cfg.capacity / req.cost;
    OneMoreFits(req.cfg.capacity, req.cost, 0);
    if h != [] {
      var n := |h| - 1;
      var before := h[..n];
      EqualRequestsAdmitExactly(before, req);
      var admitted := Min(n, most);
      OneMoreFits(req.cfg.capacity, req.cost, admitted);
      SameClockStep(Replay(before), req, req.cfg.capacity - req.cost * admitted);
      assert h[n] in h;
    }
  }

  lemma OneMoreFits(capacity: int, cost: int, admitted: int)
    requires cost > 0 && capacity > 0 && 0 <= admitted <= capacity / cost
    ensures 0 <= capacity - cost * admitted <= capacity
    ensures capacity - cost * admitted >= cost <==> admitted < capacity / cost
    ensures cost * (admitted + 1) == cost * admitted + cost
    ensures cost * 0 == 0
  {
    QuotientBounds(capacity, cost);
    MulLe(0, admitted, cost);
    MulLe(admitted, capacity / cost, cost);
    if admitted < capacity / cost {
      MulLe(admitted + 1, capacity / cost, cost);
    }
  }

  lemma SameClockStep(stored: Option<Stored>, req: Request, tokens: int)
    requires ValidRequest(req) && 0 <= tokens <= req.cfg.capacity
    requires req.now % NANOS_PER_MILLI < req.cfg.refillInterval
    requires stored.None? ==> tokens == req.cfg.capacity
    requires stored.Some? ==> stored.value == Stored(tokens, req.now / NANOS_PER_MILLI)
    ensures var d := Answer(stored, req).value;
            && (d.allowed <==> tokens >= req.cost)
            && Persist(d.state) == Stored(if tokens >= req.cost then tokens - req.cost else tokens,
                                          req.now / NANOS_PER_MILLI)
  {
    var start := NormalizeState(ReadBucketState(stored, req.cfg, req.now), req.now, req.cfg.capacity);
    QuotientBounds(req.now, NANOS_PER_MILLI);
    QuotientUnique(req.now - start.last.ns, req.cfg.refillInterval, 0);
    QuotientUnique(start.last.ns, NANOS_PER_MILLI, req.now / NANOS_PER_MILLI);
  }
}
