// Where the window bound ends: for intervals of whole seconds, as every policy has, the
// exact limits on the clocks within which every policy, run and window keeps it.
module ClockLimits {
  import opened Arithmetic
  import opened Wrappers
  import opened TokenBucket
  import opened WaitLaws
  import opened BucketHistory
  import opened WindowBound
  import opened ConsumeProtocol
  import opened RunHistories
  import opened ConsumeGuarantees
  import opened ClockWitnesses

  // A bucket used under one policy in a run, with clocks within the limits.
  predicate InScope(cfg: Config, steps: seq<Step>, key: string, disorder: nat, ahead: int, early: int) {
    var h := KeyAt(Run(steps), key).history;
    OnePolicy(h, cfg) && ClocksLimited(h, disorder, ahead, early)
  }

  // The bound for one window, with some disorder counted to it.
  predicate Keeps(cfg: Config, steps: seq<Step>, key: string, t0: int, t1: int, counted: int) {
    var h := KeyAt(Run(steps), key).history;
    ValidConfig(cfg) && ValidHistory(h) && Admitted(h, t0, t1) <= Bound(cfg, t0, t1 + counted)
  }

  ghost predicate BoundKept(interval: int, counted: int, disorder: nat, ahead: int, early: int) {
    forall cfg, steps, key, t0, t1 ::
      InScope(cfg, steps, key, disorder, ahead, early) && cfg.refillInterval == interval && t0 <= t1
      ==> Keeps(cfg, steps, key, t0, t1, counted)
  }

  // ---- The policy and the requests that reach the limits ----

  // One token an interval, and a capacity that takes some of them, and one more.
  function Policy(interval: int, refills: int): Config {
    Config(refills + 1, 1, interval)
  }

  // Spends a full bucket.
  function Spend(cfg: Config, now: int): Request {
    Request(cfg, cfg.capacity, now)
  }

  // Costs more than the capacity, so that it is blocked and only moves the bucket along.
  function Probe(cfg: Config, now: int): Request {
    Request(cfg, cfg.capacity + 3, now)
  }

  // A start that lets the server's clock, behind by the skew, start at zero or later.
  function Base(ahead: int): int {
    Max(0, ahead) * NANOS_PER_SECOND
  }

  lemma BaseOnMillis(ahead: int)
    ensures Base(ahead) >= ahead
    ensures Base(ahead) / NANOS_PER_MILLI * NANOS_PER_MILLI == Base(ahead)
  {
    QuotientUnique(Base(ahead), NANOS_PER_MILLI, Max(0, ahead) * 1000);
  }

  lemma ProbeFresh(cfg: Config, now: int)
    requires ValidConfig(cfg)
    ensures var d := Answer(None, Probe(cfg, now)).value;
            !d.allowed && Persist(d.state) == Stored(cfg.capacity, now / NANOS_PER_MILLI)
  {
    FreshRefill(State(cfg.capacity, At(now)), Probe(cfg, now));
  }

  // A full bucket can be spent at every clock; before the next refill its grid stays.
  lemma SpendFull(cfg: Config, ms: int, now: int)
    requires ValidConfig(cfg)
    ensures var d := Answer(Some(Stored(cfg.capacity, ms)), Spend(cfg, now)).value;
            && d.allowed
            && (0 <= now - ms * NANOS_PER_MILLI < cfg.refillInterval ==> Persist(d.state) == Stored(0, ms))
  {
    var s: Dated := State(cfg.capacity, At(ms * NANOS_PER_MILLI));
    RefillShape(now, s, cfg);
    MulNonneg(Intervals(now, s, cfg), cfg.refillTokens);
    QuotientUnique(ms * NANOS_PER_MILLI, NANOS_PER_MILLI, ms);
    if 0 <= now - s.last.ns < cfg.refillInterval {
      QuotientUnique(now - s.last.ns, cfg.refillInterval, 0);
    }
  }

  // A spent bucket, probed a nanosecond after its next refill instant: its time to live is
  // one nanosecond short of whole intervals.
  lemma ProbeAfterRefill(interval: int, refills: int, ms: int)
    requires interval >= NANOS_PER_SECOND && refills >= 1
    ensures var cfg, last := Policy(interval, refills), ms * NANOS_PER_MILLI;
            var d := Answer(Some(Stored(0, ms)), Probe(cfg, last + interval + 1)).value;
            && !d.allowed
            && d.bucketTTL == (refills + 1) * interval - 1
  {
    hide Refill, Intervals, DurationUntilFull, DurationUntilTokens, BucketTTL;
    var cfg, last := Policy(interval, refills), ms * NANOS_PER_MILLI;
    var s: Dated := State(0, At(last));
    var now, cost := last + interval + 1, cfg.capacity + 3;
    assert Intervals(now, s, cfg) == 1 by {
      OneInterval(interval, s, cfg, now);
    }
    RefillShape(now, s, cfg);
    var d := Decide(now, s, cfg, cost);
    assert d.state == State(1, At(last + interval)) && !d.allowed;
    TimeToLiveIsResetPlusInterval(now, s, cfg, cost);
    ResetIsReady(now, s, cfg, cost);
    assert ReadyAt(d.state, cfg, cfg.capacity) == last + interval + refills * interval by {
      assert CeilDiv(refills, 1) == refills;
    }
    assert (refills + 1) * interval == refills * interval + interval;
  }

  lemma OneInterval(interval: int, s: Dated, cfg: Config, now: int)
    requires interval >= NANOS_PER_SECOND && cfg.refillInterval == interval && ValidConfig(cfg)
    requires now == s.last.ns + interval + 1
    ensures Intervals(now, s, cfg) == 1
  {
    QuotientUnique(interval + 1, interval, 1);
  }

  // EXPIRE cuts that time to live down by almost a second.
  lemma AlmostASecondCut(intervals: int, interval: int)
    requires intervals >= 2 && interval >= NANOS_PER_SECOND && interval % NANOS_PER_SECOND == 0
    ensures ExpireSeconds(intervals * interval - 1) * NANOS_PER_SECOND == intervals * interval - NANOS_PER_SECOND
  {
    var seconds := intervals * (interval / NANOS_PER_SECOND);
    assert intervals * interval == seconds * NANOS_PER_SECOND;
    MulLe(2, intervals, interval);
    QuotientUnique(intervals * interval - 1, NANOS_PER_SECOND, seconds - 1);
  }

  // A spent bucket, probed when it is full again.
  lemma ProbeWhenFull(interval: int, refills: int, ms: int, now: int)
    requires interval > 0 && refills >= 1 && now - ms * NANOS_PER_MILLI >= (refills + 1) * interval
    ensures var d := Answer(Some(Stored(0, ms)), Probe(Policy(interval, refills), now)).value;
            !d.allowed && d.state.tokens == refills + 1
  {
    var cfg := Policy(interval, refills);
    var s: Dated := State(0, At(ms * NANOS_PER_MILLI));
    assert CeilDiv(refills + 1, 1) == refills + 1;
    ReachesTarget(now, s, cfg, cfg.capacity);
    RefillShape(now, s, cfg);
  }

  // ---- Histories within limits, one event at a time ----

  // What the limits ask of a history with these numbers of calls, clocks and server times.
  predicate Within(h: History, cfg: Config, next: nat, top: int, clock: int, disorder: nat, ahead: int, early: int) {
    && OnePolicy(h, cfg) && ClocksLimited(h, disorder, ahead, early)
    && DistinctCommits(h) && clock >= 0 && TimedUpTo(h, clock)
    && Numbered(h, next, top)
  }

  predicate Numbered(h: History, next: nat, top: int) {
    forall i :: 0 <= i < |h| && h[i].Consumed? ==> h[i].id < next && h[i].req.now <= top
  }

  lemma NumberedAppend(h: History, next: nat, top: int, req: Request, at: int)
    requires Numbered(h, next, top) && DistinctCommits(h)
    ensures Numbered(h + [Consumed(next, req, at)], next + 1, Max(top, req.now))
    ensures DistinctCommits(h + [Consumed(next, req, at)])
  {
  }

  lemma PolicyAppend(h: History, cfg: Config, e: Event)
    requires OnePolicy(h, cfg) && (e.Consumed? ==> e.req.cfg == cfg && e.req.cost > 0)
    ensures OnePolicy(h + [e], cfg)
  {
    hide MilliGrid, ValidConfig;
  }

  lemma LimitsAppend(h: History, next: nat, top: int, disorder: nat, ahead: int, early: int, req: Request, at: int)
    requires ClocksLimited(h, disorder, ahead, early) && Numbered(h, next, top)
    requires top - disorder <= req.now <= at + ahead
    requires h != [] && h[|h| - 1].Expired? ==> req.now >= h[|h| - 1].at - early
    ensures ClocksLimited(h + [Consumed(next, req, at)], disorder, ahead, early)
  {
  }

  lemma CommitWithin(h: History, cfg: Config, next: nat, top: int, clock: int, disorder: nat, ahead: int, early: int,
                     req: Request, at: int)
    requires Within(h, cfg, next, top, clock, disorder, ahead, early)
    requires req.cfg == cfg && req.cost > 0 && at >= clock
    requires top - disorder <= req.now <= at + ahead
    requires h != [] && h[|h| - 1].Expired? ==> req.now >= h[|h| - 1].at - early
    ensures Within(h + [Consumed(next, req, at)], cfg, next + 1, Max(top, req.now), at, disorder, ahead, early)
  {
    hide OnePolicy, ClocksLimited, DistinctCommits, TimedUpTo, Numbered;
    var e := Consumed(next, req, at);
    NumberedAppend(h, next, top, req, at);
    PolicyAppend(h, cfg, e);
    LimitsAppend(h, next, top, disorder, ahead, early, req, at);
    LaterClock(h, clock, at);
    TimedAppend(h, at, e);
  }

  lemma ExpiryWithin(h: History, cfg: Config, next: nat, top: int, clock: int, disorder: nat, ahead: int, early: int,
                     at: int)
    requires Within(h, cfg, next, top, clock, disorder, ahead, early) && at >= clock
    ensures Within(h + [Expired(at)], cfg, next, top, at, disorder, ahead, early)
  {
  }

  lemma NothingWithin(cfg: Config, top: int, disorder: nat, ahead: int, early: int)
    requires ValidConfig(cfg) && MilliGrid(cfg)
    ensures Within([], cfg, 0, top, 0, disorder, ahead, early)
  {
  }

  // ---- Recreation one nanosecond too early ----

  // The bucket is spent just before a refill instant and probed just after it; when it has
  // expired, a probe with a clock one nanosecond before it was full recreates it, and a
  // request behind that by the disorder spends it again.
  function Recreated(interval: int, refills: int, disorder: nat, ahead: int): History {
    var cfg, base := Policy(interval, refills), Base(ahead);
    var gone := base + interval + 1 - ahead + (refills + 1) * interval - NANOS_PER_SECOND;
    var before := base + (refills + 1) * interval - 1;
    [Consumed(0, Probe(cfg, base), base - ahead)]
    + [Consumed(1, Spend(cfg, base + interval - 1), base + interval - 1 - ahead)]
    + [Consumed(2, Probe(cfg, base + interval + 1), base + interval + 1 - ahead)]
    + [Expired(gone)]
    + [Consumed(3, Probe(cfg, before), gone)]
    + [Consumed(4, Spend(cfg, before - disorder), gone)]
  }

  lemma RecreatedAdmits(interval: int, refills: int, disorder: nat, ahead: int)
    requires interval > 0 && interval % NANOS_PER_SECOND == 0
    requires refills >= 1 && refills * interval >= disorder
    ensures var h, base := Recreated(interval, refills, disorder, ahead), Base(ahead);
            && ValidHistory(h) && ExpiredOnTime(h)
            && Admitted(h, base + interval - 1, base + (refills + 1) * interval - 1 - disorder) == 2 * (refills + 1)
  {
    hide Answer, Replay, Admitted, Persist, Base, ExpiredOnTime, DecisionAt;
    var cfg, base := Policy(interval, refills), Base(ahead);
    var before := base + (refills + 1) * interval - 1;
    var t0, t1 := base + interval - 1, before - disorder;
    var gone := base + interval + 1 - ahead + (refills + 1) * interval - NANOS_PER_SECOND;
    BaseOnMillis(ahead);
    var ms := base / NANOS_PER_MILLI;
    assert (refills + 1) * interval == refills * interval + interval;
    assert t0 <= t1 < before + 1;

    var e0 := Consumed(0, Probe(cfg, base), base - ahead);
    var e1 := Consumed(1, Spend(cfg, t0), t0 - ahead);
    var e2 := Consumed(2, Probe(cfg, base + interval + 1), base + interval + 1 - ahead);
    var e3 := Consumed(3, Probe(cfg, before), gone);
    var e4 := Consumed(4, Spend(cfg, t1), gone);
    NothingYet(t0, t1);
    ProbeFresh(cfg, base);
    Extend([], e0, t0, t1);
    SpendFull(cfg, ms, t0);
    Extend([] + [e0], e1, t0, t1);
    ProbeAfterRefill(interval, refills, ms);
    Extend([] + [e0] + [e1], e2, t0, t1);
    Extend([] + [e0] + [e1] + [e2], Expired(gone), t0, t1);
    ProbeFresh(cfg, before);
    Extend([] + [e0] + [e1] + [e2] + [Expired(gone)], e3, t0, t1);
    SpendFull(cfg, before / NANOS_PER_MILLI, t1);
    Extend([] + [e0] + [e1] + [e2] + [Expired(gone)] + [e3], e4, t0, t1);

    NothingExpires();
    CommitAllowed([], 0, e0.req, e0.at);
    CommitAllowed([] + [e0], 1, e1.req, e1.at);
    AlmostASecondCut(refills + 1, interval);
    ExpiryAllowed([] + [e0] + [e1], 2, e2.req, e2.at, gone);
    CommitAllowed([] + [e0] + [e1] + [e2] + [Expired(gone)], 3, e3.req, e3.at);
    CommitAllowed([] + [e0] + [e1] + [e2] + [Expired(gone)] + [e3], 4, e4.req, e4.at);
    assert [] + [e0] == [e0];
  }

  lemma NothingExpires()
    ensures ValidHistory([]) && ExpiredOnTime([])
  {
  }

  lemma RecreatedInLimits(interval: int, refills: int, disorder: nat, ahead: int, early: int)
    requires interval > 0 && interval % NANOS_PER_SECOND == 0
    requires refills >= 1 && refills * interval >= disorder
    requires ahead + early > interval - NANOS_PER_SECOND + 1
    ensures var h := Recreated(interval, refills, disorder, ahead);
            && OnePolicy(h, Policy(interval, refills)) && ClocksLimited(h, disorder, ahead, early)
            && DistinctCommits(h) && Timed(h)
  {
    hide Base, Within, ClocksLimited, OnePolicy, DistinctCommits, Timed, MilliGrid;
    var cfg, base := Policy(interval, refills), Base(ahead);
    var before := base + (refills + 1) * interval - 1;
    var gone := base + interval + 1 - ahead + (refills + 1) * interval - NANOS_PER_SECOND;
    BaseOnMillis(ahead);
    WholeMillis(cfg);
    assert (refills + 1) * interval == refills * interval + interval;
    MulLe(1, refills, interval);
    var e0 := Consumed(0, Probe(cfg, base), base - ahead);
    var e1 := Consumed(1, Spend(cfg, base + interval - 1), base + interval - 1 - ahead);
    var e2 := Consumed(2, Probe(cfg, base + interval + 1), base + interval + 1 - ahead);
    var e3 := Consumed(3, Probe(cfg, before), gone);
    var e4 := Consumed(4, Spend(cfg, before - disorder), gone);
    NothingWithin(cfg, base, disorder, ahead, early);
    CommitWithin([], cfg, 0, base, 0, disorder, ahead, early, e0.req, e0.at);
    CommitWithin([] + [e0], cfg, 1, base, e0.at, disorder, ahead, early, e1.req, e1.at);
    CommitWithin([] + [e0] + [e1], cfg, 2, e1.req.now, e1.at, disorder, ahead, early, e2.req, e2.at);
    ExpiryWithin([] + [e0] + [e1] + [e2], cfg, 3, e2.req.now, e2.at, disorder, ahead, early, gone);
    var left := [] + [e0] + [e1] + [e2] + [Expired(gone)];
    CommitWithin(left, cfg, 3, e2.req.now, gone, disorder, ahead, early, e3.req, gone);
    CommitWithin(left + [e3], cfg, 4, before, gone, disorder, ahead, early, e4.req, gone);
    assert [] + [e0] == [e0];
    WithinLimits(left + [e3] + [e4], cfg, 5, before, gone, disorder, ahead, early);
  }

  lemma WithinLimits(h: History, cfg: Config, next: nat, top: int, clock: int, disorder: nat, ahead: int, early: int)
    requires Within(h, cfg, next, top, clock, disorder, ahead, early)
    ensures OnePolicy(h, cfg) && ClocksLimited(h, disorder, ahead, early) && DistinctCommits(h) && Timed(h)
  {
  }

  lemma WholeMillis(cfg: Config)
    requires cfg.refillInterval % NANOS_PER_SECOND == 0
    ensures MilliGrid(cfg)
  {
    QuotientUnique(cfg.refillInterval, NANOS_PER_MILLI, cfg.refillInterval / NANOS_PER_SECOND * 1000);
  }

  lemma TooEarlyBreaks(interval: int, disorder: nat, ahead: int, early: int)
    requires interval > 0 && interval % NANOS_PER_SECOND == 0
    requires ahead + early > interval - NANOS_PER_SECOND + 1
    ensures !BoundKept(interval, disorder, disorder, ahead, early)
  {
    hide Run, Recreated, ClocksLimited, Admitted, BoundKept, Base, OnePolicy;
    var refills := Max(1, CeilDiv(disorder, interval));
    CeilDivLeast(disorder, interval, refills);
    RecreatedAdmits(interval, refills, disorder, ahead);
    RecreatedInLimits(interval, refills, disorder, ahead, early);
    var h := Recreated(interval, refills, disorder, ahead);
    var t0 := Base(ahead) + interval - 1;
    Overspent(interval, refills, h, disorder, ahead, early, disorder, t0, t0 + refills * interval - disorder);
  }

  // A history that spends the policy's bucket twice in a window of its refills.
  lemma Overspent(interval: int, refills: int, h: History, disorder: nat, ahead: int, early: int,
                  counted: int, t0: int, t1: int)
    requires interval > 0 && refills >= 1 && Possible(h)
    requires OnePolicy(h, Policy(interval, refills)) && ClocksLimited(h, disorder, ahead, early)
    requires t0 <= t1 && t1 - t0 + counted == refills * interval
    ensures Admitted(h, t0, t1) == 2 * (refills + 1) ==> !BoundKept(interval, counted, disorder, ahead, early)
  {
    hide Run, ClocksLimited, Admitted, OnePolicy;
    var steps := Realize(h, "k");
    var cfg := Policy(interval, refills);
    assert InScope(cfg, steps, "k", disorder, ahead, early);
    CeilDivShift(0, refills, interval);
    QuotientUnique(interval - 1, interval, 0);
    assert Bound(cfg, t0, t1 + counted) == 2 * refills + 1;
    assert Admitted(h, t0, t1) == 2 * (refills + 1) ==> !Keeps(cfg, steps, "k", t0, t1, counted);
  }

  // ---- Disorder that is not counted ----

  // The bucket is spent just before a refill instant, probed at the latest clock that the
  // disorder allows, and spent again at the end of the window.
  function Disordered(interval: int, refills: int, disorder: nat, counted: int, ahead: int): History {
    var cfg, base := Policy(interval, refills), Base(ahead);
    var end := base + interval - 1 + refills * interval - counted;
    [Consumed(0, Probe(cfg, base), base - ahead)]
    + [Consumed(1, Spend(cfg, base + interval - 1), base + interval - 1 - ahead)]
    + [Consumed(2, Probe(cfg, end + disorder), end + disorder - ahead)]
    + [Consumed(3, Spend(cfg, end), end + disorder - ahead)]
  }

  lemma DisorderedAdmits(interval: int, refills: int, disorder: nat, counted: int, ahead: int)
    requires interval >= NANOS_PER_SECOND && refills >= 1 && refills * interval >= counted && counted < disorder
    ensures var h, base := Disordered(interval, refills, disorder, counted, ahead), Base(ahead);
            && ValidHistory(h) && ExpiredOnTime(h)
            && Admitted(h, base + interval - 1, base + interval - 1 + refills * interval - counted)
               == 2 * (refills + 1)
  {
    hide Answer, Replay, Admitted, Persist, Base, ExpiredOnTime, DecisionAt;
    var cfg, base := Policy(interval, refills), Base(ahead);
    var t0 := base + interval - 1;
    var t1 := t0 + refills * interval - counted;
    BaseOnMillis(ahead);
    var ms := base / NANOS_PER_MILLI;
    assert (refills + 1) * interval == refills * interval + interval;

    var e0 := Consumed(0, Probe(cfg, base), base - ahead);
    var e1 := Consumed(1, Spend(cfg, t0), t0 - ahead);
    var e2 := Consumed(2, Probe(cfg, t1 + disorder), t1 + disorder - ahead);
    var e3 := Consumed(3, Spend(cfg, t1), t1 + disorder - ahead);
    NothingYet(t0, t1);
    ProbeFresh(cfg, base);
    Extend([], e0, t0, t1);
    SpendFull(cfg, ms, t0);
    Extend([] + [e0], e1, t0, t1);
    ProbeWhenFull(interval, refills, ms, t1 + disorder);
    Extend([] + [e0] + [e1], e2, t0, t1);
    SpendFull(cfg, Replay([] + [e0] + [e1] + [e2]).value.lastMs, t1);
    StoredTokens(Answer(Replay([] + [e0] + [e1]), e2.req).value.state);
    Extend([] + [e0] + [e1] + [e2], e3, t0, t1);

    NothingExpires();
    CommitAllowed([], 0, e0.req, e0.at);
    CommitAllowed([] + [e0], 1, e1.req, e1.at);
    CommitAllowed([] + [e0] + [e1], 2, e2.req, e2.at);
    CommitAllowed([] + [e0] + [e1] + [e2], 3, e3.req, e3.at);
    assert [] + [e0] == [e0];
  }

  lemma StoredTokens(s: Dated)
    ensures Persist(s).tokens == s.tokens
  {
  }

  lemma DisorderedInLimits(interval: int, refills: int, disorder: nat, counted: int, ahead: int, early: int)
    requires interval > 0 && interval % NANOS_PER_SECOND == 0
    requires refills >= 1 && refills * interval >= counted && counted < disorder
    ensures var h := Disordered(interval, refills, disorder, counted, ahead);
            && OnePolicy(h, Policy(interval, refills)) && ClocksLimited(h, disorder, ahead, early)
            && DistinctCommits(h) && Timed(h)
  {
    hide Base, Within, ClocksLimited, OnePolicy, DistinctCommits, Timed, MilliGrid;
    var cfg, base := Policy(interval, refills), Base(ahead);
    var end := base + interval - 1 + refills * interval - counted;
    BaseOnMillis(ahead);
    WholeMillis(cfg);
    var e0 := Consumed(0, Probe(cfg, base), base - ahead);
    var e1 := Consumed(1, Spend(cfg, base + interval - 1), base + interval - 1 - ahead);
    var e2 := Consumed(2, Probe(cfg, end + disorder), end + disorder - ahead);
    var e3 := Consumed(3, Spend(cfg, end), e2.at);
    NothingWithin(cfg, base, disorder, ahead, early);
    CommitWithin([], cfg, 0, base, 0, disorder, ahead, early, e0.req, e0.at);
    CommitWithin([] + [e0], cfg, 1, base, e0.at, disorder, ahead, early, e1.req, e1.at);
    CommitWithin([] + [e0] + [e1], cfg, 2, e1.req.now, e1.at, disorder, ahead, early, e2.req, e2.at);
    CommitWithin([] + [e0] + [e1] + [e2], cfg, 3, e2.req.now, e2.at, disorder, ahead, early, e3.req, e3.at);
    assert [] + [e0] == [e0];
    WithinLimits([] + [e0] + [e1] + [e2] + [e3], cfg, 4, e2.req.now, e2.at, disorder, ahead, early);
  }

  lemma UncountedDisorderBreaks(interval: int, counted: int, disorder: nat, ahead: int, early: int)
    requires interval > 0 && interval % NANOS_PER_SECOND == 0 && counted < disorder
    ensures !BoundKept(interval, counted, disorder, ahead, early)
  {
    hide Run, Disordered, ClocksLimited, Admitted, BoundKept, Base, OnePolicy;
    var refills := Max(1, CeilDiv(counted, interval));
    CeilDivLeast(counted, interval, refills);
    DisorderedAdmits(interval, refills, disorder, counted, ahead);
    DisorderedInLimits(interval, refills, disorder, counted, ahead, early);
    var h := Disordered(interval, refills, disorder, counted, ahead);
    var t0 := Base(ahead) + interval - 1;
    Overspent(interval, refills, h, disorder, ahead, early, counted, t0, t0 + refills * interval - counted);
  }

  // ---- The exact limits ----

  // Every policy of an interval of whole seconds, run and window within the limits keeps
  // the bound, with no more than the disorder counted to the window, if and only if all of
  // the disorder is counted and the skew ahead of the server and the earliness of
  // recreating requests together are at most the interval less the part of a second that
  // EXPIRE can cut off.
  lemma ExactClockLimits(interval: int, counted: int, disorder: nat, ahead: int, early: int)
    requires interval > 0 && interval % NANOS_PER_SECOND == 0 && counted <= disorder
    ensures BoundKept(interval, counted, disorder, ahead, early)
       <==> counted == disorder && ahead + early <= interval - NANOS_PER_SECOND + 1
  {
    hide Run, ClocksLimited, Admitted, OnePolicy;
    if counted < disorder {
      UncountedDisorderBreaks(interval, counted, disorder, ahead, early);
    } else if ahead + early > interval - NANOS_PER_SECOND + 1 {
      TooEarlyBreaks(interval, disorder, ahead, early);
    } else {
      forall cfg, steps, key, t0, t1 |
        InScope(cfg, steps, key, disorder, ahead, early) && cfg.refillInterval == interval && t0 <= t1
        ensures Keeps(cfg, steps, key, t0, t1, counted)
      {
        PolicyIsValid(KeyAt(Run(steps), key).history, cfg);
        EveryRunWithinBound(steps, key, cfg, t0, t1, disorder, ahead, early);
      }
    }
  }

  lemma PolicyIsValid(h: History, cfg: Config)
    requires OnePolicy(h, cfg)
    ensures ValidConfig(cfg)
  {
  }
}
