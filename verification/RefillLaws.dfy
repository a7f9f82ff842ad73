// What lazy refilling means: it is indistinguishable from a clock that ticks on the
// grid, it composes, it keeps a token ledger under any clocks, and blocked requests
// leave no trace.
module RefillLaws {
  import opened Arithmetic
  import opened Wrappers
  import opened TokenBucket

  // The reference: at each grid instant up to now, add the refill tokens and clamp.
  function Tick(now: int, s: Dated, cfg: Config): Dated
    requires ValidConfig(cfg)
    decreases Max(0, now - s.last.ns)
  {
    if s.last.ns + cfg.refillInterval > now then
      s
    else
      Tick(now,
           State(Min(cfg.capacity, s.tokens + cfg.refillTokens), At(s.last.ns + cfg.refillInterval)),
           cfg)
  }

  // Refilling twice is refilling once, at the later of the two clocks, in either order.
  lemma RefillComposes(t1: int, t2: int, s: Dated, cfg: Config)
    requires ValidConfig(cfg) && Normalized(s, cfg)
    ensures Refill(t2, Refill(t1, s, cfg), cfg) == Refill(Max(t1, t2), s, cfg)
  {
    var mid := Refill(t1, s, cfg);
    RefillShape(t1, s, cfg);
    RefillShape(t2, mid, cfg);
    if t2 >= mid.last.ns {
      if t1 <= t2 {
        RefillTwiceForward(t1, t2, s, cfg);
      } else {
        QuotientUnique(t2 - mid.last.ns, cfg.refillInterval, 0);
      }
    } else if t1 <= t2 {
      assert t1 < s.last.ns;
    }
  }

  // Products of interval counts add up.
  lemma AddUp(cfg: Config, k1: int, k2: int)
    requires ValidConfig(cfg) && k1 >= 0
    ensures (k1 + k2) * cfg.refillInterval == k1 * cfg.refillInterval + k2 * cfg.refillInterval
    ensures cfg.refillTokens * (k1 + k2) == cfg.refillTokens * k1 + cfg.refillTokens * k2
    ensures (k1 + k2) * cfg.refillTokens == k1 * cfg.refillTokens + k2 * cfg.refillTokens
    ensures k1 * cfg.refillInterval >= 0 && k1 * cfg.refillTokens >= 0
  {
    MulNonneg(k1, cfg.refillInterval);
    MulNonneg(k1, cfg.refillTokens);
  }

  lemma IntervalsAfter(t: int, s: Dated, k: int, mid: Dated, cfg: Config)
    requires ValidConfig(cfg) && k >= 0
    requires mid.last.ns == s.last.ns + k * cfg.refillInterval <= t
    ensures Intervals(t, mid, cfg) == Intervals(t, s, cfg) - k >= 0
  {
    MulNonneg(k, cfg.refillInterval);
    QuotientShift(t - s.last.ns, k, cfg.refillInterval);
    QuotientBounds(t - mid.last.ns, cfg.refillInterval);
  }

  lemma {:induction false} RefillIsTicking(now: int, s: Dated, cfg: Config)
    requires ValidConfig(cfg) && Normalized(s, cfg)
    ensures Refill(now, s, cfg) == Tick(now, s, cfg)
    decreases Max(0, now - s.last.ns)
  {
    if s.last.ns + cfg.refillInterval > now {
      if now >= s.last.ns {
        QuotientUnique(now - s.last.ns, cfg.refillInterval, 0);
      }
    } else {
      var next: Dated := State(Min(cfg.capacity, s.tokens + cfg.refillTokens),
                               At(s.last.ns + cfg.refillInterval));
      RefillIsTicking(now, next, cfg);
      OneTickFirst(now, s, next, cfg);
    }
  }

  lemma OneTickFirst(now: int, s: Dated, next: Dated, cfg: Config)
    requires ValidConfig(cfg) && Normalized(s, cfg)
    requires next == State(Min(cfg.capacity, s.tokens + cfg.refillTokens), At(s.last.ns + cfg.refillInterval))
    requires next.last.ns <= now
    ensures Refill(now, next, cfg) == Refill(now, s, cfg)
  {
    IntervalsAfter(now, s, 1, next, cfg);
    var k := Intervals(now, next, cfg);
    AddUp(cfg, 1, k);
    AddUp(cfg, k, 1);
    assert Refill(now, next, cfg) == State(Min(cfg.capacity, next.tokens + k * cfg.refillTokens),
                                           At(next.last.ns + k * cfg.refillInterval)) by {
      RefillShape(now, next, cfg);
    }
    assert Refill(now, s, cfg) == State(Min(cfg.capacity, s.tokens + (1 + k) * cfg.refillTokens),
                                        At(s.last.ns + (1 + k) * cfg.refillInterval)) by {
      RefillShape(now, s, cfg);
    }
  }

  lemma RefillTwiceForward(t1: int, t2: int, s: Dated, cfg: Config)
    requires ValidConfig(cfg) && Normalized(s, cfg)
    requires Refill(t1, s, cfg).last.ns <= t2
    requires t1 <= t2
    ensures Refill(t2, Refill(t1, s, cfg), cfg) == Refill(t2, s, cfg)
  {
    var k1 := Intervals(t1, s, cfg);
    var mid := Refill(t1, s, cfg);
    assert k1 >= 0 && mid == State(Min(cfg.capacity, s.tokens + k1 * cfg.refillTokens),
                                   At(s.last.ns + k1 * cfg.refillInterval))
        && Normalized(mid, cfg) by {
      RefillShape(t1, s, cfg);
    }
    IntervalsAfter(t2, s, k1, mid, cfg);
    var k := Intervals(t2, mid, cfg);
    AddUp(cfg, k1, k);
    AddUp(cfg, k, k1);
    assert Refill(t2, mid, cfg) == State(Min(cfg.capacity, mid.tokens + k * cfg.refillTokens),
                                         At(mid.last.ns + k * cfg.refillInterval)) by {
      RefillShape(t2, mid, cfg);
    }
    assert Refill(t2, s, cfg) == State(Min(cfg.capacity, s.tokens + (k1 + k) * cfg.refillTokens),
                                       At(s.last.ns + (k1 + k) * cfg.refillInterval)) by {
      RefillShape(t2, s, cfg);
    }
  }

  // ---- Runs of decisions ----

  datatype Request = Request(now: int, cost: int)

  predicate ValidRequests(reqs: seq<Request>) {
    forall r :: r in reqs ==> r.cost > 0
  }

  // The decisions of a run, each made on the state the one before it left.
  function Decisions(s: State, reqs: seq<Request>, cfg: Config): (ds: seq<Decision>)
    requires ValidConfig(cfg) && ValidRequests(reqs)
    ensures |ds| == |reqs|
    decreases reqs
  {
    if reqs == [] then []
    else
      var d := Decide(reqs[0].now, s, cfg, reqs[0].cost);
      [d] + Decisions(d.state, reqs[1..], cfg)
  }

  function Final(s: Dated, reqs: seq<Request>, cfg: Config): Dated
    requires ValidConfig(cfg) && ValidRequests(reqs)
    decreases reqs
  {
    if reqs == [] then s
    else Final(Decide(reqs[0].now, s, cfg, reqs[0].cost).state, reqs[1..], cfg)
  }

  function AdmittedCost(s: Dated, reqs: seq<Request>, cfg: Config): int
    requires ValidConfig(cfg) && ValidRequests(reqs)
    decreases reqs
  {
    if reqs == [] then 0
    else
      var d := Decide(reqs[0].now, s, cfg, reqs[0].cost);
      (if d.allowed then reqs[0].cost else 0) + AdmittedCost(d.state, reqs[1..], cfg)
  }

  // Tokens that arrived at a full bucket.
  function Spilled(now: int, s: Dated, cfg: Config): int
    requires ValidConfig(cfg)
  {
    Max(0, s.tokens + Intervals(now, s, cfg) * cfg.refillTokens - cfg.capacity)
  }

  function SpilledTokens(s: Dated, reqs: seq<Request>, cfg: Config): int
    requires ValidConfig(cfg) && ValidRequests(reqs)
    decreases reqs
  {
    if reqs == [] then 0
    else
      Spilled(reqs[0].now, s, cfg)
      + SpilledTokens(Decide(reqs[0].now, s, cfg, reqs[0].cost).state, reqs[1..], cfg)
  }

  lemma DecideKeepsLedger(s: Dated, r: Request, cfg: Config) returns (k: int)
    requires ValidConfig(cfg) && Normalized(s, cfg) && r.cost > 0
    ensures var d := Decide(r.now, s, cfg, r.cost);
            && k >= 0
            && d.state.last.ns == s.last.ns + k * cfg.refillInterval
            && (k == 0 || d.state.last.ns <= r.now)
            && Normalized(d.state, cfg)
            && s.tokens + cfg.refillTokens * k
               == d.state.tokens + (if d.allowed then r.cost else 0) + Spilled(r.now, s, cfg)
  {
    RefillShape(r.now, s, cfg);
    k := Intervals(r.now, s, cfg);
  }

  // For any sequence of clocks, even one that runs backwards, every token is accounted
  // for, and the refill instant moves only forward, along its grid, and never past the
  // clocks it has seen.
  lemma {:induction false} TokenLedger(s: Dated, reqs: seq<Request>, cfg: Config, horizon: int) returns (k: int)
    requires ValidConfig(cfg) && Normalized(s, cfg) && ValidRequests(reqs)
    requires horizon >= s.last.ns && forall r :: r in reqs ==> r.now <= horizon
    ensures k >= 0
    ensures Final(s, reqs, cfg).last.ns == s.last.ns + k * cfg.refillInterval
    ensures s.tokens + cfg.refillTokens * k
         == Final(s, reqs, cfg).tokens + AdmittedCost(s, reqs, cfg) + SpilledTokens(s, reqs, cfg)
    ensures Normalized(Final(s, reqs, cfg), cfg)
    ensures s.last.ns <= Final(s, reqs, cfg).last.ns <= horizon
    decreases reqs
  {
    if reqs == [] {
      k := 0;
    } else {
      var k1 := DecideKeepsLedger(s, reqs[0], cfg);
      var next := Decide(reqs[0].now, s, cfg, reqs[0].cost).state;
      assert reqs[0] in reqs;
      var k2 := TokenLedger(next, reqs[1..], cfg, horizon);
      k := k1 + k2;
      AddUp(cfg, k1, k2);
    }
  }

  // ---- Blocked requests leave no trace ----

  predicate Nondecreasing(reqs: seq<Request>) {
    forall i, j :: 0 <= i < j < |reqs| ==> reqs[i].now <= reqs[j].now
  }

  // The elements that a mask keeps.
  function Kept<T>(xs: seq<T>, keep: seq<bool>): (ys: seq<T>)
    requires |xs| == |keep|
    ensures forall y :: y in ys ==> y in xs
  {
    if xs == [] then []
    else (if keep[0] then [xs[0]] else []) + Kept(xs[1..], keep[1..])
  }

  // Two states no decision at or after an instant can tell apart.
  ghost predicate SameFrom(t: int, a: Dated, b: Dated, cfg: Config)
    requires ValidConfig(cfg)
  {
    forall now :: now >= t ==>
      Refill(now, NormalizeState(a, now, cfg.capacity), cfg)
      == Refill(now, NormalizeState(b, now, cfg.capacity), cfg)
  }

  lemma BlockedIsInvisible(s: Dated, r: Request, cfg: Config)
    requires ValidConfig(cfg) && r.cost > 0
    requires !Decide(r.now, s, cfg, r.cost).allowed
    ensures SameFrom(r.now, Decide(r.now, s, cfg, r.cost).state, s, cfg)
  {
    var after := Decide(r.now, s, cfg, r.cost).state;
    forall now | now >= r.now
      ensures Refill(now, NormalizeState(after, now, cfg.capacity), cfg)
           == Refill(now, NormalizeState(s, now, cfg.capacity), cfg)
    {
      var start := NormalizeState(s, r.now, cfg.capacity);
      assert start == NormalizeState(s, now, cfg.capacity);
      RefillShape(r.now, start, cfg);
      RefillComposes(r.now, now, start, cfg);
    }
  }

  lemma {:induction false} DroppingFromEqualStates(a: Dated, b: Dated, reqs: seq<Request>, keep: seq<bool>,
                                                   cfg: Config, t: int)
    requires ValidConfig(cfg) && ValidRequests(reqs) && |reqs| == |keep|
    requires Nondecreasing(reqs) && forall i :: 0 <= i < |reqs| ==> t <= reqs[i].now
    requires SameFrom(t, a, b, cfg)
    requires forall i :: 0 <= i < |reqs| && !keep[i] ==> !Decisions(a, reqs, cfg)[i].allowed
    ensures Decisions(b, Kept(reqs, keep), cfg) == Kept(Decisions(a, reqs, cfg), keep)
    decreases reqs
  {
    hide Refill, NormalizeState, DurationUntilTokens, DurationUntilFull, BucketTTL;
    if reqs != [] {
      var r, rest := reqs[0], reqs[1..];
      var d := Decide(r.now, a, cfg, r.cost);
      var ds := Decisions(a, reqs, cfg);
      assert ds == [d] + Decisions(d.state, rest, cfg);
      assert ds[1..] == Decisions(d.state, rest, cfg);
      assert d == Decide(r.now, b, cfg, r.cost);
      forall i | 0 <= i < |rest| && !keep[1..][i] ensures !Decisions(d.state, rest, cfg)[i].allowed {
        assert ds[i + 1] == Decisions(d.state, rest, cfg)[i];
      }
      assert Kept(reqs, keep) == (if keep[0] then [r] else []) + Kept(rest, keep[1..]);
      if keep[0] {
        DroppingFromEqualStates(d.state, d.state, rest, keep[1..], cfg, r.now);
        assert Kept(reqs, keep)[1..] == Kept(rest, keep[1..]);
      } else {
        assert !ds[0].allowed;
        BlockedIsInvisible(a, r, cfg);
        DroppingFromEqualStates(d.state, b, rest, keep[1..], cfg, r.now);
        assert Kept(reqs, keep) == Kept(rest, keep[1..]);
      }
    }
  }

  // Deleting any set of blocked requests from a run with nondecreasing clocks leaves
  // every remaining decision as it was: outcome, Remaining, RetryAfter, ResetAt, TTL.
  lemma BlockedLeaveNoTrace(s: Dated, reqs: seq<Request>, keep: seq<bool>, cfg: Config)
    requires ValidConfig(cfg) && ValidRequests(reqs) && |reqs| == |keep|
    requires Nondecreasing(reqs)
    requires forall i :: 0 <= i < |reqs| && !keep[i] ==> !Decisions(s, reqs, cfg)[i].allowed
    ensures Decisions(s, Kept(reqs, keep), cfg) == Kept(Decisions(s, reqs, cfg), keep)
  {
    if reqs != [] {
      DroppingFromEqualStates(s, s, reqs, keep, cfg, reqs[0].now);
    }
  }
}
