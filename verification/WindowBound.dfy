// How much one bucket admits in a window of request clocks, over any history of commits
// and expiries under one policy, whatever the order of the clocks.
module WindowBound {
  import opened Arithmetic
  import opened Wrappers
  import opened TokenBucket
  import opened WaitLaws
  import opened BucketHistory

  // The bucket as last written, whether or not it has expired since, with the deadline that
  // was set for its key and the latest clock of any commit so far.
  datatype Written = Written(bucket: Stored, deadline: int, latest: int)

  function LastWritten(h: History): Option<Written>
    requires ValidHistory(h)
  {
    if h == [] then None
    else
      var before, e := h[..|h| - 1], h[|h| - 1];
      match e
      case Expired(_) => LastWritten(before)
      case Consumed(_, req, at) =>
        var d := Answer(Replay(before), req).value;
        Some(Written(Persist(d.state), Deadline(at, d),
                     if LastWritten(before).None? then req.now
                     else Max(LastWritten(before).value.latest, req.now)))
  }

  // How many refills a recreation takes back by anchoring the grid at its clock, when
  // that lies behind the refill instant the expired bucket had reached.
  function TakenBack(w: Written, req: Request): int
    requires ValidRequest(req)
  {
    var reached := Refill(req.now, Reload(w.bucket), req.cfg).last.ns;
    CeilDiv(Max(0, reached - req.now / NANOS_PER_MILLI * NANOS_PER_MILLI), req.cfg.refillInterval)
  }

  // Tokens that recreating an expired bucket adds beyond what a refill would have added:
  // those it holds at once, and those of the refills that can now happen again.
  function Gift(before: History, req: Request): int
    requires ValidHistory(before) && ValidRequest(req)
  {
    if Replay(before).Some? || LastWritten(before).None? then 0
    else
      var w := LastWritten(before).value;
      req.cfg.capacity - Refill(req.now, Reload(w.bucket), req.cfg).tokens
      + req.cfg.refillTokens * TakenBack(w, req)
  }

  // The cost admitted, and the tokens given, by requests with clocks in [t0, t1].
  function Admitted(h: History, t0: int, t1: int): int
    requires ValidHistory(h)
  {
    if h == [] then 0
    else
      var n := |h| - 1;
      Admitted(h[..n], t0, t1)
      + if h[n].Consumed? && t0 <= h[n].req.now <= t1 && DecisionAt(h, n).allowed then h[n].req.cost else 0
  }

  function Gifts(h: History, t0: int, t1: int): int
    requires ValidHistory(h)
  {
    if h == [] then 0
    else
      var n := |h| - 1;
      Gifts(h[..n], t0, t1)
      + if h[n].Consumed? && t0 <= h[n].req.now <= t1 then (PrefixValid(h, n); Gift(h[..n], h[n].req)) else 0
  }

  lemma PrefixValid(h: History, n: nat)
    requires ValidHistory(h) && n <= |h|
    ensures ValidHistory(h[..n])
    ensures n < |h| && h[n].Consumed? ==> ValidRequest(h[n].req)
  {
  }

  // One policy throughout, valid, on a grid of whole milliseconds.
  predicate OnePolicy(h: History, cfg: Config) {
    && ValidConfig(cfg) && MilliGrid(cfg)
    && forall e :: e in h && e.Consumed? ==> e.req.cfg == cfg && e.req.cost > 0
  }

  // No commit's clock is behind an earlier commit's by more than the disorder.
  predicate ClocksWithin(h: History, disorder: nat) {
    forall i, j :: 0 <= i < j < |h| && h[i].Consumed? && h[j].Consumed? ==>
      h[j].req.now >= h[i].req.now - disorder
  }

  function Bound(cfg: Config, t0: int, t1: int): int
    requires ValidConfig(cfg)
  {
    cfg.capacity + cfg.refillTokens * CeilDiv(t1 - t0, cfg.refillInterval)
  }

  // ---- One step ----

  predicate SoundlyWritten(w: Written, cfg: Config) {
    0 <= w.bucket.tokens <= cfg.capacity && Reload(w.bucket).last.ns <= w.latest
  }

  lemma {:induction false} WrittenIsStored(h: History)
    requires ValidHistory(h)
    ensures Replay(h).Some? ==> LastWritten(h).Some? && LastWritten(h).value.bucket == Replay(h).value
    ensures LastWritten(h).Some? ==>
              exists i :: 0 <= i < |h| && h[i].Consumed? && h[i].req.now == LastWritten(h).value.latest
  {
    hide Answer, Deadline;
    if h != [] {
      var n := |h| - 1;
      var before := h[..n];
      WrittenIsStored(before);
      if LastWritten(before).Some? {
        var i :| 0 <= i < n && before[i].Consumed? && before[i].req.now == LastWritten(before).value.latest;
        assert h[i] == before[i];
      }
    }
  }

  lemma FreshRefill(full: Dated, req: Request)
    requires ValidRequest(req) && full == State(req.cfg.capacity, At(req.now))
    ensures Refill(req.now, full, req.cfg) == full
  {
    QuotientUnique(0, req.cfg.refillInterval, 0);
  }

  // A stored bucket is answered from its refill, on its own grid.
  lemma StoredAnswer(b: Stored, req: Request)
    requires ValidRequest(req) && MilliGrid(req.cfg) && 0 <= b.tokens <= req.cfg.capacity
    ensures var d := Answer(Some(b), req).value;
            var r := Refill(req.now, Reload(b), req.cfg);
            && d.state.tokens + (if d.allowed then req.cost else 0) == r.tokens <= req.cfg.capacity
            && Reload(Persist(d.state)) == d.state
            && d.state.last == r.last
            && req.now - req.cfg.refillInterval < r.last.ns <= Max(req.now, Reload(b).last.ns)
            && 0 <= d.state.tokens
  {
    SaveReloadIsIdentity(b, req);
    RefillShape(req.now, Reload(b), req.cfg);
  }

  // A fresh bucket is answered from its capacity, anchored at the clock.
  lemma FreshAnswer(req: Request)
    requires ValidRequest(req) && MilliGrid(req.cfg)
    ensures var d := Answer(None, req).value;
            && d.state.tokens + (if d.allowed then req.cost else 0) == req.cfg.capacity
            && Reload(Persist(d.state)).last.ns == req.now / NANOS_PER_MILLI * NANOS_PER_MILLI
            && req.now - req.cfg.refillInterval < Reload(Persist(d.state)).last.ns <= req.now
            && d.state.last.ns == req.now
            && 0 <= d.state.tokens
  {
    FreshRefill(State(req.cfg.capacity, At(req.now)), req);
    QuotientBounds(req.now, NANOS_PER_MILLI);
  }

  // A commit's tokens, its admitted cost and the refills it takes back are the tokens a
  // refill would have left and its gift; unless its clock is behind the bucket's refill
  // instant, the grid is never anchored before the refill's, so that no two refills are
  // closer than an interval.
  lemma CommitStep(before: History, req: Request, w: Written)
    requires ValidHistory(before) && ValidRequest(req) && MilliGrid(req.cfg)
    requires LastWritten(before) == Some(w) && SoundlyWritten(w, req.cfg)
    ensures var d := Answer(Replay(before), req).value;
            var r := Refill(req.now, Reload(w.bucket), req.cfg);
            var anchor := Reload(Persist(d.state)).last.ns;
            var takenBack := CeilDiv(Max(0, r.last.ns - anchor), req.cfg.refillInterval);
            && d.state.tokens + (if d.allowed then req.cost else 0) + req.cfg.refillTokens * takenBack
               == r.tokens + Gift(before, req)
            && Gift(before, req) >= 0
            && (Reload(w.bucket).last.ns <= req.now ==> anchor >= r.last.ns)
  {
    hide Answer, Refill;
    WrittenIsStored(before);
    RefillShape(req.now, Reload(w.bucket), req.cfg);
    var r := Refill(req.now, Reload(w.bucket), req.cfg);
    CeilDivLeast(0, req.cfg.refillInterval, -1);
    CeilDivLeast(0, req.cfg.refillInterval, 0);
    match Replay(before)
    case Some(b) =>
      StoredAnswer(b, req);
    case None =>
      FreshAnswer(req);
      CeilDivLeast(Max(0, r.last.ns - req.now / NANOS_PER_MILLI * NANOS_PER_MILLI), req.cfg.refillInterval, -1);
      MulNonneg(TakenBack(w, req), req.cfg.refillTokens);
      if Reload(w.bucket).last.ns <= req.now {
        ReachedOnMillis(w, req.cfg, req.now);
      }
  }

  // The refill instant of a written bucket is on whole milliseconds, so cutting a clock
  // down to its millisecond does not bring it behind.
  lemma ReachedOnMillis(w: Written, cfg: Config, now: int)
    requires ValidConfig(cfg) && MilliGrid(cfg) && 0 <= w.bucket.tokens <= cfg.capacity
    ensures var reached := Refill(now, Reload(w.bucket), cfg).last.ns;
            reached <= now / NANOS_PER_MILLI * NANOS_PER_MILLI <==> Reload(w.bucket).last.ns <= now
  {
    var s := Reload(w.bucket);
    var reached := Refill(now, s, cfg).last.ns;
    RefillShape(now, s, cfg);
    QuotientUnique(s.last.ns, NANOS_PER_MILLI, w.bucket.lastMs);
    MultipleSum(s.last.ns, Intervals(now, s, cfg), cfg.refillInterval);
    MultipleOfMilli(reached);
    QuotientBounds(now, NANOS_PER_MILLI);
    if s.last.ns <= now {
      QuotientMonotone(reached, now, NANOS_PER_MILLI);
    }
  }

  // What a commit stores lies within the capacity, with a refill instant not after the
  // latest clock and less than an interval before its own.
  lemma CommitIsSound(before: History, e: Event)
    requires ValidHistory(before + [e]) && ValidHistory(before) && e.Consumed? && MilliGrid(e.req.cfg)
    requires ValidRequest(e.req)
    requires LastWritten(before).Some? ==> SoundlyWritten(LastWritten(before).value, e.req.cfg)
    ensures var d := Answer(Replay(before), e.req).value;
            && LastWritten(before + [e]).Some?
            && var w := LastWritten(before + [e]).value;
            && w.bucket == Persist(d.state)
            && SoundlyWritten(w, e.req.cfg)
            && Reload(w.bucket).last.ns > e.req.now - e.req.cfg.refillInterval
            && w.bucket.tokens + (if d.allowed then e.req.cost else 0) <= e.req.cfg.capacity
            && w.latest == (if LastWritten(before).None? then e.req.now
                            else Max(LastWritten(before).value.latest, e.req.now))
  {
    hide Answer, Refill, Deadline;
    assert (before + [e])[..|before + [e]| - 1] == before;
    WrittenIsStored(before);
    match Replay(before)
    case Some(b) => StoredAnswer(b, e.req);
    case None => FreshAnswer(e.req);
  }

  lemma {:induction false} WrittenIsSound(h: History, cfg: Config)
    requires OnePolicy(h, cfg)
    ensures LastWritten(h).Some? ==> SoundlyWritten(LastWritten(h).value, cfg)
  {
    hide Answer, Deadline;
    if h != [] {
      var n := |h| - 1;
      WrittenIsSound(h[..n], cfg);
      if h[n].Consumed? {
        assert h == h[..n] + [h[n]];
        assert h[n] in h;
        CommitIsSound(h[..n], h[n]);
      }
    }
  }

  // ---- The whole history ----

  // The ledger of a window. Once something is admitted, and until a clock passes the
  // window's end by more than the disorder, what was admitted plus what is left is at most
  // the capacity, one refill per interval that the refill instant moved past the window's
  // start, and the gifts; what was admitted is within the bound for good.
  predicate WindowLedger(h: History, cfg: Config, t0: int, t1: int, disorder: nat)
    requires OnePolicy(h, cfg)
  {
    var a, g := Admitted(h, t0, t1), Gifts(h, t0 - disorder, t1 + disorder);
    && a >= 0 && g >= 0
    && a <= Bound(cfg, t0, t1 + disorder) + g
    && match LastWritten(h)
       case None => a == 0
       case Some(w) =>
         && SoundlyWritten(w, cfg)
         && (a > 0 ==> w.latest >= t0)
         && (a > 0 && w.latest <= t1 + disorder ==>
               a + w.bucket.tokens <= Bound(cfg, t0, Reload(w.bucket).last.ns) + g)
  }

  lemma BoundMonotone(cfg: Config, t0: int, x: int, y: int)
    requires ValidConfig(cfg) && x <= y
    ensures Bound(cfg, t0, x) <= Bound(cfg, t0, y)
  {
    CeilDivMonotone(x - t0, y - t0, cfg.refillInterval);
    MulLe(CeilDiv(x - t0, cfg.refillInterval), CeilDiv(y - t0, cfg.refillInterval), cfg.refillTokens);
  }

  lemma BoundAtLeastCapacity(cfg: Config, t0: int, x: int)
    requires ValidConfig(cfg) && x > t0 - cfg.refillInterval
    ensures Bound(cfg, t0, x) >= cfg.capacity
  {
    CeilDivLeast(x - t0, cfg.refillInterval, -1);
    MulNonneg(CeilDiv(x - t0, cfg.refillInterval), cfg.refillTokens);
  }

  // Moving the refill instant back lowers the bound by no more than the refills between.
  lemma BoundTakenBack(cfg: Config, t0: int, x: int, y: int)
    requires ValidConfig(cfg)
    ensures Bound(cfg, t0, x) <= Bound(cfg, t0, y) + cfg.refillTokens * CeilDiv(Max(0, x - y), cfg.refillInterval)
  {
    var k, c := CeilDiv(Max(0, x - y), cfg.refillInterval), CeilDiv(y - t0, cfg.refillInterval);
    CeilDivLeast(Max(0, x - y), cfg.refillInterval, k);
    CeilDivShift(y - t0, k, cfg.refillInterval);
    CeilDivMonotone(x - t0, y - t0 + k * cfg.refillInterval, cfg.refillInterval);
    MulLe(CeilDiv(x - t0, cfg.refillInterval), c + k, cfg.refillTokens);
    assert cfg.refillTokens * (c + k) == cfg.refillTokens * c + cfg.refillTokens * k;
  }

  // Refilling moves tokens and bound together.
  lemma RefillWithinBound(w: Written, cfg: Config, now: int, t0: int)
    requires ValidConfig(cfg) && 0 <= w.bucket.tokens <= cfg.capacity
    ensures var s := Reload(w.bucket);
            var r := Refill(now, s, cfg);
            r.tokens - s.tokens <= Bound(cfg, t0, r.last.ns) - Bound(cfg, t0, s.last.ns)
  {
    var s := Reload(w.bucket);
    RefillShape(now, s, cfg);
    var k := Intervals(now, s, cfg);
    CeilDivShift(s.last.ns - t0, k, cfg.refillInterval);
    var c := CeilDiv(s.last.ns - t0, cfg.refillInterval);
    assert cfg.refillTokens * (c + k) == cfg.refillTokens * c + k * cfg.refillTokens;
  }

  // What one commit adds to tokens and admitted cost, its gift covers with the bound.
  lemma CommitWithinBound(before: History, req: Request, w: Written, t0: int)
    requires ValidHistory(before) && ValidRequest(req) && MilliGrid(req.cfg)
    requires LastWritten(before) == Some(w) && SoundlyWritten(w, req.cfg)
    ensures var d := Answer(Replay(before), req).value;
            && d.state.tokens + (if d.allowed then req.cost else 0) - w.bucket.tokens
               <= Bound(req.cfg, t0, Reload(Persist(d.state)).last.ns)
                  - Bound(req.cfg, t0, Reload(w.bucket).last.ns) + Gift(before, req)
            && Gift(before, req) >= 0
  {
    hide Answer, Refill, Bound, Gift;
    CommitStep(before, req, w);
    RefillWithinBound(w, req.cfg, req.now, t0);
    var d := Answer(Replay(before), req).value;
    var r := Refill(req.now, Reload(w.bucket), req.cfg);
    BoundTakenBack(req.cfg, t0, r.last.ns, Reload(Persist(d.state)).last.ns);
  }

  // A commit's share of the window's sums.
  lemma SumsAppend(before: History, e: Event, t0: int, t1: int, disorder: nat)
    requires ValidHistory(before + [e]) && ValidHistory(before) && e.Consumed? && ValidRequest(e.req)
    ensures Admitted(before + [e], t0, t1)
         == Admitted(before, t0, t1)
            + if t0 <= e.req.now <= t1 && Answer(Replay(before), e.req).value.allowed then e.req.cost else 0
    ensures Gifts(before + [e], t0 - disorder, t1 + disorder)
         == Gifts(before, t0 - disorder, t1 + disorder)
            + if t0 - disorder <= e.req.now <= t1 + disorder then Gift(before, e.req) else 0
  {
    hide Answer, Gift;
    assert (before + [e])[..|before|] == before;
  }

  lemma CommitKeepsLedger(before: History, e: Event, cfg: Config, t0: int, t1: int, disorder: nat)
    requires e.Consumed? && OnePolicy(before + [e], cfg) && OnePolicy(before, cfg)
    requires LastWritten(before).Some? ==> e.req.now >= LastWritten(before).value.latest - disorder
    requires t0 <= t1
    requires WindowLedger(before, cfg, t0, t1, disorder)
    ensures WindowLedger(before + [e], cfg, t0, t1, disorder)
  {
    hide Answer, Replay, Gift, Gifts, Admitted, Bound, LastWritten;
    assert e in before + [e];
    SumsAppend(before, e, t0, t1, disorder);
    CommitIsSound(before, e);
    var last := Reload(LastWritten(before + [e]).value.bucket).last.ns;
    if last <= t1 + disorder {
      BoundMonotone(cfg, t0, last, t1 + disorder);
    }
    if t0 <= e.req.now {
      BoundAtLeastCapacity(cfg, t0, last);
    }
    if LastWritten(before).Some? {
      CommitWithinBound(before, e.req, LastWritten(before).value, t0);
    } else {
      NoGiftWithoutBucket(before, e.req);
    }
  }

  lemma NoGiftWithoutBucket(before: History, req: Request)
    requires ValidHistory(before) && ValidRequest(req) && LastWritten(before).None?
    ensures Gift(before, req) == 0
  {
  }

  lemma LatestIsNear(h: History, disorder: nat)
    requires ValidHistory(h) && ClocksWithin(h, disorder) && h != [] && h[|h| - 1].Consumed?
    ensures var before := h[..|h| - 1];
            LastWritten(before).Some? ==> h[|h| - 1].req.now >= LastWritten(before).value.latest - disorder
  {
    hide LastWritten;
    var n := |h| - 1;
    var before := h[..n];
    WrittenIsStored(before);
    if LastWritten(before).Some? {
      var i :| 0 <= i < n && before[i].Consumed? && before[i].req.now == LastWritten(before).value.latest;
      assert h[i] == before[i];
    }
  }

  lemma {:induction false} LedgerHolds(h: History, cfg: Config, t0: int, t1: int, disorder: nat)
    requires OnePolicy(h, cfg) && ClocksWithin(h, disorder) && t0 <= t1
    ensures WindowLedger(h, cfg, t0, t1, disorder)
  {
    hide Answer, Replay, Gift, Deadline;
    if h == [] {
      BoundAtLeastCapacity(cfg, t0, t1 + disorder);
    } else {
      var n := |h| - 1;
      var before := h[..n];
      LedgerHolds(before, cfg, t0, t1, disorder);
      if h[n].Consumed? {
        LatestIsNear(h, disorder);
        assert h == before + [h[n]];
        CommitKeepsLedger(before, h[n], cfg, t0, t1, disorder);
      }
    }
  }

  // For request clocks in any order, none behind an earlier one by more than the disorder,
  // the cost admitted in a window is at most the capacity, one refill per interval begun in
  // the window and the disorder after it, and the gifts of recreations in or near it.
  lemma WindowBoundWithGifts(h: History, cfg: Config, t0: int, t1: int, disorder: nat)
    requires OnePolicy(h, cfg) && ClocksWithin(h, disorder) && t0 <= t1
    ensures Admitted(h, t0, t1) <= Bound(cfg, t0, t1 + disorder) + Gifts(h, t0 - disorder, t1 + disorder)
  {
    hide Admitted, Gifts, Bound;
    LedgerHolds(h, cfg, t0, t1, disorder);
  }

  // ---- When recreation is free ----

  // The first instant at which a written bucket is full.
  function FullAt(w: Written, cfg: Config): int
    requires ValidConfig(cfg)
  {
    if w.bucket.tokens >= cfg.capacity then Reload(w.bucket).last.ns
    else ReadyAt(Reload(w.bucket), cfg, cfg.capacity)
  }

  // A recreation gives no tokens if and only if the recreating request's clock has
  // reached the instant at which the expired bucket was full.
  lemma GiftIsZeroIff(before: History, req: Request, w: Written)
    requires ValidHistory(before) && ValidRequest(req) && MilliGrid(req.cfg)
    requires Replay(before).None? && LastWritten(before) == Some(w) && SoundlyWritten(w, req.cfg)
    ensures Gift(before, req) == 0 <==> req.now >= FullAt(w, req.cfg)
    ensures Gift(before, req) >= 0
  {
    hide Replay, LastWritten;
    var s := Reload(w.bucket);
    RefillShape(req.now, s, req.cfg);
    ReachedOnMillis(w, req.cfg, req.now);
    var behind := Refill(req.now, s, req.cfg).last.ns - req.now / NANOS_PER_MILLI * NANOS_PER_MILLI;
    CeilDivLeast(Max(0, behind), req.cfg.refillInterval, -1);
    CeilDivLeast(Max(0, behind), req.cfg.refillInterval, 0);
    MulNonneg(TakenBack(w, req), req.cfg.refillTokens);
    assert TakenBack(w, req) >= 1 ==> req.cfg.refillTokens * TakenBack(w, req) >= 1 by {
      if TakenBack(w, req) >= 1 {
        MulLe(1, TakenBack(w, req), req.cfg.refillTokens);
      }
    }
    if s.tokens < req.cfg.capacity {
      ReachesTarget(req.now, s, req.cfg, req.cfg.capacity);
    } else {
      MulNonneg(Intervals(req.now, s, req.cfg), req.cfg.refillTokens);
    }
  }

  // Every recreation by a request with a clock in the window comes when the expired
  // bucket is full.
  predicate RecreatedWhenFull(h: History, cfg: Config, t0: int, t1: int)
    requires ValidHistory(h) && ValidConfig(cfg)
  {
    forall i :: 0 <= i < |h| && h[i].Consumed? && t0 <= h[i].req.now <= t1
                && Replay(h[..i]).None? && LastWritten(h[..i]).Some? ==>
      h[i].req.now >= FullAt(LastWritten(h[..i]).value, cfg)
  }

  // Over a whole history, a window is free of gifts if and only if that is so.
  lemma {:induction false} GiftsAreZeroIff(h: History, cfg: Config, t0: int, t1: int)
    requires OnePolicy(h, cfg)
    ensures Gifts(h, t0, t1) >= 0
    ensures Gifts(h, t0, t1) == 0 <==> RecreatedWhenFull(h, cfg, t0, t1)
  {
    hide Replay, LastWritten, Gift, FullAt;
    if h != [] {
      var n := |h| - 1;
      var before := h[..n];
      forall i | 0 <= i < n ensures before[..i] == h[..i] {
      }
      GiftsAreZeroIff(before, cfg, t0, t1);
      if h[n].Consumed? {
        assert h[n] in h;
        OneGift(before, h[n].req, cfg);
      }
    }
  }

  lemma OneGift(before: History, req: Request, cfg: Config)
    requires OnePolicy(before, cfg) && ValidRequest(req) && req.cfg == cfg
    ensures Gift(before, req) >= 0
    ensures Replay(before).Some? || LastWritten(before).None? ==> Gift(before, req) == 0
    ensures Replay(before).None? && LastWritten(before).Some? ==>
              (Gift(before, req) == 0 <==> req.now >= FullAt(LastWritten(before).value, cfg))
  {
    hide Replay, LastWritten, FullAt;
    WrittenIsSound(before, cfg);
    if Replay(before).None? && LastWritten(before).Some? {
      GiftIsZeroIff(before, req, LastWritten(before).value);
    }
  }

  // The bound the limiter is for: when every recreation in or near the window comes at a
  // clock at which the expired bucket is full, no window admits more than the capacity and
  // one refill per begun interval, counting the disorder of the clocks to the window.
  lemma AdmittedWithinWindow(h: History, cfg: Config, t0: int, t1: int, disorder: nat)
    requires OnePolicy(h, cfg) && ClocksWithin(h, disorder) && t0 <= t1
    requires RecreatedWhenFull(h, cfg, t0 - disorder, t1 + disorder)
    ensures Admitted(h, t0, t1)
         <= cfg.capacity + cfg.refillTokens * CeilDiv(t1 - t0 + disorder, cfg.refillInterval)
  {
    hide Admitted, Gifts, RecreatedWhenFull;
    GiftsAreZeroIff(h, cfg, t0 - disorder, t1 + disorder);
    WindowBoundWithGifts(h, cfg, t0, t1, disorder);
  }

  // ---- What the extra interval of the time to live covers ----

  // The server's clock does not run backwards.
  predicate ServerInOrder(h: History) {
    forall i, j :: 0 <= i < j < |h| ==> h[i].at <= h[j].at
  }

  // No committed request's clock was ahead of the server's by more than a skew.
  predicate ClocksAheadAtMost(h: History, ahead: int) {
    forall i :: 0 <= i < |h| && h[i].Consumed? ==> h[i].req.now <= h[i].at + ahead
  }

  // A bucket's deadline comes, on the most advanced clock there can be, an interval after
  // it is full, less the part of a second that EXPIRE cuts off.
  lemma {:induction false} FullBeforeDeadline(h: History, cfg: Config, ahead: int)
    requires OnePolicy(h, cfg) && ServerInOrder(h) && ClocksAheadAtMost(h, ahead) && LastWritten(h).Some?
    ensures var w := LastWritten(h).value;
            FullAt(w, cfg) + cfg.refillInterval - NANOS_PER_SECOND + 1 <= w.deadline + ahead
  {
    hide Answer, Replay, FullAt;
    var n := |h| - 1;
    var before := h[..n];
    match h[n]
    case Expired(_) => FullBeforeDeadline(before, cfg, ahead);
    case Consumed(_, req, at) =>
      assert h[n] in h;
      LatestNotAhead(h, ahead);
      WrittenIsSound(before, cfg);
      WrittenIsStored(before);
      AnchorNotAhead(Replay(before), req, at + ahead);
      DeadlineAfterFull(Replay(before), req, at, ahead, LastWritten(h).value.latest);
  }

  // With its clock in order the server's last time bounds every clock so far.
  lemma LatestNotAhead(h: History, ahead: int)
    requires ValidHistory(h) && ServerInOrder(h) && ClocksAheadAtMost(h, ahead)
    ensures h != [] && LastWritten(h).Some? ==> LastWritten(h).value.latest <= h[|h| - 1].at + ahead
    ensures h != [] && LastWritten(h[..|h| - 1]).Some? ==>
              LastWritten(h[..|h| - 1]).value.latest <= h[|h| - 1].at + ahead
  {
    hide LastWritten;
    if h != [] {
      WrittenIsStored(h);
      WrittenIsStored(h[..|h| - 1]);
    }
  }

  // A commit's refill instant is not after both its clock and the one it found.
  lemma AnchorNotAhead(stored: Option<Stored>, req: Request, most: int)
    requires ValidRequest(req) && MilliGrid(req.cfg) && req.now <= most
    requires stored.Some? ==>
               0 <= stored.value.tokens <= req.cfg.capacity && Reload(stored.value).last.ns <= most
    ensures Answer(stored, req).value.state.last.ns <= most
  {
    hide Answer, Refill;
    match stored
    case Some(b) => StoredAnswer(b, req);
    case None => FreshAnswer(req);
  }

  lemma DeadlineAfterFull(stored: Option<Stored>, req: Request, at: int, ahead: int, latest: int)
    requires ValidRequest(req)
    ensures var d := Answer(stored, req).value;
            var w := Written(Persist(d.state), Deadline(at, d), latest);
            req.now <= at + ahead && d.state.last.ns <= at + ahead ==>
              FullAt(w, req.cfg) + req.cfg.refillInterval - NANOS_PER_SECOND + 1 <= w.deadline + ahead
  {
    hide Answer;
    var s, d := ReadBucketState(stored, req.cfg, req.now), Answer(stored, req).value;
    assert d == Decide(req.now, s, req.cfg, req.cost) by {
      AnswerIsDecide(stored, req);
    }
    hide Decide;
    DecisionShape(req.now, s, req.cfg, req.cost);
    TimeToLiveIsResetPlusInterval(req.now, s, req.cfg, req.cost);
    ExpireSecondsBounds(d.bucketTTL);
    QuotientBounds(d.state.last.ns, NANOS_PER_MILLI);
    if d.state.tokens < req.cfg.capacity {
      ResetIsReady(req.now, s, req.cfg, req.cost);
    }
  }

  lemma ResetIsReady(now: int, s: State, cfg: Config, cost: int)
    requires ValidConfig(cfg) && cost > 0
    ensures var d := Decide(now, s, cfg, cost);
            d.state.tokens < cfg.capacity ==>
              d.resetAt + Behind(now, d.state) == ReadyAt(d.state, cfg, cfg.capacity)
  {
    hide Refill, NormalizeState;
    var d := Decide(now, s, cfg, cost);
    DecisionShape(now, s, cfg, cost);
    UntilFullIsUntilCapacity(now, d.state, cfg);
    if d.state.tokens < cfg.capacity {
      WaitIsExact(now, d.state, cfg, cfg.capacity);
    }
  }

  // No recreating request's clock is behind the deadline of the bucket it replaces by more
  // than a slack.
  predicate RecreatedNearDeadline(h: History, slack: int)
    requires ValidHistory(h)
  {
    forall i :: 0 <= i < |h| && h[i].Consumed? && Replay(h[..i]).None? && LastWritten(h[..i]).Some? ==>
      h[i].req.now + slack >= LastWritten(h[..i]).value.deadline
  }

  // Skew and slack within the extra interval, less what is cut off, make every recreation
  // free, in whatever order the clocks are.
  lemma RecreationIsFree(h: History, cfg: Config, t0: int, t1: int, ahead: int, slack: int)
    requires OnePolicy(h, cfg) && ServerInOrder(h) && ClocksAheadAtMost(h, ahead) && RecreatedNearDeadline(h, slack)
    requires ahead + slack <= cfg.refillInterval - NANOS_PER_SECOND + 1
    ensures RecreatedWhenFull(h, cfg, t0, t1)
  {
    hide Replay, LastWritten, FullAt;
    forall i | 0 <= i < |h| && h[i].Consumed? && Replay(h[..i]).None? && LastWritten(h[..i]).Some?
      ensures h[i].req.now >= FullAt(LastWritten(h[..i]).value, cfg)
    {
      FullBeforeDeadline(h[..i], cfg, ahead);
    }
  }
}
