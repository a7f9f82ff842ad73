// The window bound needs what it asks of the clocks: three runs that break it, each giving
// up one of the conditions. The costs are those of the report, orders and ping routes.
module ClockWitnesses {
  import opened Arithmetic
  import opened Wrappers
  import opened TokenBucket
  import opened BucketHistory
  import opened WindowBound
  import opened ConsumeProtocol
  import opened RunHistories
  import opened ConsumeGuarantees

  // ---- Histories, one event at a time ----

  // What one more event adds to a history, its bucket and the cost a window admits.
  lemma Extend(h: History, e: Event, t0: int, t1: int)
    requires ValidHistory(h) && (e.Consumed? ==> ValidRequest(e.req))
    ensures ValidHistory(h + [e])
    ensures Replay(h + [e]) == if e.Expired? then None else Some(Persist(Answer(Replay(h), e.req).value.state))
    ensures Admitted(h + [e], t0, t1)
         == Admitted(h, t0, t1)
            + if e.Consumed? && t0 <= e.req.now <= t1 && Answer(Replay(h), e.req).value.allowed then e.req.cost
              else 0
  {
    hide Answer, Replay, Persist;
    assert ValidHistory(h + [e]);
    ReplayAppend(h, e);
    assert (h + [e])[..|h|] == h;
  }

  lemma NothingYet(t0: int, t1: int)
    ensures Replay([]) == None && Admitted([], t0, t1) == 0
  {
  }

  // An expiry at or after the deadline that the commit before it set.
  lemma ExpiryAllowed(h: History, id: nat, req: Request, at: int, gone: int)
    requires ValidHistory(h) && ValidRequest(req) && ExpiredOnTime(h)
    requires gone >= Deadline(at, Answer(Replay(h), req).value)
    ensures ValidHistory(h + [Consumed(id, req, at)] + [Expired(gone)])
    ensures ExpiredOnTime(h + [Consumed(id, req, at)] + [Expired(gone)])
  {
    hide Answer, Replay, Deadline;
    CommitAllowed(h, id, req, at);
    var before := h + [Consumed(id, req, at)];
    var after := before + [Expired(gone)];
    assert ValidHistory(after);
    DecisionsKept(before, Expired(gone));
    ReplayAppend(h, Consumed(id, req, at));
  }

  lemma CommitAllowed(h: History, id: nat, req: Request, at: int)
    requires ValidHistory(h) && ValidRequest(req) && ExpiredOnTime(h)
    ensures ValidHistory(h + [Consumed(id, req, at)]) && ExpiredOnTime(h + [Consumed(id, req, at)])
  {
    hide Answer, Replay, Deadline;
    assert ValidHistory(h + [Consumed(id, req, at)]);
    DecisionsKept(h, Consumed(id, req, at));
  }

  // Five tokens, one more each second.
  const CFG: Config := Config(5, 1, NANOS_PER_SECOND)

  function Spend(cost: int, now: int): Request {
    Request(CFG, cost, now)
  }

  // ---- A bucket used up, expired and used up again, at one clock ----

  const GONE: int := 6 * NANOS_PER_SECOND

  lemma SpendAll(now: int)
    ensures var d := Answer(None, Spend(5, now)).value;
            d.allowed && d.bucketTTL == GONE && d.state == State(0, At(now))
  {
  }

  function Twice(now: int): History {
    [Consumed(0, Spend(5, now), 0)] + [Expired(GONE)] + [Consumed(1, Spend(5, now), GONE)]
  }

  lemma TwiceAdmitsTen(now: int)
    ensures Possible(Twice(now)) && Admitted(Twice(now), now, now) == 10
  {
    hide Answer, Replay, Admitted;
    SpendAll(now);
    NothingYet(now, now);
    var h1 := [Consumed(0, Spend(5, now), 0)];
    assert [] + h1 == h1;
    Extend([], h1[0], now, now);
    Extend(h1, Expired(GONE), now, now);
    Extend(h1 + [Expired(GONE)], Consumed(1, Spend(5, now), GONE), now, now);
    ExpiryAllowed([], 0, Spend(5, now), 0, GONE);
    CommitAllowed(h1 + [Expired(GONE)], 1, Spend(5, now), GONE);
  }

  // A call in flight across an expiry finds the key gone and, with its early clock, is
  // given a full bucket: twice the capacity is admitted at one instant, although every
  // clock is in order and none is ahead of the server's.
  lemma EarlyRecreationBreaksBound() returns (steps: seq<Step>)
    ensures var h := KeyAt(Run(steps), "k").history;
            && OnePolicy(h, CFG) && ClocksWithin(h, 0) && ClocksAheadAtMost(h, 0)
            && ValidHistory(h)
            && Admitted(h, 0, 0) == 10 > Bound(CFG, 0, 0)
  {
    hide Admitted, Run;
    TwiceAdmitsTen(0);
    steps := Realize(Twice(0), "k");
  }

  // Clocks ahead of the server's by what the bucket takes to expire: the key goes while
  // they still show the time of the first request, with no call in flight across it.
  lemma AheadClocksBreakBound() returns (steps: seq<Step>)
    ensures var h := KeyAt(Run(steps), "k").history;
            && OnePolicy(h, CFG) && ClocksWithin(h, 0) && RecreatedEarlyAtMost(h, 0)
            && ValidHistory(h)
            && Admitted(h, GONE, GONE) == 10 > Bound(CFG, GONE, GONE)
  {
    hide Admitted, Run;
    TwiceAdmitsTen(GONE);
    steps := Realize(Twice(GONE), "k");
  }

  // ---- Clocks out of order ----

  const LATER: int := 5 * NANOS_PER_SECOND

  lemma SpendOneLater()
    ensures var d := Answer(Some(Stored(0, 0)), Spend(1, LATER)).value;
            d.allowed && Persist(d.state) == Stored(4, 5_000)
  {
  }

  lemma SpendTwoEarly()
    ensures Answer(Some(Stored(4, 5_000)), Spend(2, 0)).value.allowed
  {
  }

  function OutOfOrder(): History {
    [Consumed(0, Spend(5, 0), 0)] + [Consumed(1, Spend(1, LATER), LATER)] + [Consumed(2, Spend(2, 0), LATER)]
  }

  lemma OutOfOrderAdmitsSeven()
    ensures Possible(OutOfOrder()) && Admitted(OutOfOrder(), 0, 0) == 7
  {
    hide Answer, Replay, Admitted;
    SpendAll(0);
    SpendOneLater();
    SpendTwoEarly();
    var h1, e2 := [Consumed(0, Spend(5, 0), 0)], Consumed(1, Spend(1, LATER), LATER);
    NothingYet(0, 0);
    assert [] + h1 == h1;
    Extend([], h1[0], 0, 0);
    Extend(h1, e2, 0, 0);
    Extend(h1 + [e2], Consumed(2, Spend(2, 0), LATER), 0, 0);
  }

  // Clocks out of order: the refill instant has moved on with a later clock, and a
  // request with an early clock spends tokens that arrived after it.
  lemma OutOfOrderClocksBreakBound() returns (steps: seq<Step>)
    ensures var h := KeyAt(Run(steps), "k").history;
            && OnePolicy(h, CFG) && ClocksAheadAtMost(h, 0) && RecreatedEarlyAtMost(h, 0)
            && ValidHistory(h)
            && Admitted(h, 0, 0) == 7 > Bound(CFG, 0, 0)
  {
    hide Admitted, Run;
    OutOfOrderAdmitsSeven();
    steps := Realize(OutOfOrder(), "k");
  }
}
