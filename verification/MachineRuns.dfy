// The retry loop with decisions in 64-bit arithmetic: it is the loop in unbounded integers
// for every policy that passes the test on its values, and without the test a run in which
// a time to live wraps breaks the window bound.
module MachineRuns {
  import opened Arithmetic
  import opened Wrappers
  import opened TokenBucket
  import opened WaitLaws
  import opened MachineInts
  import opened BucketHistory
  import opened WindowBound
  import opened ConsumeProtocol
  import opened ConsumeGuarantees

  function Answer64(stored: Option<Stored>, req: Request): Result<Decision, ApplyError> {
    if ValidRequest(req)
    then Ok(Decide64(req.now, ReadBucketState(stored, req.cfg, req.now), req.cfg, req.cost))
    else Answer(stored, req)
  }

  function Do64(s: System, step: Step): System {
    if step.ReadAndDecide? && step.id in s.calls && s.calls[step.id].phase.Watching? then
      var c := s.calls[step.id];
      WithCall(s, step.id, Decided(c, Answer64(Content(KeyAt(s, c.key)), c.req)))
    else
      Do(s, step)
  }

  function Run64(steps: seq<Step>): System {
    if steps == [] then EMPTY
    else Do64(Run64(steps[..|steps| - 1]), steps[|steps| - 1])
  }

  // ---- Policies that pass the test ----

  // A request that is refused, or one of a policy row that passes the test, with a clock
  // within given years.
  predicate Representable(req: Request, earliest: int, latest: int) {
    ValidRequest(req) ==>
      && PolicyConfig(req.cfg) && req.cost <= MAX_INT32 && PolicyFits(req.cfg, req.cost)
      && earliest <= req.now <= latest
  }

  // Anchored no earlier than the millisecond of the earliest clock.
  predicate AnchoredFrom(b: Stored, earliest: int) {
    Reload(b).last.ns > earliest - NANOS_PER_MILLI
  }

  predicate AnyAnchoredFrom(b: Option<Stored>, earliest: int) {
    b.Some? ==> AnchoredFrom(b.value, earliest)
  }

  lemma AnswersAgree(stored: Option<Stored>, req: Request, earliest: int, latest: int)
    requires latest - earliest + NANOS_PER_MILLI <= MAX_ELAPSED
    requires Representable(req, earliest, latest) && AnyAnchoredFrom(stored, earliest)
    ensures Answer64(stored, req) == Answer(stored, req)
    ensures Answer(stored, req).Ok? ==> AnchoredFrom(Persist(Answer(stored, req).value.state), earliest)
  {
    hide Decide, Decide64, PolicyFits, Refill;
    if ValidRequest(req) {
      var s := ReadBucketState(stored, req.cfg, req.now);
      AnswerIsDecide(stored, req);
      CountsFitForYears(req.now, s, req.cfg, req.cost);
      PolicyFitsDecides(req.now, s, req.cfg, req.cost);
      StoredNotBefore(stored, req, earliest);
    }
  }

  lemma StoredNotBefore(stored: Option<Stored>, req: Request, earliest: int)
    requires ValidRequest(req) && earliest <= req.now && AnyAnchoredFrom(stored, earliest)
    ensures AnchoredFrom(Persist(Answer(stored, req).value.state), earliest)
  {
    hide Refill;
    var start := NormalizeState(ReadBucketState(stored, req.cfg, req.now), req.now, req.cfg.capacity);
    RefillShape(req.now, start, req.cfg);
    MulNonneg(Intervals(req.now, start, req.cfg), req.cfg.refillInterval);
    var last := Answer(stored, req).value.state.last.ns;
    assert last >= start.last.ns;
    QuotientBounds(last, NANOS_PER_MILLI);
    if stored.Some? {
      QuotientUnique(stored.value.lastMs * NANOS_PER_MILLI, NANOS_PER_MILLI, stored.value.lastMs);
      QuotientMonotone(stored.value.lastMs * NANOS_PER_MILLI, last, NANOS_PER_MILLI);
    }
  }

  predicate CallInRange(c: Call, earliest: int, latest: int) {
    && Representable(c.req, earliest, latest)
    && (c.phase.Computed? ==> AnchoredFrom(Persist(c.phase.decision.state), earliest))
  }

  ghost predicate InRange(s: System, earliest: int, latest: int) {
    && (forall key :: AnyAnchoredFrom(Content(KeyAt(s, key)), earliest))
    && (forall id :: id in s.calls ==> CallInRange(s.calls[id], earliest, latest))
  }

  lemma StepsAgree(s: System, step: Step, earliest: int, latest: int)
    requires latest - earliest + NANOS_PER_MILLI <= MAX_ELAPSED
    requires InRange(s, earliest, latest)
    requires step.Begin? ==> Representable(step.req, earliest, latest)
    ensures Do64(s, step) == Do(s, step)
    ensures InRange(Do(s, step), earliest, latest)
  {
    hide Answer, Answer64, Persist, Representable, AnchoredFrom, Deadline;
    if step.ReadAndDecide? && step.id in s.calls && s.calls[step.id].phase.Watching? {
      var c := s.calls[step.id];
      AnswersAgree(Content(KeyAt(s, c.key)), c.req, earliest, latest);
    }
    var s' := Do(s, step);
    forall key ensures AnyAnchoredFrom(Content(KeyAt(s', key)), earliest) {
      assert AnyAnchoredFrom(Content(KeyAt(s, key)), earliest);
    }
  }

  // Every run whose policies pass the test, with clocks within 136 years of each other, is
  // the same run in 64-bit arithmetic: whatever is proved of runs is proved of it.
  lemma {:induction false} MachineRunsAgree(steps: seq<Step>, earliest: int, latest: int)
    requires latest - earliest + NANOS_PER_MILLI <= MAX_ELAPSED
    requires forall step :: step in steps && step.Begin? ==> Representable(step.req, earliest, latest)
    ensures Run64(steps) == Run(steps)
    ensures InRange(Run(steps), earliest, latest)
  {
    hide Do, Do64, Representable, InRange;
    if steps == [] {
      NothingInRange(earliest, latest);
    } else {
      var n := |steps| - 1;
      MachineRunsAgree(steps[..n], earliest, latest);
      assert steps[n] in steps;
      StepsAgree(Run(steps[..n]), steps[n], earliest, latest);
    }
  }

  // In particular the window bound.
  lemma EveryMachineRunWithinBound(steps: seq<Step>, earliest: int, latest: int, key: string, cfg: Config,
                                   t0: int, t1: int, disorder: nat, ahead: int, early: int)
    requires latest - earliest + NANOS_PER_MILLI <= MAX_ELAPSED
    requires forall step :: step in steps && step.Begin? ==> Representable(step.req, earliest, latest)
    requires var h := KeyAt(Run64(steps), key).history; OnePolicy(h, cfg) && ClocksLimited(h, disorder, ahead, early)
    requires ahead + early <= cfg.refillInterval - NANOS_PER_SECOND + 1
    requires t0 <= t1
    ensures ValidHistory(KeyAt(Run64(steps), key).history)
    ensures Admitted(KeyAt(Run64(steps), key).history, t0, t1)
         <= cfg.capacity + cfg.refillTokens * CeilDiv(t1 - t0 + disorder, cfg.refillInterval)
  {
    hide Run, Run64, Representable, Admitted;
    MachineRunsAgree(steps, earliest, latest);
    EveryRunWithinBound(steps, key, cfg, t0, t1, disorder, ahead, early);
  }

  lemma NothingInRange(earliest: int, latest: int)
    ensures InRange(EMPTY, earliest, latest)
  {
  }

  // ---- A time to live that wraps ----

  // Five tokens, one more in fifty years: a legal policy.
  const CFG: Config := Config(5, 1, 1_600_000_000 * NANOS_PER_SECOND)
  const REPORT: Request := Request(CFG, 5, 0)

  // The sum of the wait until full and the extra interval wraps to a negative duration.
  lemma WrappedTimeToLive()
    ensures PolicyConfig(CFG) && !PolicyFits(CFG, 5)
    ensures var d := Decide64(0, State(5, At(0)), CFG, 5);
            d.allowed && d.state == State(0, At(0)) && d.bucketTTL < -NANOS_PER_SECOND
  {
  }

  lemma OneMore64(steps: seq<Step>, step: Step)
    ensures Run64(steps + [step]) == Do64(Run64(steps), step)
  {
    assert (steps + [step])[..|steps + [step]| - 1] == steps;
  }

  // An uninterrupted call on a bucket that is not there.
  lemma Report(steps: seq<Step>, id: nat) returns (longer: seq<Step>)
    requires var s := Run64(steps); id !in s.calls && KeyAt(s, "k").entry.None?
    ensures var s, s' := Run64(steps), Run64(longer);
            var d := Decide64(0, State(5, At(0)), CFG, 5);
            && KeyAt(s', "k") == CommitKey(KeyAt(s, "k"), id, REPORT, d, s.clock)
            && s'.clock == s.clock
            && s'.calls.Keys == s.calls.Keys + {id} && s'.calls[id].phase == Returned(Ok(d))
            && forall other :: other in s.calls ==> s'.calls[other] == s.calls[other]
  {
    hide Run64, Decide64, CommitKey;
    OneMore64(steps, Begin(id, "k", REPORT));
    longer := steps + [Begin(id, "k", REPORT)];
    OneMore64(longer, Watch(id));
    longer := longer + [Watch(id)];
    OneMore64(longer, ReadAndDecide(id));
    longer := longer + [ReadAndDecide(id)];
    OneMore64(longer, Exec(id));
    longer := longer + [Exec(id)];
  }

  function Twice(): History {
    [Consumed(0, REPORT, 0)] + [Expired(0)] + [Consumed(1, REPORT, 0)]
  }

  // Every clock shows the same time throughout, and the bucket admits twice its capacity.
  lemma WrappedExpiryBreaksBound() returns (steps: seq<Step>)
    ensures var s := Run64(steps);
            var h := KeyAt(s, "k").history;
            && h == Twice() && OnePolicy(h, CFG)
            && ClocksLimited(h, 0, 0, 0)
            && 0 in s.calls && ReturnedWith(s.calls[0], true)
            && 1 in s.calls && ReturnedWith(s.calls[1], true)
            && REPORT.cost + REPORT.cost > Bound(CFG, 0, 0)
  {
    hide Run64, Decide64, Persist;
    Run64OfNothing();
    WrappedTimeToLive();
    steps := Report([], 0);
    OneMore64(steps, ExpireKey("k"));
    steps := steps + [ExpireKey("k")];
    steps := Report(steps, 1);
  }

  lemma Run64OfNothing()
    ensures Run64([]) == EMPTY
  {
  }
}
