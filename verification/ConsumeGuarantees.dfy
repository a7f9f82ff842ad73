// What the retry loop guarantees over every run of every number of calls.
module ConsumeGuarantees {
  import opened Arithmetic
  import opened Wrappers
  import opened TokenBucket
  import opened BucketHistory
  import opened WindowBound
  import opened ConsumeProtocol
  import opened RunHistories

  // ---- Serializability ----

  // The database and every answer are those of running the committed calls one after the
  // other in commit order: the stored bucket is the replay, and each returned decision is
  // the answer of its own commit's place in the history, after the call began.
  lemma Serializable(steps: seq<Step>)
    ensures var s := Run(steps);
            && (forall key :: ValidHistory(KeyAt(s, key).history)
                           && Content(KeyAt(s, key)) == Replay(KeyAt(s, key).history))
            && (forall id :: id in s.calls && s.calls[id].phase.Returned? && s.calls[id].phase.outcome.Ok? ==>
                  exists i :: CommittedAt(id, s.calls[id], s.calls[id].phase.outcome.value,
                                          KeyAt(s, s.calls[id].key).history, i))
  {
    hide Answer, Replay, DecisionAt;
    RunKeepsInv(steps);
    var s := Run(steps);
    assert forall key :: KeyOk(KeyAt(s, key));
    forall id | id in s.calls && s.calls[id].phase.Returned? && s.calls[id].phase.outcome.Ok?
      ensures exists i :: CommittedAt(id, s.calls[id], s.calls[id].phase.outcome.value,
                                      KeyAt(s, s.calls[id].key).history, i)
    {
      assert CallSound(id, s.calls[id], KeyAt(s, s.calls[id].key));
    }
  }

  // A commit in a history belongs to exactly one call, which returned its decision: a
  // call that failed or has not returned has written nothing, and none is counted twice.
  lemma CommitsAreAnsweredCalls(steps: seq<Step>, key: string, i: nat)
    requires i < |KeyAt(Run(steps), key).history| && KeyAt(Run(steps), key).history[i].Consumed?
    ensures var s := Run(steps);
            var h := KeyAt(s, key).history;
            && ValidHistory(h)
            && h[i].id in s.calls
            && s.calls[h[i].id].key == key
            && s.calls[h[i].id].phase == Returned(Ok(DecisionAt(h, i)))
            && forall j :: 0 <= j < |h| && h[j].Consumed? && h[j].id == h[i].id ==> j == i
  {
    hide Answer, Replay, DecisionAt;
    RunKeepsInv(steps);
    var s := Run(steps);
    assert KeyOk(KeyAt(s, key)) && EventsAreCalls(s.calls, key, KeyAt(s, key).history);
  }

  // ---- Counters ----

  // The summary counters, which no call watches, equal the numbers of calls that were
  // answered allowed and blocked, over all buckets.
  lemma CountersConserved(steps: seq<Step>)
    ensures var s := Run(steps);
            s.allowed == |CallsReturned(s.calls, true)| && s.blocked == |CallsReturned(s.calls, false)|
  {
    hide Run, KeysOk, AllEventsAreCalls, CallsSound;
    RunKeepsInv(steps);
    assert CountersExact(Run(steps));
  }

  // ---- The retry budget ----

  // A call gives up only after each of its attempts was overtaken: an event of the key lies
  // between the WATCH and the EXEC of each, and the windows follow one another.
  lemma ContentionIsCharged(steps: seq<Step>, id: nat)
    requires id in Run(steps).calls
    requires Run(steps).calls[id].phase == Returned(Err(BucketContention))
    ensures var s := Run(steps);
            var c := s.calls[id];
            var h := KeyAt(s, c.key).history;
            && |c.conflicts| == 32
            && (forall k :: 0 <= k < 32 ==>
                  c.begunAt <= c.conflicts[k].watched < c.conflicts[k].found <= |h|)
            && (forall k, l :: 0 <= k < l < 32 ==> c.conflicts[k].found <= c.conflicts[l].watched)
  {
    hide Answer, Replay, DecisionAt;
    RunKeepsInv(steps);
    var s := Run(steps);
    var c := s.calls[id];
    assert KeyOk(KeyAt(s, c.key)) && CallSound(id, c, KeyAt(s, c.key));
  }

  // The windows of a call's first failed attempts hold as many events.
  lemma {:induction false} WindowsHoldEvents(c: Call, upTo: nat, k: nat)
    requires ConflictsCharged(c, upTo) && k < |c.conflicts|
    ensures c.conflicts[k].found >= c.begunAt + k + 1
  {
    if k > 0 {
      WindowsHoldEvents(c, upTo, k - 1);
    }
  }

  // So a call that gives up has seen its key change once in each attempt.
  lemma GivingUpTakesEvents(steps: seq<Step>, id: nat)
    requires id in Run(steps).calls
    requires Run(steps).calls[id].phase == Returned(Err(BucketContention))
    ensures var c := Run(steps).calls[id];
            KeyAt(Run(steps), c.key).version >= c.begunAt + 32
  {
    hide Answer, Replay, DecisionAt;
    RunKeepsInv(steps);
    var s := Run(steps);
    var c := s.calls[id];
    assert KeyOk(KeyAt(s, c.key)) && CallSound(id, c, KeyAt(s, c.key));
    WindowsHoldEvents(c, KeyAt(s, c.key).version, MAX_RETRIES - 1);
  }

  function CallsOn(calls: map<nat, Call>, key: string): set<nat> {
    set id | id in calls && calls[id].key == key
  }

  lemma {:induction false} AsManyIdsAsCommits(h: History)
    requires DistinctCommits(h) && forall e :: e in h ==> e.Consumed?
    ensures |Ids(h)| == |h|
  {
    if h == [] {
      assert Ids(h) == {};
    } else {
      var n := |h| - 1;
      AsManyIdsAsCommits(h[..n]);
      assert h == h[..n] + [h[n]];
      assert Ids(h) == Ids(h[..n]) + {h[n].id};
      assert h[n].id !in Ids(h[..n]);
    }
  }

  lemma SubsetNotLarger(a: set<nat>, b: set<nat>)
    requires a <= b
    ensures |a| <= |b|
  {
    assert b == a + (b - a);
  }

  // As many calls as there are attempts, racing on one bucket that does not expire, never
  // exhaust the budget: each of them that returns has its decision (or a bad request).
  lemma RacersNeverGiveUp(steps: seq<Step>, key: string, id: nat)
    requires var s := Run(steps);
             && |CallsOn(s.calls, key)| <= 32
             && (forall e :: e in KeyAt(s, key).history ==> e.Consumed?)
             && id in s.calls && s.calls[id].key == key
    ensures Run(steps).calls[id].phase != Returned(Err(BucketContention))
  {
    hide Answer, Replay, DecisionAt;
    var s := Run(steps);
    var h := KeyAt(s, key).history;
    if s.calls[id].phase == Returned(Err(BucketContention)) {
      GivingUpTakesEvents(steps, id);
      RunKeepsInv(steps);
      assert KeyOk(KeyAt(s, key)) && EventsAreCalls(s.calls, key, h);
      AsManyIdsAsCommits(h);
      assert Ids(h) <= CallsOn(s.calls, key) - {id};
      SubsetNotLarger(Ids(h), CallsOn(s.calls, key) - {id});
      assert false;
    }
  }

  // How many steps of its own a call can still take.
  function StepsLeft(c: Call): int {
    match c.phase
    case Ready(attempt) => 3 * (MAX_RETRIES - attempt)
    case Watching(attempt, _) => 3 * (MAX_RETRIES - attempt) - 1
    case Computed(attempt, _, _) => 3 * (MAX_RETRIES - attempt) - 2
    case Returned(_) => 0
  }

  function OwnStep(id: nat, c: Call): Step {
    match c.phase
    case Ready(_) => Watch(id)
    case Watching(_, _) => ReadAndDecide(id)
    case Computed(_, _, _) => Exec(id)
    case Returned(_) => Exec(id)
  }

  lemma AttemptsWithinBudget(id: nat, c: Call, k: KeyState)
    requires KeyOk(k) && CallSound(id, c, k) && !c.phase.Returned?
    ensures c.phase.attempt < MAX_RETRIES
  {
    hide KeyOk, Answer, Replay, DecisionAt;
  }

  // In every reachable state a call that has not returned can take its own next step,
  // whatever the others do, and is at most that many steps away from returning.
  lemma CallsMakeProgress(steps: seq<Step>, id: nat)
    requires id in Run(steps).calls && !Run(steps).calls[id].phase.Returned?
    ensures var c := Run(steps).calls[id];
            var after := Do(Run(steps), OwnStep(id, c)).calls;
            && 0 < StepsLeft(c) <= 96
            && id in after && 0 <= StepsLeft(after[id]) < StepsLeft(c)
  {
    hide Run, KeyOk, CallSound, AllEventsAreCalls, CountersExact, Answer, CommitKey, KeyAt;
    RunKeepsInv(steps);
    var s := Run(steps);
    var c := s.calls[id];
    assert KeyOk(KeyAt(s, c.key)) && CallSound(id, c, KeyAt(s, c.key));
    AttemptsWithinBudget(id, c, KeyAt(s, c.key));
  }

  // ---- The budget is all used ----

  // A call that another call's commit has overtaken in each of its attempts so far.
  ghost predicate OvertakenSoFar(steps: seq<Step>, key: string, req: Request, times: nat) {
    var s := Run(steps);
    && 0 in s.calls && s.calls[0].key == key && s.calls[0].req == req && |s.calls[0].conflicts| == times
    && (forall id :: id in s.calls ==> id <= times)
    && |KeyAt(s, key).history| == times
    && s.calls[0].phase == (if times < 32 then Ready(times) else Returned(Err(BucketContention)))
  }

  lemma OvertakenOnceMore(steps: seq<Step>, key: string, req: Request, times: nat) returns (longer: seq<Step>)
    requires ValidRequest(req) && times < 32 && OvertakenSoFar(steps, key, req, times)
    ensures OvertakenSoFar(longer, key, req, times + 1)
  {
    hide Run, Do, Answer, KeyAt, Content;
    var read := ReadAgain(steps, key, req, times);
    var overtaken := Serve(read, key, times + 1, req, Run(read).clock);
    VersionIsLength(steps, key);
    VersionIsLength(overtaken, key);
    ConflictDone(Run(overtaken), 0);
    RunAppend(overtaken, Exec(0));
    longer := overtaken + [Exec(0)];
    SameKeys(Run(overtaken), 0, Run(longer).calls[0], key);
  }

  // Its next attempt, up to the decision.
  lemma ReadAgain(steps: seq<Step>, key: string, req: Request, times: nat) returns (read: seq<Step>)
    requires ValidRequest(req) && times < 32 && OvertakenSoFar(steps, key, req, times)
    ensures var s, s' := Run(steps), Run(read);
            && s'.calls.Keys == s.calls.Keys && s'.clock == s.clock && KeyAt(s', key) == KeyAt(s, key)
            && var c := s'.calls[0];
            && c.key == key && c.req == req && c.conflicts == s.calls[0].conflicts
            && c.phase.Computed? && c.phase.attempt == times && c.phase.watched == KeyAt(s, key).version
  {
    hide Run, Do, Answer, KeyAt, Content;
    WatchDone(Run(steps), 0);
    RunAppend(steps, Watch(0));
    var watching := steps + [Watch(0)];
    SameKeys(Run(steps), 0, Run(watching).calls[0], key);
    ReadDone(Run(watching), 0);
    RunAppend(watching, ReadAndDecide(0));
    read := watching + [ReadAndDecide(0)];
    SameKeys(Run(watching), 0, Run(read).calls[0], key);
  }

  lemma VersionIsLength(steps: seq<Step>, key: string)
    ensures |KeyAt(Run(steps), key).history| == KeyAt(Run(steps), key).version
  {
    hide Run, KeyAt, Answer, Replay;
    RunKeepsInv(steps);
    assert KeyOk(KeyAt(Run(steps), key));
  }

  lemma {:induction false} Overtaken(key: string, req: Request, times: nat) returns (steps: seq<Step>)
    requires ValidRequest(req) && times <= 32
    ensures OvertakenSoFar(steps, key, req, times)
  {
    if times == 0 {
      RunAppend([], Begin(0, key, req));
      steps := [] + [Begin(0, key, req)];
    } else {
      hide OvertakenSoFar;
      steps := Overtaken(key, req, times - 1);
      steps := OvertakenOnceMore(steps, key, req, times - 1);
    }
  }

  // For every number of times up to 31 there is a run in which a call is overtaken that
  // often and still returns its decision.
  lemma OvertakenStillDecides(key: string, req: Request, times: nat) returns (steps: seq<Step>)
    requires ValidRequest(req) && times <= 31
    ensures var s := Run(steps);
            && 0 in s.calls && |s.calls[0].conflicts| == times
            && s.calls[0].phase.Returned? && s.calls[0].phase.outcome.Ok?
  {
    hide Run;
    steps := Overtaken(key, req, times);
    steps := FinishAlone(steps, 0);
  }

  // The 32nd time it gives up.
  lemma OvertakenGivesUp(key: string, req: Request) returns (steps: seq<Step>)
    requires ValidRequest(req)
    ensures 0 in Run(steps).calls && Run(steps).calls[0].phase == Returned(Err(BucketContention))
  {
    hide Run;
    steps := Overtaken(key, req, 32);
  }

  // ---- Exact admission under contention ----

  // Equal calls with one clock on a bucket that did not exist, however they interleave:
  // exactly as many are allowed as the capacity holds, and the rest of it is left.
  lemma EqualCallsAdmitExactly(steps: seq<Step>, key: string, req: Request)
    requires ValidRequest(req) && req.now % NANOS_PER_MILLI < req.cfg.refillInterval
    requires forall e :: e in KeyAt(Run(steps), key).history ==> e.Consumed? && e.req == req
    ensures var k := KeyAt(Run(steps), key);
            var admitted := Min(|k.history|, req.cfg.capacity / req.cost);
            && ValidHistory(k.history)
            && AllowedCount(k.history) == admitted
            && (k.history != [] ==>
                  Content(k) == Some(Stored(req.cfg.capacity - req.cost * admitted, req.now / NANOS_PER_MILLI)))
  {
    hide Answer, Replay, DecisionAt, AllowedCount;
    Serializable(steps);
    EqualRequestsAdmitExactly(KeyAt(Run(steps), key).history, req);
  }

  // ---- The window bound, end to end ----

  // No request that finds the key gone has a clock further behind the server's time at which
  // the key went: its clock is slow, or was read before the call came to the bucket.
  predicate RecreatedEarlyAtMost(h: History, early: int) {
    forall i :: 0 < i < |h| && h[i].Consumed? && h[i - 1].Expired? ==> h[i].req.now >= h[i - 1].at - early
  }

  lemma ExpiryWasDue(h: History, i: nat, early: int)
    requires ValidHistory(h) && ExpiredOnTime(h) && RecreatedEarlyAtMost(h, early)
    requires i < |h| && h[i].Consumed?
    ensures Replay(h[..i]).None? && LastWritten(h[..i]).Some? ==>
              h[i].req.now + early >= LastWritten(h[..i]).value.deadline
  {
    hide Answer, Deadline;
    var before := h[..i];
    if Replay(before).None? && LastWritten(before).Some? {
      assert before[|before| - 1] == h[i - 1];
      assert before[..i - 1] == h[..i - 1];
      var written := h[..i - 1];
      assert written[..i - 2] == h[..i - 2];
      assert written[i - 2] == h[i - 2];
    }
  }

  // What is asked of the clocks behind a key's history.
  predicate ClocksLimited(h: History, disorder: nat, ahead: int, early: int) {
    ClocksWithin(h, disorder) && ClocksAheadAtMost(h, ahead) && RecreatedEarlyAtMost(h, early)
  }

  // In every run, for every bucket used under one policy, whatever the interleaving of
  // commits and expiries and the order of the clocks: as long as the skew of committed
  // clocks ahead of the server and the earliness of recreating requests together stay
  // within the interval, less the part of a second that EXPIRE can cut off, no window
  // admits more than the capacity and one refill per begun interval, counting the disorder
  // of the clocks to the window.
  lemma EveryRunWithinBound(steps: seq<Step>, key: string, cfg: Config, t0: int, t1: int,
                            disorder: nat, ahead: int, early: int)
    requires var h := KeyAt(Run(steps), key).history; OnePolicy(h, cfg) && ClocksLimited(h, disorder, ahead, early)
    requires ahead + early <= cfg.refillInterval - NANOS_PER_SECOND + 1
    requires t0 <= t1
    ensures ValidHistory(KeyAt(Run(steps), key).history)
    ensures Admitted(KeyAt(Run(steps), key).history, t0, t1)
         <= cfg.capacity + cfg.refillTokens * CeilDiv(t1 - t0 + disorder, cfg.refillInterval)
  {
    hide Run, Answer, Replay, DecisionAt, LastWritten, RecreatedWhenFull, Admitted;
    RunsArePossible(steps, key);
    var h := KeyAt(Run(steps), key).history;
    forall i | 0 <= i < |h| && h[i].Consumed?
      ensures Replay(h[..i]).None? && LastWritten(h[..i]).Some? ==>
                h[i].req.now + early >= LastWritten(h[..i]).value.deadline
    {
      ExpiryWasDue(h, i, early);
    }
    RecreationIsFree(h, cfg, t0 - disorder, t1 + disorder, ahead, early);
    AdmittedWithinWindow(h, cfg, t0, t1, disorder);
  }

  // With one clock for everybody, read in commit order and after any expiry found, every
  // policy keeps the bound as it is.
  lemma EveryRunOnOneClock(steps: seq<Step>, key: string, cfg: Config, t0: int, t1: int)
    requires var h := KeyAt(Run(steps), key).history; OnePolicy(h, cfg) && ClocksLimited(h, 0, 0, 0)
    requires cfg.refillInterval >= NANOS_PER_SECOND
    requires t0 <= t1
    ensures ValidHistory(KeyAt(Run(steps), key).history)
    ensures Admitted(KeyAt(Run(steps), key).history, t0, t1) <= Bound(cfg, t0, t1)
  {
    hide Run, Admitted, ClocksLimited;
    EveryRunWithinBound(steps, key, cfg, t0, t1, 0, 0, 0);
  }
}
