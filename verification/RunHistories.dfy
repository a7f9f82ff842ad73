// Which histories of a key the runs of the protocol can produce: exactly those with valid
// requests, one commit a call, a server clock that does not run backwards, and removals
// no earlier than the deadline set by the commit before them.
module RunHistories {
  import opened Wrappers
  import opened TokenBucket
  import opened BucketHistory
  import opened WindowBound
  import opened ConsumeProtocol

  predicate Possible(h: History) {
    && ValidHistory(h) && ExpiredOnTime(h) && DistinctCommits(h)
    && Timed(h)
  }

  predicate Timed(h: History) {
    ServerInOrder(h) && forall i :: 0 <= i < |h| ==> h[i].at >= 0
  }

  // ---- Runs produce only these ----

  predicate TimedUpTo(h: History, clock: int) {
    Timed(h) && forall i :: 0 <= i < |h| ==> h[i].at <= clock
  }

  ghost predicate TimesInOrder(s: System) {
    s.clock >= 0 && forall key :: TimedUpTo(KeyAt(s, key).history, s.clock)
  }

  lemma TimedAppend(h: History, clock: int, e: Event)
    requires TimedUpTo(h, clock) && clock >= 0 && e.at == clock
    ensures TimedUpTo(h + [e], clock)
  {
  }

  lemma StepKeepsTimes(s: System, step: Step)
    requires TimesInOrder(s)
    ensures TimesInOrder(Do(s, step))
  {
    hide Answer, Persist, Deadline, Conflict, Decided, TimedUpTo;
    var s' := Do(s, step);
    forall key ensures TimedUpTo(KeyAt(s', key).history, s'.clock) {
      var h, h' := KeyAt(s, key).history, KeyAt(s', key).history;
      assert TimedUpTo(h, s.clock);
      if h' == h {
        LaterClock(h, s.clock, s'.clock);
      } else {
        TimedAppend(h, s.clock, h'[|h'| - 1]);
      }
    }
  }

  lemma LaterClock(h: History, clock: int, later: int)
    requires TimedUpTo(h, clock) && clock <= later
    ensures TimedUpTo(h, later)
  {
  }

  lemma {:induction false} RunKeepsTimes(steps: seq<Step>)
    ensures TimesInOrder(Run(steps))
  {
    hide Do;
    if steps != [] {
      RunKeepsTimes(steps[..|steps| - 1]);
      StepKeepsTimes(Run(steps[..|steps| - 1]), steps[|steps| - 1]);
    }
  }

  lemma RunsArePossible(steps: seq<Step>, key: string)
    ensures Possible(KeyAt(Run(steps), key).history)
  {
    hide Run, ExpiredOnTime, DistinctCommits;
    RunKeepsInv(steps);
    RunKeepsTimes(steps);
    assert KeyOk(KeyAt(Run(steps), key));
    assert TimedUpTo(KeyAt(Run(steps), key).history, Run(steps).clock);
  }

  // ---- And all of these ----

  // A call that is about to WATCH and meets no interference commits on that attempt: to the
  // key's history it adds its commit, to the key its decision's state.
  lemma FinishAlone(steps: seq<Step>, id: nat) returns (longer: seq<Step>)
    requires id in Run(steps).calls && Run(steps).calls[id].phase.Ready?
    requires ValidRequest(Run(steps).calls[id].req)
    ensures longer == steps + [Watch(id), ReadAndDecide(id), Exec(id)]
    ensures var s, s' := Run(steps), Run(longer);
            var c := s.calls[id];
            var d := Answer(Content(KeyAt(s, c.key)), c.req).value;
            && KeyAt(s', c.key) == CommitKey(KeyAt(s, c.key), id, c.req, d, s.clock)
            && s'.clock == s.clock
            && s'.calls == s.calls[id := c.(phase := Returned(Ok(d)))]
  {
    hide Answer, Run;
    RunAppend(steps, Watch(id));
    RunAppend(steps + [Watch(id)], ReadAndDecide(id));
    RunAppend(steps + [Watch(id)] + [ReadAndDecide(id)], Exec(id));
    longer := steps + [Watch(id)] + [ReadAndDecide(id)] + [Exec(id)];
    assert longer == steps + [Watch(id), ReadAndDecide(id), Exec(id)];
  }

  // A call begins at a time, and commits at once.
  lemma Serve(steps: seq<Step>, key: string, id: nat, req: Request, at: int) returns (longer: seq<Step>)
    requires id !in Run(steps).calls && ValidRequest(req) && at >= Run(steps).clock
    ensures var s, s' := Run(steps), Run(longer);
            && KeyAt(s', key).history == KeyAt(s, key).history + [Consumed(id, req, at)]
            && s'.clock == at
            && s'.calls.Keys == s.calls.Keys + {id}
            && forall other :: other in s.calls ==> s'.calls[other] == s.calls[other]
  {
    hide Run, Answer, Persist, Deadline;
    RunAppend(steps, Tick(at - Run(steps).clock));
    var waited := steps + [Tick(at - Run(steps).clock)];
    RunAppend(waited, Begin(id, key, req));
    longer := FinishAlone(waited + [Begin(id, key, req)], id);
  }

  lemma Remove(steps: seq<Step>, key: string, at: int) returns (longer: seq<Step>)
    requires var k := KeyAt(Run(steps), key); k.entry.Some? && k.entry.value.deadline <= at
    requires at >= Run(steps).clock
    ensures var s, s' := Run(steps), Run(longer);
            && KeyAt(s', key).history == KeyAt(s, key).history + [Expired(at)]
            && s'.clock == at
            && s'.calls == s.calls
  {
    hide Run, Answer;
    RunAppend(steps, Tick(at - Run(steps).clock));
    longer := steps + [Tick(at - Run(steps).clock)];
    RunAppend(longer, ExpireKey(key));
    longer := longer + [ExpireKey(key)];
  }

  // The numbers of the calls that a history commits.
  function Ids(h: History): set<nat> {
    set e | e in h && e.Consumed? :: e.id
  }

  lemma IdsAppend(h: History, e: Event)
    ensures Ids(h + [e]) == Ids(h) + if e.Consumed? then {e.id} else {}
  {
    assert forall f :: f in h + [e] <==> f in h || f == e;
  }

  lemma PrefixPossible(h: History)
    requires Possible(h) && h != []
    ensures Possible(h[..|h| - 1])
    ensures h[|h| - 1].Consumed? ==> h[|h| - 1].id !in Ids(h[..|h| - 1])
  {
    hide Answer, Replay, Deadline;
    var n := |h| - 1;
    var before := h[..n];
    assert h == before + [h[n]];
    DecisionsKept(before, h[n]);
  }

  ghost predicate Reached(steps: seq<Step>, key: string, h: History) {
    var s := Run(steps);
    && KeyAt(s, key).history == h
    && s.clock == (if h == [] then 0 else h[|h| - 1].at)
    && s.calls.Keys == Ids(h)
  }

  lemma {:induction false} Realize(h: History, key: string) returns (steps: seq<Step>)
    requires Possible(h)
    ensures Reached(steps, key, h)
  {
    hide Possible;
    if h == [] {
      steps := [];
    } else {
      hide Reached;
      PrefixPossible(h);
      steps := Realize(h[..|h| - 1], key);
      steps := RealizeNext(steps, h, key);
    }
  }

  lemma RealizeNext(steps: seq<Step>, h: History, key: string) returns (longer: seq<Step>)
    requires Possible(h) && h != [] && Reached(steps, key, h[..|h| - 1])
    ensures Reached(longer, key, h)
  {
    hide Run, KeyAt, Possible, Ids;
    var n := |h| - 1;
    var before, e := h[..n], h[n];
    assert before + [e] == h;
    PrefixPossible(h);
    LastIsNext(h);
    IdsAppend(before, e);
    match e
    case Consumed(id, req, at) =>
      longer := Serve(steps, key, id, req, at);
    case Expired(at) =>
      DueNow(steps, key, h);
      longer := Remove(steps, key, at);
  }

  lemma LastIsNext(h: History)
    requires Possible(h) && h != []
    ensures h[|h| - 1].at >= (if |h| == 1 then 0 else h[|h| - 2].at)
    ensures h[|h| - 1].Consumed? ==> ValidRequest(h[|h| - 1].req)
  {
  }

  lemma DueNow(steps: seq<Step>, key: string, h: History)
    requires Possible(h) && h != [] && h[|h| - 1].Expired? && KeyAt(Run(steps), key).history == h[..|h| - 1]
    ensures var k := KeyAt(Run(steps), key);
            k.entry.Some? && k.entry.value.deadline <= h[|h| - 1].at
  {
    hide Run, Answer, Replay, Deadline, KeyAt;
    RunKeepsInv(steps);
    var k, n := KeyAt(Run(steps), key), |h| - 1;
    assert KeyOk(k);
    assert k.history[n - 1] == h[n - 1] && k.history[..n - 1] == h[..n - 1];
    CommittedIsThere(k.history);
  }

  lemma CommittedIsThere(h: History)
    requires ValidHistory(h) && h != [] && h[|h| - 1].Consumed?
    ensures Replay(h).Some?
  {
    hide Answer;
  }

  // The histories of a key in runs are exactly these.
  lemma HistoriesOfRuns(h: History, key: string)
    ensures (exists steps :: KeyAt(Run(steps), key).history == h) <==> Possible(h)
  {
    hide Run, Possible;
    if Possible(h) {
      var steps := Realize(h, key);
      assert Reached(steps, key, h);
      assert KeyAt(Run(steps), key).history == h;
    }
    forall steps | KeyAt(Run(steps), key).history == h ensures Possible(h) {
      RunsArePossible(steps, key);
    }
  }
}
