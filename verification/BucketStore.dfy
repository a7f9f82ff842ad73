// The bucket store as the program has it: an object whose Consume retries a watched
// transaction at most maxRetries times, while other clients and the clock act between
// any two of its round trips. Every state of the object is that of a run of
// ConsumeProtocol, so what is proved of runs is proved of the loop as written.
module BucketStore {
  import opened Wrappers
  import opened TokenBucket
  import opened BucketHistory
  import opened ConsumeProtocol
  import opened ConsumeGuarantees
  import opened Scopes

  function DoAll(s: System, steps: seq<Step>): System {
    if steps == [] then s
    else Do(DoAll(s, steps[..|steps| - 1]), steps[|steps| - 1])
  }

  lemma {:induction false} RunConcat(steps: seq<Step>, more: seq<Step>)
    ensures Run(steps + more) == DoAll(Run(steps), more)
  {
    hide Do;
    if more == [] {
      assert steps + more == steps;
    } else {
      RunConcat(steps, more[..|more| - 1]);
      assert (steps + more)[..|steps + more| - 1] == steps + more[..|more| - 1];
    }
  }

  // A step that the given call takes itself.
  predicate StepOf(step: Step, id: nat) {
    !step.Tick? && !step.ExpireKey? && step.id == id
  }

  predicate ByOthers(steps: seq<Step>, id: nat) {
    forall step :: step in steps ==> !StepOf(step, id)
  }

  lemma {:induction false} OthersLeaveCall(s: System, steps: seq<Step>, id: nat)
    requires ByOthers(steps, id) && id in s.calls
    ensures id in DoAll(s, steps).calls && DoAll(s, steps).calls[id] == s.calls[id]
  {
    hide Do;
    if steps != [] {
      var n := |steps| - 1;
      OthersLeaveCall(s, steps[..n], id);
      assert steps[n] in steps;
      OtherLeavesCall(DoAll(s, steps[..n]), steps[n], id);
    }
  }

  lemma OtherLeavesCall(s: System, step: Step, id: nat)
    requires !StepOf(step, id) && id in s.calls
    ensures id in Do(s, step).calls && Do(s, step).calls[id] == s.calls[id]
  {
    hide Answer, CommitKey, RemoveKey, KeyAt;
  }

  // What WATCH relies on: a key whose version is unchanged has not changed at all.
  lemma {:induction false} VersionsGrow(s: System, steps: seq<Step>, key: string)
    ensures KeyAt(DoAll(s, steps), key).version >= KeyAt(s, key).version
    ensures KeyAt(DoAll(s, steps), key).version == KeyAt(s, key).version ==>
              KeyAt(DoAll(s, steps), key) == KeyAt(s, key)
  {
    hide DoAll, Do;
    if steps == [] {
      NothingDone(s);
    } else {
      VersionsGrow(s, steps[..|steps| - 1], key);
      LastDone(s, steps);
      VersionGrows(DoAll(s, steps[..|steps| - 1]), steps[|steps| - 1], key);
    }
  }

  lemma NothingDone(s: System)
    ensures DoAll(s, []) == s
  {
  }

  lemma LastDone(s: System, steps: seq<Step>)
    requires steps != []
    ensures DoAll(s, steps) == Do(DoAll(s, steps[..|steps| - 1]), steps[|steps| - 1])
  {
  }

  lemma VersionGrows(s: System, step: Step, key: string)
    ensures KeyAt(Do(s, step), key).version >= KeyAt(s, key).version
    ensures KeyAt(Do(s, step), key).version == KeyAt(s, key).version ==> KeyAt(Do(s, step), key) == KeyAt(s, key)
  {
    hide Answer;
  }

  // The steps of one call and of the others around it: a call begins, and its own steps
  // follow in turn, each after what the others do in the slot before it.
  function OwnTurn(id: nat, n: nat): Step {
    if n % 3 == 0 then Watch(id) else if n % 3 == 1 then ReadAndDecide(id) else Exec(id)
  }

  function Script(traffic: nat -> seq<Step>, id: nat, key: string, req: Request, n: nat): seq<Step> {
    if n == 0 then [Begin(id, key, req)]
    else Script(traffic, id, key, req, n - 1) + traffic(n - 1) + [OwnTurn(id, n - 1)]
  }

  // The steps of one attempt, up to its read if the request is refused.
  function Attempt(id: nat, t0: seq<Step>, t1: seq<Step>, t2: seq<Step>, refused: bool): seq<Step> {
    t0 + [Watch(id)] + t1 + [ReadAndDecide(id)] + if refused then [] else t2 + [Exec(id)]
  }

  lemma AttemptAppended(before: seq<Step>, id: nat, t0: seq<Step>, t1: seq<Step>, t2: seq<Step>)
    ensures before + t0 + [Watch(id)] + t1 + [ReadAndDecide(id)] == before + Attempt(id, t0, t1, t2, true)
    ensures before + t0 + [Watch(id)] + t1 + [ReadAndDecide(id)] + t2 + [Exec(id)]
         == before + Attempt(id, t0, t1, t2, false)
  {
  }

  // One attempt adds three slots, or two if the request is refused.
  lemma AttemptGrows(before: seq<Step>, traffic: nat -> seq<Step>, id: nat, key: string, req: Request,
                     attempt: nat, refused: bool)
    ensures var n := 3 * attempt;
            before + Script(traffic, id, key, req, n)
            + Attempt(id, traffic(n), traffic(n + 1), traffic(n + 2), refused)
            == before + Script(traffic, id, key, req, if refused then n + 2 else n + 3)
  {
    hide Script, Attempt;
    var n := 3 * attempt;
    assert OwnTurn(id, n) == Watch(id) && OwnTurn(id, n + 1) == ReadAndDecide(id) && OwnTurn(id, n + 2) == Exec(id);
    ScriptGrows(before, traffic, id, key, req, n);
    ScriptGrows(before, traffic, id, key, req, n + 1);
    ScriptGrows(before, traffic, id, key, req, n + 2);
    AttemptAppended(before + Script(traffic, id, key, req, n), id, traffic(n), traffic(n + 1), traffic(n + 2));
  }

  lemma ScriptGrows(before: seq<Step>, traffic: nat -> seq<Step>, id: nat, key: string, req: Request, n: nat)
    ensures before + Script(traffic, id, key, req, n) + traffic(n) + [OwnTurn(id, n)]
         == before + Script(traffic, id, key, req, n + 1)
  {
  }

  lemma NothingScripted(traffic: nat -> seq<Step>, id: nat, key: string, req: Request)
    ensures Script(traffic, id, key, req, 0) == [Begin(id, key, req)]
  {
  }

  // A decision that EXEC finds still current is the answer to the bucket as it is.
  lemma CommitAnswers(steps: seq<Step>, id: nat)
    requires var s := Run(steps); id in s.calls && s.calls[id].phase.Computed?
    requires var s := Run(steps); KeyAt(s, s.calls[id].key).version == s.calls[id].phase.watched
    ensures var s := Run(steps);
            var c := s.calls[id];
            Answer(Content(KeyAt(s, c.key)), c.req) == Ok(c.phase.decision)
  {
    hide Run, Answer, Replay, DecisionAt;
    RunKeepsInv(steps);
    var s := Run(steps);
    var c := s.calls[id];
    assert KeyOk(KeyAt(s, c.key)) && CallSound(id, c, KeyAt(s, c.key));
    ComputedIsCurrent(id, c, KeyAt(s, c.key));
  }

  lemma CommitReturns(s: System, id: nat)
    requires id in s.calls && s.calls[id].phase.Computed?
    ensures var d := s.calls[id].phase.decision;
            id in Commit(s, id, d).calls && Commit(s, id, d).calls[id] == s.calls[id].(phase := Returned(Ok(d)))
  {
    hide CommitKey, KeyAt;
  }

  // A call that has not begun or has returned an error has written nothing to any key.
  lemma NothingCommitted(steps: seq<Step>, id: nat)
    requires var calls := Run(steps).calls;
             id in calls ==> calls[id].phase.Returned? && calls[id].phase.outcome.Err?
    ensures forall key, e :: e in KeyAt(Run(steps), key).history && e.Consumed? ==> e.id != id
  {
    hide Run, KeyAt;
    forall key, e | e in KeyAt(Run(steps), key).history && e.Consumed? ensures e.id != id {
      var h := KeyAt(Run(steps), key).history;
      var i :| 0 <= i < |h| && h[i] == e;
      CommitsAreAnsweredCalls(steps, key, i);
    }
  }

  // How the watched function of one attempt can fail.
  datatype AttemptError = Refused(error: ApplyError) | TxFailed

  class BucketStore {
    var keys: map<string, KeyState>
    var allowed: nat
    var blocked: nat
    var clock: int
    var calls: map<nat, Call>
    const maxRetries: nat
    ghost var steps: seq<Step>

    function State(): System
      reads this
    {
      System(keys, allowed, blocked, clock, calls)
    }

    ghost predicate Valid()
      reads this
    {
      State() == Run(steps) && maxRetries == MAX_RETRIES
    }

    constructor ()
      ensures Valid() && steps == [] && State() == EMPTY && maxRetries == 32
    {
      keys, allowed, blocked, clock, calls := map[], 0, 0, 0, map[];
      maxRetries := MAX_RETRIES;
      steps := [];
    }

    // The others' turn between two round trips.
    method Yield(es: seq<Step>)
      requires Valid()
      modifies this
      ensures Valid() && steps == old(steps) + es
      ensures State() == DoAll(old(State()), es)
    {
      hide Do;
      RunConcat(steps, es);
      var s := DoAll(State(), es);
      keys, allowed, blocked, clock, calls := s.keys, s.allowed, s.blocked, s.clock, s.calls;
      steps := steps + es;
    }

    // A step of a call that writes nothing to Redis.
    method Advance(id: nat, c: Call, ghost step: Step)
      requires Valid() && Do(State(), step) == WithCall(State(), id, c)
      modifies this
      ensures Valid() && steps == old(steps) + [step]
      ensures State() == WithCall(old(State()), id, c)
      ensures id in calls && calls[id] == c
    {
      hide Do;
      RunAppend(steps, step);
      calls := calls[id := c];
      steps := steps + [step];
    }

    // EXEC: all of the queued commands, or none if the watched key has changed.
    method ExecTransaction(key: string, watched: nat, id: nat, req: Request, d: Decision) returns (ok: bool)
      requires Valid() && id in calls && calls[id].key == key && calls[id].req == req
      requires calls[id].phase.Computed? && calls[id].phase.watched == watched && calls[id].phase.decision == d
      modifies this
      ensures Valid() && steps == old(steps) + [Exec(id)]
      ensures ok <==> KeyAt(old(State()), key).version == watched
      ensures ok ==> State() == Commit(old(State()), id, d)
      ensures !ok ==> var c := old(calls)[id];
                      State() == WithCall(old(State()), id, Conflict(c, c.phase.attempt, watched,
                                                                     KeyAt(old(State()), key).version))
    {
      hide CommitKey, KeyAt;
      RunAppend(steps, Exec(id));
      var k := KeyAt(State(), key);
      ok := k.version == watched;
      if ok {
        keys := keys[key := CommitKey(k, id, req, d, clock)];
        if d.allowed {
          allowed := allowed + 1;
        } else {
          blocked := blocked + 1;
        }
        calls := calls[id := calls[id].(phase := Returned(Ok(d)))];
      } else {
        calls := calls[id := Conflict(calls[id], calls[id].phase.attempt, watched, k.version)];
      }
      steps := steps + [Exec(id)];
    }

    // The others' turn while a call is in flight.
    method YieldAround(id: nat, es: seq<Step>)
      requires Valid() && id in calls && ByOthers(es, id)
      modifies this
      ensures Valid() && steps == old(steps) + es
      ensures id in calls && calls[id] == old(calls)[id]
    {
      hide Do, DoAll, Run, ByOthers;
      OthersLeaveCall(State(), es, id);
      Yield(es);
    }

    // One attempt: WATCH, the read and the decision on it, and EXEC, with the others' turns
    // before each.
    method WatchTransaction(key: string, req: Request, id: nat, t0: seq<Step>, t1: seq<Step>, t2: seq<Step>)
      returns (r: Result<Decision, AttemptError>)
      requires Valid() && id in calls && calls[id].key == key && calls[id].req == req && calls[id].phase.Ready?
      requires ByOthers(t0, id) && ByOthers(t1, id) && ByOthers(t2, id)
      modifies this
      ensures Valid() && steps != []
      ensures steps == old(steps) + Attempt(id, t0, t1, t2, r.Err? && r.error.Refused?)
      ensures id in calls && calls[id].key == key && calls[id].req == req
              && calls[id].begunAt == old(calls)[id].begunAt
      ensures var before := Run(steps[..|steps| - 1]);
              match r
              case Ok(d) =>
                && calls[id].phase == Returned(Ok(d))
                && id in before.calls && before.calls[id].key == key && before.calls[id].req == req
                && Answer(Content(KeyAt(before, key)), req) == Ok(d)
                && State() == Commit(before, id, d)
              case Err(Refused(error)) =>
                && calls[id].phase == Returned(Err(BadRequest(error)))
                && Answer(Content(KeyAt(before, key)), req) == Err(error)
                && State() == WithCall(before, id, calls[id])
              case Err(TxFailed) =>
                && calls[id].phase == AfterConflict(old(calls)[id].phase.attempt)
                && State() == WithCall(before, id, calls[id])
    {
      hide Answer, Replay, Do, Run, Commit, KeyAt, ByOthers, DoAll, Content, Attempt;
      AttemptAppended(steps, id, t0, t1, t2);
      YieldAround(id, t0);
      var watched := KeyAt(State(), key).version;
      WatchDone(State(), id);
      Advance(id, calls[id].(phase := Watching(calls[id].phase.attempt, watched)), Step.Watch(id));

      YieldAround(id, t1);
      ghost var read := steps;
      var answer := Answer(Content(KeyAt(State(), key)), req);
      ReadDone(State(), id);
      Advance(id, Decided(calls[id], answer), ReadAndDecide(id));
      if answer.Err? {
        assert steps[..|steps| - 1] == read;
        return Err(Refused(answer.error));
      }

      YieldAround(id, t2);
      ghost var executing, ran := State(), steps;
      var ok := ExecTransaction(key, watched, id, req, answer.value);
      assert steps[..|steps| - 1] == ran;
      if !ok {
        return Err(TxFailed);
      }
      CommitAnswers(ran, id);
      CommitReturns(executing, id);
      return Ok(answer.value);
    }

    // The traffic parameter gives what the others do in each slot: before the WATCH, the
    // read and the EXEC of every attempt. The call and the traffic together are a run of
    // the protocol, in which the call returns what Consume returns. A decision is the
    // answer to the bucket as everything before the commit left it, an error has written
    // nothing, and giving up means that the key has changed at least 32 times during the
    // call.
    method Consume(ref: Scope, cfg: Config, cost: int, now: int, id: nat, traffic: nat -> seq<Step>)
      returns (r: Result<Decision, ConsumeError>, ghost slots: nat)
      requires Valid() && id !in calls
      requires forall n: nat :: ByOthers(traffic(n), id)
      modifies this
      ensures Valid() && steps != []
      ensures 0 < slots <= 96
      ensures steps == old(steps) + Script(traffic, id, BucketKey(ref), Request(cfg, cost, now), slots)
      ensures && id in calls && calls[id].key == BucketKey(ref) && calls[id].req == Request(cfg, cost, now)
              && calls[id].begunAt == KeyAt(old(State()), BucketKey(ref)).version
              && calls[id].phase == Returned(r)
      ensures var key, req := BucketKey(ref), Request(cfg, cost, now);
              var before := Run(steps[..|steps| - 1]);
              match r
              case Ok(d) =>
                && id in before.calls && before.calls[id].key == key && before.calls[id].req == req
                && Answer(Content(KeyAt(before, key)), req) == Ok(d)
                && State() == Commit(before, id, d)
              case Err(BadRequest(error)) =>
                && Answer(Content(KeyAt(before, key)), req) == Err(error)
                && State() == WithCall(before, id, calls[id])
              case Err(BucketContention) =>
                && KeyAt(before, key).version >= KeyAt(old(State()), key).version + 32
                && State() == WithCall(before, id, calls[id])
    {
      hide Answer, Replay, Do, Run, Commit, KeyAt, ByOthers, BucketKey, DoAll, Content, Script, Attempt;
      var key, req := BucketKey(ref), Request(cfg, cost, now);
      BeginDone(State(), id, key, req);
      Advance(id, Call(key, req, Ready(0), KeyAt(State(), key).version, []), Begin(id, key, req));
      NothingScripted(traffic, id, key, req);
      slots := 0;
      for attempt := 0 to maxRetries
        invariant Valid() && steps != [] && slots == 3 * attempt
        invariant steps == old(steps) + Script(traffic, id, key, req, slots)
        invariant id in calls && calls[id].key == key && calls[id].req == req
        invariant calls[id].begunAt == KeyAt(old(State()), key).version
        invariant calls[id].phase == if attempt == 0 then Ready(0) else AfterConflict(attempt - 1)
        invariant attempt == maxRetries ==> State() == WithCall(Run(steps[..|steps| - 1]), id, calls[id])
      {
        var outcome := WatchTransaction(key, req, id, traffic(3 * attempt), traffic(3 * attempt + 1),
                                        traffic(3 * attempt + 2));
        AttemptGrows(old(steps), traffic, id, key, req, attempt, outcome.Err? && outcome.error.Refused?);
        match outcome
        case Ok(d) => return Ok(d), slots + 3;
        case Err(Refused(error)) => return Err(BadRequest(error)), slots + 2;
        case Err(TxFailed) => slots := slots + 3;
      }
      GivingUpTakesEvents(steps, id);
      SameKeys(Run(steps[..|steps| - 1]), id, calls[id], key);
      return Err(BucketContention), slots;
    }
  }
}
