// The optimistic loop that any number of calls run against one Redis: WATCH the bucket,
// read it and decide, MULTI/EXEC, and retry while the watched key has changed. Steps of
// different calls, the passing of time and the removal of expired keys interleave freely.
module ConsumeProtocol {
  import opened Arithmetic
  import opened Wrappers
  import opened TokenBucket
  import opened WaitLaws
  import opened BucketHistory

  const MAX_RETRIES: nat := 32

  datatype ConsumeError = BadRequest(error: ApplyError) | BucketContention

  // Where a call stands in its attempt: about to WATCH, watching a version of the key,
  // holding the decision it computed from its read, or returned.
  datatype Phase =
    | Ready(attempt: nat)
    | Watching(attempt: nat, watched: nat)
    | Computed(attempt: nat, watched: nat, decision: Decision)
    | Returned(outcome: Result<Decision, ConsumeError>)

  // A failed attempt: the version of the key it watched and the one its EXEC found.
  datatype Window = Window(watched: nat, found: nat)

  // begunAt and conflicts record the version of the key when the call began and its failed
  // attempts; no step reads them.
  datatype Call = Call(key: string, req: Request, phase: Phase, begunAt: nat, conflicts: seq<Window>)

  datatype Entry = Entry(bucket: Stored, deadline: int)

  // One key: its hash with a deadline, a version that every change of the key advances,
  // and, read by no step, what has happened to it.
  datatype KeyState = KeyState(entry: Option<Entry>, version: nat, history: History)

  datatype System = System(
    keys: map<string, KeyState>,
    allowed: nat,
    blocked: nat,
    clock: int,
    calls: map<nat, Call>)

  datatype Step =
    | Begin(id: nat, key: string, req: Request)
    | Watch(id: nat)
    | ReadAndDecide(id: nat)
    | Exec(id: nat)
    | Tick(duration: nat)
    | ExpireKey(key: string)

  function KeyAt(s: System, key: string): KeyState {
    if key in s.keys then s.keys[key] else KeyState(None, 0, [])
  }

  function Content(k: KeyState): Option<Stored> {
    match k.entry
    case None => None
    case Some(entry) => Some(entry.bucket)
  }

  function CommitKey(k: KeyState, id: nat, req: Request, d: Decision, clock: int): KeyState {
    KeyState(Some(Entry(Persist(d.state), Deadline(clock, d))), k.version + 1,
             k.history + [Consumed(id, req, clock)])
  }

  function RemoveKey(k: KeyState, clock: int): KeyState {
    KeyState(None, k.version + 1, k.history + [Expired(clock)])
  }

  // EXEC that succeeds: the hash, its expiry and the counter change together.
  function Commit(s: System, id: nat, d: Decision): System
    requires id in s.calls
  {
    var c := s.calls[id];
    System(s.keys[c.key := CommitKey(KeyAt(s, c.key), id, c.req, d, s.clock)],
           s.allowed + (if d.allowed then 1 else 0),
           s.blocked + (if d.allowed then 0 else 1),
           s.clock,
           s.calls[id := c.(phase := Returned(Ok(d)))])
  }

  // EXEC that fails because the watched key changed: the next attempt, if one is left.
  function AfterConflict(attempt: nat): Phase {
    if attempt + 1 < MAX_RETRIES then Ready(attempt + 1) else Returned(Err(BucketContention))
  }

  function Conflict(c: Call, attempt: nat, watched: nat, found: nat): Call {
    c.(phase := AfterConflict(attempt),
       conflicts := c.conflicts + [Window(watched, found)])
  }

  // The read has been answered inside the watch.
  function Decided(c: Call, answer: Result<Decision, ApplyError>): Call
    requires c.phase.Watching?
  {
    c.(phase := match answer
                case Err(error) => Returned(Err(BadRequest(error)))
                case Ok(d) => Computed(c.phase.attempt, c.phase.watched, d))
  }

  function WithCall(s: System, id: nat, c: Call): System {
    s.(calls := s.calls[id := c])
  }

  // One step; a step that is not enabled changes nothing.
  function Do(s: System, step: Step): System {
    match step
    case Begin(id, key, req) =>
      if id in s.calls then s
      else WithCall(s, id, Call(key, req, Ready(0), KeyAt(s, key).version, []))
    case Watch(id) =>
      if id in s.calls && s.calls[id].phase.Ready? then
        var c := s.calls[id];
        WithCall(s, id, c.(phase := Watching(c.phase.attempt, KeyAt(s, c.key).version)))
      else s
    case ReadAndDecide(id) =>
      if id in s.calls && s.calls[id].phase.Watching? then
        var c := s.calls[id];
        WithCall(s, id, Decided(c, Answer(Content(KeyAt(s, c.key)), c.req)))
      else s
    case Exec(id) =>
      if id in s.calls && s.calls[id].phase.Computed? then
        var c := s.calls[id];
        if KeyAt(s, c.key).version == c.phase.watched then Commit(s, id, c.phase.decision)
        else WithCall(s, id, Conflict(c, c.phase.attempt, c.phase.watched, KeyAt(s, c.key).version))
      else s
    case Tick(duration) => s.(clock := s.clock + duration)
    case ExpireKey(key) =>
      var k := KeyAt(s, key);
      if k.entry.Some? && k.entry.value.deadline <= s.clock then
        s.(keys := s.keys[key := RemoveKey(k, s.clock)])
      else s
  }

  const EMPTY: System := System(map[], 0, 0, 0, map[])

  // Every sequence of steps is a run from the empty database.
  function Run(steps: seq<Step>): System {
    if steps == [] then EMPTY
    else Do(Run(steps[..|steps| - 1]), steps[|steps| - 1])
  }

  lemma RunAppend(steps: seq<Step>, step: Step)
    ensures Run(steps + [step]) == Do(Run(steps), step)
  {
    hide Do;
    assert (steps + [step])[..|steps + [step]| - 1] == steps;
  }

  // ---- The steps of one call ----

  lemma BeginDone(s: System, id: nat, key: string, req: Request)
    requires id !in s.calls
    ensures Do(s, Begin(id, key, req)) == WithCall(s, id, Call(key, req, Ready(0), KeyAt(s, key).version, []))
  {
  }

  lemma WatchDone(s: System, id: nat)
    requires id in s.calls && s.calls[id].phase.Ready?
    ensures var c := s.calls[id];
            Do(s, Watch(id)) == WithCall(s, id, c.(phase := Watching(c.phase.attempt, KeyAt(s, c.key).version)))
  {
  }

  lemma ReadDone(s: System, id: nat)
    requires id in s.calls && s.calls[id].phase.Watching?
    ensures var c := s.calls[id];
            Do(s, ReadAndDecide(id)) == WithCall(s, id, Decided(c, Answer(Content(KeyAt(s, c.key)), c.req)))
  {
    hide Answer;
  }

  lemma ConflictDone(s: System, id: nat)
    requires id in s.calls && s.calls[id].phase.Computed?
    requires KeyAt(s, s.calls[id].key).version != s.calls[id].phase.watched
    ensures var c := s.calls[id];
            Do(s, Exec(id))
            == WithCall(s, id, Conflict(c, c.phase.attempt, c.phase.watched, KeyAt(s, c.key).version))
  {
  }

  lemma SameKeys(s: System, id: nat, c: Call, key: string)
    ensures KeyAt(WithCall(s, id, c), key) == KeyAt(s, key)
  {
  }

  // ---- The invariant ----

  // A key is removed only after the commit before it has lived out its time.
  predicate ExpiredOnTime(h: History)
    requires ValidHistory(h)
  {
    forall i :: 0 <= i < |h| && h[i].Expired? ==>
      i > 0 && h[i - 1].Consumed? && h[i].at >= Deadline(h[i - 1].at, DecisionAt(h, i - 1))
  }

  predicate DistinctCommits(h: History) {
    forall i, j :: 0 <= i < j < |h| && h[i].Consumed? && h[j].Consumed? ==> h[i].id != h[j].id
  }

  // The stored bucket is the replay of the key's history.
  predicate KeyOk(k: KeyState): (ok: bool)
    ensures ok ==> ValidHistory(k.history) && |k.history| == k.version
  {
    var h := k.history;
    && ValidHistory(h)
    && |h| == k.version
    && Content(k) == Replay(h)
    && ExpiredOnTime(h)
    && DistinctCommits(h)
    && (k.entry.Some? ==>
          && h != [] && h[|h| - 1].Consumed?
          && k.entry.value.deadline == Deadline(h[|h| - 1].at, DecisionAt(h, |h| - 1)))
  }

  ghost predicate KeysOk(s: System) {
    forall key :: KeyOk(KeyAt(s, key))
  }

  // Every commit of a key is the commit of one returned call, with its decision.
  predicate EventsAreCalls(calls: map<nat, Call>, key: string, h: History)
    requires ValidHistory(h)
  {
    forall i :: 0 <= i < |h| && h[i].Consumed? ==>
      && h[i].id in calls
      && calls[h[i].id].key == key
      && calls[h[i].id].req == h[i].req
      && calls[h[i].id].phase == Returned(Ok(DecisionAt(h, i)))
  }

  ghost predicate AllEventsAreCalls(s: System)
    requires KeysOk(s)
  {
    forall key :: (assert KeyOk(KeyAt(s, key)); EventsAreCalls(s.calls, key, KeyAt(s, key).history))
  }

  // The i-th event of the key's history is the call's commit.
  predicate CommittedAt(id: nat, c: Call, d: Decision, h: History, i: nat)
    requires ValidHistory(h)
  {
    && c.begunAt <= i < |h|
    && h[i].Consumed? && h[i].id == id && h[i].req == c.req
    && DecisionAt(h, i) == d
  }

  // Each failed attempt was overtaken between its WATCH and its EXEC, in windows of the
  // key's history that follow one another.
  predicate ConflictsCharged(c: Call, upTo: nat) {
    && (forall k :: 0 <= k < |c.conflicts| ==>
          c.begunAt <= c.conflicts[k].watched < c.conflicts[k].found <= upTo)
    && (forall k, l :: 0 <= k < l < |c.conflicts| ==> c.conflicts[k].found <= c.conflicts[l].watched)
  }

  ghost predicate CallSound(id: nat, c: Call, k: KeyState)
    requires KeyOk(k)
  {
    && c.begunAt <= k.version
    && match c.phase
       case Ready(attempt) =>
         attempt == |c.conflicts| < MAX_RETRIES && ConflictsCharged(c, k.version)
       case Watching(attempt, watched) =>
         && attempt == |c.conflicts| < MAX_RETRIES && ConflictsCharged(c, watched)
         && c.begunAt <= watched <= k.version
       case Computed(attempt, watched, decision) =>
         && attempt == |c.conflicts| < MAX_RETRIES && ConflictsCharged(c, watched)
         && c.begunAt <= watched <= k.version
         && ValidRequest(c.req)
         && (watched == k.version ==> Answer(Content(k), c.req) == Ok(decision))
       case Returned(Ok(decision)) =>
         && |c.conflicts| < MAX_RETRIES && ConflictsCharged(c, k.version)
         && exists i :: CommittedAt(id, c, decision, k.history, i)
       case Returned(Err(BucketContention)) =>
         |c.conflicts| == MAX_RETRIES && ConflictsCharged(c, k.version)
       case Returned(Err(BadRequest(error))) =>
         !ValidRequest(c.req) && Answer(None, c.req) == Err(error)
  }

  ghost predicate CallsSound(s: System)
    requires KeysOk(s)
  {
    forall id :: id in s.calls ==>
      (assert KeyOk(KeyAt(s, s.calls[id].key)); CallSound(id, s.calls[id], KeyAt(s, s.calls[id].key)))
  }

  predicate ReturnedWith(c: Call, allowed: bool) {
    c.phase.Returned? && c.phase.outcome.Ok? && c.phase.outcome.value.allowed == allowed
  }

  function CallsReturned(calls: map<nat, Call>, allowed: bool): set<nat> {
    set id | id in calls && ReturnedWith(calls[id], allowed)
  }

  predicate CountersExact(s: System) {
    s.allowed == |CallsReturned(s.calls, true)| && s.blocked == |CallsReturned(s.calls, false)|
  }

  ghost predicate Inv(s: System) {
    KeysOk(s) && AllEventsAreCalls(s) && CallsSound(s) && CountersExact(s)
  }

  // ---- One key ----

  lemma DecisionsKept(h: History, e: Event)
    requires ValidHistory(h + [e]) && ValidHistory(h)
    ensures forall i :: 0 <= i < |h| && h[i].Consumed? ==> DecisionAt(h + [e], i) == DecisionAt(h, i)
  {
    forall i | 0 <= i < |h| && h[i].Consumed? ensures DecisionAt(h + [e], i) == DecisionAt(h, i) {
      assert (h + [e])[..i] == h[..i];
    }
  }

  lemma CommitKeyOk(k: KeyState, id: nat, req: Request, d: Decision, clock: int)
    requires KeyOk(k) && ValidRequest(req) && Answer(Content(k), req) == Ok(d)
    requires forall i :: 0 <= i < |k.history| && k.history[i].Consumed? ==> k.history[i].id != id
    ensures KeyOk(CommitKey(k, id, req, d, clock))
    ensures DecisionAt(CommitKey(k, id, req, d, clock).history, |k.history|) == d
  {
    hide Answer, Replay, DecisionAt, Deadline, Persist;
    var e := Consumed(id, req, clock);
    ReplayAppend(k.history, e);
    DecisionsKept(k.history, e);
  }

  lemma RemoveKeyOk(k: KeyState, clock: int)
    requires KeyOk(k) && k.entry.Some? && k.entry.value.deadline <= clock
    ensures KeyOk(RemoveKey(k, clock))
  {
    hide Answer, Replay, DecisionAt, Deadline;
    var e := Expired(clock);
    assert ValidHistory(k.history + [e]);
    ReplayAppend(k.history, e);
    DecisionsKept(k.history, e);
  }

  // One more event on its key keeps a call sound, unless it is the call's own commit.
  lemma EventKeepsCall(id: nat, c: Call, k: KeyState, k': KeyState, e: Event)
    requires KeyOk(k) && KeyOk(k') && CallSound(id, c, k)
    requires k'.history == k.history + [e] && k'.version == k.version + 1
    ensures CallSound(id, c, k')
  {
    hide Answer, Replay, DecisionAt;
    if c.phase.Returned? && c.phase.outcome.Ok? {
      var i :| CommittedAt(id, c, c.phase.outcome.value, k.history, i);
      DecisionsKept(k.history, e);
      assert CommittedAt(id, c, c.phase.outcome.value, k'.history, i);
    }
  }

  lemma EventKeepsEvents(calls: map<nat, Call>, key: string, h: History, e: Event)
    requires ValidHistory(h) && ValidHistory(h + [e])
    requires EventsAreCalls(calls, key, h)
    requires e.Consumed? ==> e.id in calls && calls[e.id].key == key && calls[e.id].req == e.req
                             && calls[e.id].phase == Returned(Ok(DecisionAt(h + [e], |h|)))
    ensures EventsAreCalls(calls, key, h + [e])
  {
    hide Answer, Replay, DecisionAt;
    DecisionsKept(h, e);
  }

  // ---- One call ----

  lemma ComputedIsCurrent(id: nat, c: Call, k: KeyState)
    requires KeyOk(k) && CallSound(id, c, k)
    requires c.phase.Computed? && c.phase.watched == k.version
    ensures ValidRequest(c.req) && Answer(Content(k), c.req) == Ok(c.phase.decision)
  {
    hide Answer, Replay, DecisionAt;
  }

  lemma CommittedCallSound(id: nat, c: Call, k: KeyState, clock: int)
    requires KeyOk(k) && CallSound(id, c, k) && c.phase.Computed? && c.phase.watched == k.version
    requires var k' := CommitKey(k, id, c.req, c.phase.decision, clock);
             KeyOk(k') && DecisionAt(k'.history, |k.history|) == c.phase.decision
    ensures CallSound(id, c.(phase := Returned(Ok(c.phase.decision))),
                      CommitKey(k, id, c.req, c.phase.decision, clock))
  {
    hide Answer, Replay, DecisionAt, Persist, Deadline;
    var c' := c.(phase := Returned(Ok(c.phase.decision)));
    assert CommittedAt(id, c', c.phase.decision, CommitKey(k, id, c.req, c.phase.decision, clock).history, |k.history|);
  }

  lemma ConflictSound(id: nat, c: Call, k: KeyState)
    requires KeyOk(k) && CallSound(id, c, k) && c.phase.Computed? && c.phase.watched != k.version
    ensures CallSound(id, Conflict(c, c.phase.attempt, c.phase.watched, k.version), k)
  {
    hide KeyOk, Answer, Replay, DecisionAt;
  }

  lemma WatchSound(id: nat, c: Call, k: KeyState)
    requires KeyOk(k) && CallSound(id, c, k) && c.phase.Ready?
    ensures CallSound(id, c.(phase := Watching(c.phase.attempt, k.version)), k)
  {
    hide KeyOk, Answer, Replay, DecisionAt;
  }

  lemma DecideSound(id: nat, c: Call, k: KeyState)
    requires KeyOk(k) && CallSound(id, c, k) && c.phase.Watching?
    ensures CallSound(id, Decided(c, Answer(Content(k), c.req)), k)
  {
    hide KeyOk, Replay, DecisionAt, Decide;
  }

  // ---- Steps keep the invariant ----

  // A call that has not returned has committed nothing.
  lemma UnreturnedUncommitted(calls: map<nat, Call>, id: nat, c: Call, key: string, h: History)
    requires ValidHistory(h) && EventsAreCalls(calls, key, h)
    requires id in calls ==> !calls[id].phase.Returned?
    ensures forall i :: 0 <= i < |h| && h[i].Consumed? ==> h[i].id != id
    ensures EventsAreCalls(calls[id := c], key, h)
  {
    hide Answer, Replay, DecisionAt;
  }

  // Steps of one call that write nothing to Redis.
  lemma QuietStep(s: System, id: nat, c: Call)
    requires Inv(s)
    requires id in s.calls ==> !s.calls[id].phase.Returned?
    requires KeyOk(KeyAt(s, c.key)) && CallSound(id, c, KeyAt(s, c.key))
    requires c.phase.Returned? ==> c.phase.outcome.Err?
    ensures Inv(WithCall(s, id, c))
  {
    hide KeyOk, CallSound, Answer, Replay, DecisionAt;
    var s' := WithCall(s, id, c);
    assert forall key :: KeyAt(s', key) == KeyAt(s, key);
    assert KeysOk(s');
    forall key ensures EventsAreCalls(s'.calls, key, KeyAt(s', key).history) {
      assert KeyOk(KeyAt(s, key)) && EventsAreCalls(s.calls, key, KeyAt(s, key).history);
      UnreturnedUncommitted(s.calls, id, c, key, KeyAt(s, key).history);
    }
    QuietCalls(s, id, c);
    QuietCounts(s, id, c);
  }

  lemma QuietCalls(s: System, id: nat, c: Call)
    requires KeysOk(s) && CallsSound(s)
    requires KeyOk(KeyAt(s, c.key)) && CallSound(id, c, KeyAt(s, c.key))
    requires KeysOk(WithCall(s, id, c))
    ensures CallsSound(WithCall(s, id, c))
  {
    hide KeyOk, CallSound;
    var s' := WithCall(s, id, c);
    forall other | other in s'.calls ensures CallSound(other, s'.calls[other], KeyAt(s', s'.calls[other].key)) {
      assert KeyAt(s', s'.calls[other].key) == KeyAt(s, s'.calls[other].key);
      if other != id {
        assert CallSound(other, s.calls[other], KeyAt(s, s.calls[other].key));
      }
    }
  }

  lemma QuietCounts(s: System, id: nat, c: Call)
    requires CountersExact(s)
    requires id in s.calls ==> !s.calls[id].phase.Returned?
    requires c.phase.Returned? ==> c.phase.outcome.Err?
    ensures CountersExact(WithCall(s, id, c))
  {
    hide KeyAt;
    forall allowed ensures CallsReturned(s.calls[id := c], allowed) == CallsReturned(s.calls, allowed) {
    }
  }

  lemma CommitCounts(s: System, id: nat, d: Decision)
    requires CountersExact(s) && id in s.calls && !s.calls[id].phase.Returned?
    ensures CountersExact(Commit(s, id, d))
  {
    hide CommitKey, KeyAt;
    OneMoreReturned(s.calls, id, s.calls[id].(phase := Returned(Ok(d))), d.allowed);
  }

  lemma OneMoreReturned(calls: map<nat, Call>, id: nat, c: Call, allowed: bool)
    requires id in calls && !calls[id].phase.Returned? && ReturnedWith(c, allowed)
    ensures |CallsReturned(calls[id := c], allowed)| == |CallsReturned(calls, allowed)| + 1
    ensures |CallsReturned(calls[id := c], !allowed)| == |CallsReturned(calls, !allowed)|
  {
    assert CallsReturned(calls[id := c], allowed) == CallsReturned(calls, allowed) + {id};
    assert CallsReturned(calls[id := c], !allowed) == CallsReturned(calls, !allowed);
  }

  // An event on one key, under calls that change at most in one unreturned call.
  lemma EventStepKeys(s: System, s': System, key: string, k': KeyState)
    requires KeysOk(s) && KeyOk(k') && s'.keys == s.keys[key := k']
    ensures KeysOk(s')
    ensures forall other :: KeyAt(s', other) == if other == key then k' else KeyAt(s, other)
  {
    hide KeyOk;
    forall other ensures KeyOk(KeyAt(s', other)) {
      assert KeyOk(KeyAt(s, other));
    }
  }

  lemma EventStepCalls(s: System, s': System, key: string, k': KeyState, e: Event, except: set<nat>)
    requires KeysOk(s) && CallsSound(s) && KeyOk(k') && s'.keys == s.keys[key := k'] && KeysOk(s')
    requires k'.history == KeyAt(s, key).history + [e] && k'.version == KeyAt(s, key).version + 1
    requires s'.calls.Keys == s.calls.Keys
    requires forall id :: id in s.calls && id !in except ==> s'.calls[id] == s.calls[id]
    requires forall id :: id in s.calls && id in except ==>
               s'.calls[id].key == key && CallSound(id, s'.calls[id], k')
    ensures CallsSound(s')
  {
    hide KeyOk, CallSound;
    forall id | id in s'.calls ensures CallSound(id, s'.calls[id], KeyAt(s', s'.calls[id].key)) {
      if id !in except {
        var c := s.calls[id];
        assert KeyOk(KeyAt(s, c.key)) && CallSound(id, c, KeyAt(s, c.key));
        if c.key == key {
          EventKeepsCall(id, c, KeyAt(s, key), k', e);
        }
      }
    }
  }

  lemma CommitStep(s: System, id: nat)
    requires Inv(s) && id in s.calls && s.calls[id].phase.Computed?
    requires KeyAt(s, s.calls[id].key).version == s.calls[id].phase.watched
    ensures Inv(Commit(s, id, s.calls[id].phase.decision))
  {
    hide KeyOk, CallSound, EventsAreCalls, Answer, Replay, DecisionAt;
    var c := s.calls[id];
    var d, k := c.phase.decision, KeyAt(s, c.key);
    assert KeyOk(k) && CallSound(id, c, k) && EventsAreCalls(s.calls, c.key, k.history);
    ComputedIsCurrent(id, c, k);
    var s' := Commit(s, id, d);
    var c', k', e := s'.calls[id], CommitKey(k, id, c.req, d, s.clock), Consumed(id, c.req, s.clock);
    UnreturnedUncommitted(s.calls, id, c', c.key, k.history);
    CommitKeyOk(k, id, c.req, d, s.clock);
    EventStepKeys(s, s', c.key, k');
    CommitEvents(s, id, d);
    CommittedCallSound(id, c, k, s.clock);
    EventStepCalls(s, s', c.key, k', e, {id});
    CommitCounts(s, id, d);
  }

  lemma CommitEvents(s: System, id: nat, d: Decision)
    requires KeysOk(s) && AllEventsAreCalls(s) && id in s.calls && !s.calls[id].phase.Returned?
    requires KeysOk(Commit(s, id, d))
    requires var k := KeyAt(s, s.calls[id].key);
             var k' := CommitKey(k, id, s.calls[id].req, d, s.clock);
             KeyOk(k') && DecisionAt(k'.history, |k.history|) == d
    ensures AllEventsAreCalls(Commit(s, id, d))
  {
    hide KeyOk, EventsAreCalls, Answer, Replay, DecisionAt;
    var c, s' := s.calls[id], Commit(s, id, d);
    var h, e := KeyAt(s, c.key).history, Consumed(id, c.req, s.clock);
    forall key ensures (assert KeyOk(KeyAt(s', key)); EventsAreCalls(s'.calls, key, KeyAt(s', key).history)) {
      assert KeyOk(KeyAt(s, key)) && KeyOk(KeyAt(s', key)) && EventsAreCalls(s.calls, key, KeyAt(s, key).history);
      UnreturnedUncommitted(s.calls, id, s'.calls[id], key, KeyAt(s, key).history);
      if key == c.key {
        EventKeepsEvents(s'.calls, key, h, e);
      }
    }
  }

  lemma ExpireStep(s: System, key: string)
    requires Inv(s)
    ensures Inv(Do(s, ExpireKey(key)))
  {
    hide KeyOk, CallSound, EventsAreCalls, Answer, Replay, DecisionAt;
    var k := KeyAt(s, key);
    if k.entry.Some? && k.entry.value.deadline <= s.clock {
      var k', e, s' := RemoveKey(k, s.clock), Expired(s.clock), Do(s, ExpireKey(key));
      assert KeyOk(k);
      RemoveKeyOk(k, s.clock);
      EventStepKeys(s, s', key, k');
      forall other ensures EventsAreCalls(s'.calls, other, KeyAt(s', other).history) {
        assert KeyOk(KeyAt(s, other)) && EventsAreCalls(s.calls, other, KeyAt(s, other).history);
        if other == key {
          EventKeepsEvents(s.calls, key, k.history, e);
        }
      }
      EventStepCalls(s, s', key, k', e, {});
    }
  }

  lemma ReadStep(s: System, id: nat)
    requires Inv(s) && id in s.calls && s.calls[id].phase.Watching?
    ensures Inv(Do(s, ReadAndDecide(id)))
  {
    hide KeyOk, CallSound, Answer, AllEventsAreCalls, CountersExact;
    var c := s.calls[id];
    assert KeyOk(KeyAt(s, c.key)) && CallSound(id, c, KeyAt(s, c.key));
    DecideSound(id, c, KeyAt(s, c.key));
    QuietStep(s, id, Decided(c, Answer(Content(KeyAt(s, c.key)), c.req)));
  }

  lemma ConflictStep(s: System, id: nat)
    requires Inv(s) && id in s.calls && s.calls[id].phase.Computed?
    requires KeyAt(s, s.calls[id].key).version != s.calls[id].phase.watched
    ensures Inv(Do(s, Exec(id)))
  {
    hide KeyOk, CallSound, AllEventsAreCalls, CountersExact;
    var c := s.calls[id];
    assert KeyOk(KeyAt(s, c.key)) && CallSound(id, c, KeyAt(s, c.key));
    ConflictSound(id, c, KeyAt(s, c.key));
    QuietStep(s, id, Conflict(c, c.phase.attempt, c.phase.watched, KeyAt(s, c.key).version));
  }

  lemma TickStep(s: System, duration: nat)
    requires Inv(s)
    ensures Inv(Do(s, Tick(duration)))
  {
    hide KeyOk, CallSound, EventsAreCalls;
    var s' := Do(s, Tick(duration));
    assert forall key :: KeyAt(s', key) == KeyAt(s, key);
    assert KeysOk(s');
    assert AllEventsAreCalls(s') && CallsSound(s');
  }

  lemma BeginStep(s: System, id: nat, key: string, req: Request)
    requires Inv(s) && id !in s.calls
    ensures Inv(Do(s, Begin(id, key, req)))
  {
    hide KeyOk, AllEventsAreCalls, CountersExact;
    assert KeyOk(KeyAt(s, key));
    QuietStep(s, id, Call(key, req, Ready(0), KeyAt(s, key).version, []));
  }

  lemma WatchStep(s: System, id: nat)
    requires Inv(s) && id in s.calls && s.calls[id].phase.Ready?
    ensures Inv(Do(s, Watch(id)))
  {
    hide KeyOk, CallSound, AllEventsAreCalls, CountersExact;
    var c := s.calls[id];
    assert KeyOk(KeyAt(s, c.key)) && CallSound(id, c, KeyAt(s, c.key));
    WatchSound(id, c, KeyAt(s, c.key));
    QuietStep(s, id, c.(phase := Watching(c.phase.attempt, KeyAt(s, c.key).version)));
  }

  lemma StepKeepsInv(s: System, step: Step)
    requires Inv(s)
    ensures Inv(Do(s, step))
  {
    hide Inv, Answer, Commit;
    match step
    case Begin(id, key, req) =>
      if id !in s.calls {
        BeginStep(s, id, key, req);
      }
    case Watch(id) =>
      if id in s.calls && s.calls[id].phase.Ready? {
        WatchStep(s, id);
      }
    case ReadAndDecide(id) =>
      if id in s.calls && s.calls[id].phase.Watching? {
        ReadStep(s, id);
      }
    case Exec(id) =>
      if id in s.calls && s.calls[id].phase.Computed? {
        if KeyAt(s, s.calls[id].key).version == s.calls[id].phase.watched {
          CommitStep(s, id);
        } else {
          ConflictStep(s, id);
        }
      }
    case Tick(duration) => TickStep(s, duration);
    case ExpireKey(key) => ExpireStep(s, key);
  }

  lemma {:induction false} RunKeepsInv(steps: seq<Step>)
    ensures Inv(Run(steps))
  {
    if steps == [] {
      assert CallsReturned(EMPTY.calls, true) == {} && CallsReturned(EMPTY.calls, false) == {};
    } else {
      RunKeepsInv(steps[..|steps| - 1]);
      StepKeepsInv(Run(steps[..|steps| - 1]), steps[|steps| - 1]);
    }
  }
}
