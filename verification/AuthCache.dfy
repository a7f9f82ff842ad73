// Authentication through a cache with a time to live, racing with creation and
// deactivation: how long a deactivated key can still be accepted. Times are whole
// milliseconds of one clock.
module AuthCache {
  import opened Arithmetic
  import opened Wrappers
  import opened Scopes

  // A row of api_keys; deactivation is never undone.
  datatype Row = Row(hash: string, createdAt: int, deactivatedAt: Option<int>)

  type Rows = map<UUID, Row>

  // A cached key. readAt records when the row behind it was read; no step reads it.
  datatype CacheEntry = CacheEntry(apiKey: UUID, expiresAt: Option<int>, readAt: int)

  type Cache = map<string, CacheEntry>

  // SET with a positive duration expires, in whole milliseconds and no less than one;
  // with any other it never does (an assumption about the Redis client).
  function Lifetime(ttlNanos: int): Option<int> {
    if ttlNanos <= 0 then None
    else Some(Max(1, ttlNanos / NANOS_PER_MILLI))
  }

  // ---- The cache and the table, one access at a time ----

  // A key is readable up to the millisecond in which it expires.
  predicate Readable(entry: CacheEntry, now: int) {
    entry.expiresAt.None? || now <= entry.expiresAt.value
  }

  function CacheGet(cache: Cache, hash: string, now: int): Option<CacheEntry> {
    if hash in cache && Readable(cache[hash], now) then Some(cache[hash]) else None
  }

  function CacheSet(cache: Cache, hash: string, apiKey: UUID, readAt: int, now: int, ttlNanos: int): Cache {
    cache[hash := CacheEntry(
            apiKey,
            match Lifetime(ttlNanos) case None => None case Some(ms) => Some(now + ms),
            readAt)]
  }

  function CacheDelete(cache: Cache, hash: string): Cache {
    cache - {hash}
  }

  predicate IsActive(row: Row) {
    row.deactivatedAt.None?
  }

  // The row a query by hash for an active key can return.
  predicate FindsActive(rows: Rows, hash: string, id: UUID) {
    id in rows && rows[id].hash == hash && IsActive(rows[id])
  }

  function Deactivated(row: Row, now: int): Row {
    if IsActive(row) then row.(deactivatedAt := Some(now)) else row
  }

  // ---- Interleaved calls ----

  datatype Phase =
    | Looking(hash: string)                              // about to read the cache
    | Missed(hash: string)                               // about to read the row
    | Holding(hash: string, apiKey: UUID, readAt: int)   // has the row, about to write the cache
    | Deactivating(apiKey: UUID, hash: string)           // about to update the row
    | Deleting(hash: string)                             // about to delete the cache entry
    | Finished

  // A key accepted for a presented hash by a read at a time.
  datatype Acceptance = Acceptance(hash: string, apiKey: UUID, at: int)

  // slowest records the longest gap so far between a caller's row read or insert and its
  // cache write; accepted records every acceptance. No step reads either.
  datatype System = System(
    rows: Rows,
    cache: Cache,
    clock: int,
    calls: map<nat, Phase>,
    slowest: nat,
    accepted: seq<Acceptance>)

  datatype Step =
    | Tick(duration: nat)
    | BeginResolve(call: nat, hash: string)
    | ReadCache(call: nat, fails: bool)
    | ReadRow(call: nat, found: Option<UUID>)
    | WriteCache(call: nat, lost: bool)
    | InsertRow(call: nat, apiKey: UUID, hash: string)
    | BeginDeactivate(call: nat, apiKey: UUID)
    | UpdateRow(call: nat)
    | DeleteCache(call: nat, lost: bool)

  function To(s: System, call: nat, phase: Phase): System {
    s.(calls := s.calls[call := phase])
  }

  predicate In(s: System, call: nat) {
    call in s.calls
  }

  function Accept(s: System, hash: string, apiKey: UUID): System {
    s.(accepted := s.accepted + [Acceptance(hash, apiKey, s.clock)])
  }

  // One step; a step that is not enabled changes nothing. A resolution accepts on a cache
  // hit without looking further, or when it reads an active row; cache writes and deletes
  // may be lost, and a failed cache read counts as a miss.
  function Do(s: System, ttlNanos: int, step: Step): System {
    match step
    case Tick(duration) => s.(clock := s.clock + duration)
    case BeginResolve(call, hash) =>
      if In(s, call) then s else To(s, call, Looking(hash))
    case ReadCache(call, fails) =>
      if In(s, call) && s.calls[call].Looking? then
        var hash := s.calls[call].hash;
        match CacheGet(s.cache, hash, s.clock)
        case Some(entry) =>
          if fails then To(s, call, Missed(hash)) else To(Accept(s, hash, entry.apiKey), call, Finished)
        case None => To(s, call, Missed(hash))
      else s
    case ReadRow(call, found) =>
      if In(s, call) && s.calls[call].Missed? then
        var hash := s.calls[call].hash;
        if found.Some? && FindsActive(s.rows, hash, found.value)
        then To(Accept(s, hash, found.value), call, Holding(hash, found.value, s.clock))
        else if found.None? && forall id :: id in s.rows ==> !FindsActive(s.rows, hash, id)
        then To(s, call, Finished)
        else s
      else s
    case WriteCache(call, lost) =>
      if In(s, call) && s.calls[call].Holding? then
        var h := s.calls[call];
        if lost then To(s, call, Finished)
        else
          To(s, call, Finished).(
            cache := CacheSet(s.cache, h.hash, h.apiKey, h.readAt, s.clock, ttlNanos),
            slowest := Max(s.slowest, s.clock - h.readAt))
      else s
    case InsertRow(call, apiKey, hash) =>
      if In(s, call) || apiKey in s.rows || (exists id :: id in s.rows && s.rows[id].hash == hash) then s
      else To(s, call, Holding(hash, apiKey, s.clock)).(rows := s.rows[apiKey := Row(hash, s.clock, None)])
    case BeginDeactivate(call, apiKey) =>
      if In(s, call) || apiKey !in s.rows then s
      else To(s, call, Deactivating(apiKey, s.rows[apiKey].hash))
    case UpdateRow(call) =>
      if In(s, call) && s.calls[call].Deactivating? && s.calls[call].apiKey in s.rows then
        var id := s.calls[call].apiKey;
        To(s, call, Deleting(s.calls[call].hash)).(rows := s.rows[id := Deactivated(s.rows[id], s.clock)])
      else s
    case DeleteCache(call, lost) =>
      if In(s, call) && s.calls[call].Deleting? then
        To(s, call, Finished).(cache := if lost then s.cache else CacheDelete(s.cache, s.calls[call].hash))
      else s
  }

  const EMPTY: System := System(map[], map[], 0, map[], 0, [])

  function Run(ttlNanos: int, steps: seq<Step>): System {
    if steps == [] then EMPTY
    else Do(Run(ttlNanos, steps[..|steps| - 1]), ttlNanos, steps[|steps| - 1])
  }

  // ---- Bounded staleness ----

  // The row existed and was active at some moment of that millisecond.
  predicate ActiveAt(row: Row, t: int) {
    row.createdAt <= t && (row.deactivatedAt.None? || t <= row.deactivatedAt.value)
  }

  // A read of the row at a time by someone entitled to it.
  predicate WasActive(s: System, hash: string, apiKey: UUID, t: int) {
    t <= s.clock && apiKey in s.rows && s.rows[apiKey].hash == hash && ActiveAt(s.rows[apiKey], t)
  }

  predicate EntrySound(s: System, ttlNanos: int, hash: string, entry: CacheEntry) {
    && WasActive(s, hash, entry.apiKey, entry.readAt)
    && (Lifetime(ttlNanos).Some? ==>
          && entry.expiresAt.Some?
          && entry.expiresAt.value <= entry.readAt + s.slowest + Lifetime(ttlNanos).value)
  }

  ghost predicate AcceptanceSound(s: System, ttlNanos: int, a: Acceptance) {
    && a.at <= s.clock
    && exists t :: t <= a.at && WasActive(s, a.hash, a.apiKey, t)
                && (Lifetime(ttlNanos).Some? ==> t >= a.at - Lifetime(ttlNanos).value - s.slowest)
  }

  ghost predicate Inv(s: System, ttlNanos: int) {
    && (forall id :: id in s.rows ==> s.rows[id].createdAt <= s.clock)
    && (forall hash :: hash in s.cache ==> EntrySound(s, ttlNanos, hash, s.cache[hash]))
    && (forall call :: call in s.calls && s.calls[call].Holding? ==>
          WasActive(s, s.calls[call].hash, s.calls[call].apiKey, s.calls[call].readAt))
    && (forall a :: a in s.accepted ==> AcceptanceSound(s, ttlNanos, a))
  }

  // What was active stays so for the past while rows are added or deactivated now.
  ghost predicate Later(s: System, s': System) {
    && s.clock <= s'.clock && s.slowest <= s'.slowest
    && forall id :: id in s.rows ==>
         && id in s'.rows && s'.rows[id].hash == s.rows[id].hash
         && forall t :: t <= s.clock && ActiveAt(s.rows[id], t) ==> ActiveAt(s'.rows[id], t)
  }

  lemma LaterKeepsPast(s: System, s': System, ttlNanos: int)
    requires Later(s, s')
    ensures forall hash, id, t :: WasActive(s, hash, id, t) ==> WasActive(s', hash, id, t)
    ensures forall hash, e :: EntrySound(s, ttlNanos, hash, e) ==> EntrySound(s', ttlNanos, hash, e)
    ensures forall a :: AcceptanceSound(s, ttlNanos, a) ==> AcceptanceSound(s', ttlNanos, a)
  {
    hide Lifetime;
    forall a | AcceptanceSound(s, ttlNanos, a) ensures AcceptanceSound(s', ttlNanos, a) {
      var t :| t <= a.at && WasActive(s, a.hash, a.apiKey, t)
            && (Lifetime(ttlNanos).Some? ==> t >= a.at - Lifetime(ttlNanos).value - s.slowest);
      assert WasActive(s', a.hash, a.apiKey, t);
    }
  }

  lemma DoIsLater(s: System, ttlNanos: int, step: Step)
    ensures Later(s, Do(s, ttlNanos, step))
  {
    hide Lifetime, CacheGet, CacheSet, CacheDelete;
  }

  lemma AcceptKeepsInv(s: System, ttlNanos: int, hash: string, apiKey: UUID, t: int)
    requires Inv(s, ttlNanos) && WasActive(s, hash, apiKey, t)
    requires Lifetime(ttlNanos).Some? ==> t >= s.clock - Lifetime(ttlNanos).value - s.slowest
    ensures Inv(Accept(s, hash, apiKey), ttlNanos)
  {
    hide Lifetime;
    var s' := Accept(s, hash, apiKey);
    LaterKeepsPast(s, s', ttlNanos);
    assert WasActive(s', hash, apiKey, t);
    assert AcceptanceSound(s', ttlNanos, Acceptance(hash, apiKey, s.clock));
  }

  lemma ToKeepsInv(s: System, ttlNanos: int, call: nat, phase: Phase)
    requires Inv(s, ttlNanos)
    requires phase.Holding? ==> WasActive(s, phase.hash, phase.apiKey, phase.readAt)
    ensures Inv(To(s, call, phase), ttlNanos)
  {
    hide Lifetime;
    LaterKeepsPast(s, To(s, call, phase), ttlNanos);
  }

  lemma LifetimePositive(ttlNanos: int)
    ensures Lifetime(ttlNanos).Some? ==> Lifetime(ttlNanos).value >= 1
  {
  }

  lemma ReadCacheKeepsInv(s: System, ttlNanos: int, call: nat, fails: bool)
    requires Inv(s, ttlNanos)
    ensures Inv(Do(s, ttlNanos, ReadCache(call, fails)), ttlNanos)
  {
    hide Lifetime, Inv;
    if In(s, call) && s.calls[call].Looking? {
      var hash := s.calls[call].hash;
      match CacheGet(s.cache, hash, s.clock)
      case None => ToKeepsInv(s, ttlNanos, call, Missed(hash));
      case Some(entry) =>
        ToKeepsInv(s, ttlNanos, call, Missed(hash));
        HitIsSound(s, ttlNanos, hash);
        AcceptKeepsInv(s, ttlNanos, hash, entry.apiKey, entry.readAt);
        ToKeepsInv(Accept(s, hash, entry.apiKey), ttlNanos, call, Finished);
    }
  }

  lemma HitIsSound(s: System, ttlNanos: int, hash: string)
    requires Inv(s, ttlNanos) && CacheGet(s.cache, hash, s.clock).Some?
    ensures var entry := CacheGet(s.cache, hash, s.clock).value;
            && WasActive(s, hash, entry.apiKey, entry.readAt)
            && (Lifetime(ttlNanos).Some? ==> entry.readAt >= s.clock - Lifetime(ttlNanos).value - s.slowest)
  {
    hide Lifetime;
    assert EntrySound(s, ttlNanos, hash, s.cache[hash]);
  }

  lemma ReadRowKeepsInv(s: System, ttlNanos: int, call: nat, found: Option<UUID>)
    requires Inv(s, ttlNanos)
    ensures Inv(Do(s, ttlNanos, ReadRow(call, found)), ttlNanos)
  {
    hide Lifetime, Inv;
    if In(s, call) && s.calls[call].Missed? {
      var hash := s.calls[call].hash;
      ToKeepsInv(s, ttlNanos, call, Finished);
      if found.Some? && FindsActive(s.rows, hash, found.value) {
        assert WasActive(s, hash, found.value, s.clock) by {
          RowCreatedBefore(s, ttlNanos, found.value);
        }
        LifetimePositive(ttlNanos);
        AcceptKeepsInv(s, ttlNanos, hash, found.value, s.clock);
        ToKeepsInv(Accept(s, hash, found.value), ttlNanos, call, Holding(hash, found.value, s.clock));
      }
    }
  }

  lemma RowCreatedBefore(s: System, ttlNanos: int, id: UUID)
    requires Inv(s, ttlNanos) && id in s.rows
    ensures s.rows[id].createdAt <= s.clock
  {
  }

  lemma WriteCacheKeepsInv(s: System, ttlNanos: int, call: nat, lost: bool)
    requires Inv(s, ttlNanos)
    ensures Inv(Do(s, ttlNanos, WriteCache(call, lost)), ttlNanos)
  {
    hide Lifetime;
    if In(s, call) && s.calls[call].Holding? {
      var h, s' := s.calls[call], Do(s, ttlNanos, WriteCache(call, lost));
      LaterKeepsPast(s, s', ttlNanos);
      assert !lost ==> EntrySound(s', ttlNanos, h.hash, s'.cache[h.hash]);
    }
  }

  lemma OtherStepKeepsInv(s: System, ttlNanos: int, step: Step)
    requires Inv(s, ttlNanos)
    requires !step.ReadCache? && !step.ReadRow? && !step.WriteCache?
    ensures Inv(Do(s, ttlNanos, step), ttlNanos)
  {
    hide Lifetime, EntrySound, AcceptanceSound;
    var s' := Do(s, ttlNanos, step);
    DoIsLater(s, ttlNanos, step);
    LaterKeepsPast(s, s', ttlNanos);
  }

  lemma {:induction false} RunKeepsInv(ttlNanos: int, steps: seq<Step>)
    ensures Inv(Run(ttlNanos, steps), ttlNanos)
  {
    hide Do;
    if steps != [] {
      var before, step := Run(ttlNanos, steps[..|steps| - 1]), steps[|steps| - 1];
      RunKeepsInv(ttlNanos, steps[..|steps| - 1]);
      match step
      case ReadCache(call, fails) => ReadCacheKeepsInv(before, ttlNanos, call, fails);
      case ReadRow(call, found) => ReadRowKeepsInv(before, ttlNanos, call, found);
      case WriteCache(call, lost) => WriteCacheKeepsInv(before, ttlNanos, call, lost);
      case _ => OtherStepKeepsInv(before, ttlNanos, step);
    }
  }

  // In every interleaving, even one that loses every cache delete: an accepted key's row
  // has the presented hash, and was active no longer ago than the cache lifetime and the
  // slowest cache write together.
  lemma BoundedStaleness(ttlNanos: int, steps: seq<Step>, a: Acceptance)
    requires ttlNanos > 0 && a in Run(ttlNanos, steps).accepted
    ensures var s := Run(ttlNanos, steps);
            exists t :: a.at - Max(1, ttlNanos / NANOS_PER_MILLI) - s.slowest <= t <= a.at
                     && WasActive(s, a.hash, a.apiKey, t)
  {
    RunKeepsInv(ttlNanos, steps);
    var s := Run(ttlNanos, steps);
    assert AcceptanceSound(s, ttlNanos, a);
    var t :| t <= a.at && WasActive(s, a.hash, a.apiKey, t)
          && (Lifetime(ttlNanos).Some? ==> t >= a.at - Lifetime(ttlNanos).value - s.slowest);
  }

  // So a deactivated key is accepted for at most that long.
  lemma NoLateAcceptance(ttlNanos: int, steps: seq<Step>, a: Acceptance)
    requires ttlNanos > 0 && a in Run(ttlNanos, steps).accepted
    requires var s := Run(ttlNanos, steps); a.apiKey in s.rows && s.rows[a.apiKey].deactivatedAt.Some?
    ensures var s := Run(ttlNanos, steps);
            a.at <= s.rows[a.apiKey].deactivatedAt.value + Max(1, ttlNanos / NANOS_PER_MILLI) + s.slowest
  {
    hide Run;
    BoundedStaleness(ttlNanos, steps, a);
  }

  // ---- The bound is attained ----

  const KEY: UUID := [0, 0, 0, 0, 0, 0, 0, 0, 0, 0, 0, 0, 0, 0, 0, 7]
  const HASH: string := "7"

  lemma RunAppend(ttlNanos: int, steps: seq<Step>, step: Step)
    ensures Run(ttlNanos, steps + [step]) == Do(Run(ttlNanos, steps), ttlNanos, step)
  {
    hide Do;
    assert (steps + [step])[..|steps|] == steps;
  }

  lemma RunOfNothing(ttlNanos: int)
    ensures Run(ttlNanos, []) == EMPTY
  {
  }

  // A key is created, with its warming write lost.
  lemma Created(ttlNanos: int) returns (steps: seq<Step>)
    ensures Run(ttlNanos, steps) == EMPTY.(rows := map[KEY := Row(HASH, 0, None)], calls := map[0 := Finished])
  {
    hide Run, Lifetime;
    RunOfNothing(ttlNanos);
    RunAppend(ttlNanos, [], InsertRow(0, KEY, HASH));
    steps := [] + [InsertRow(0, KEY, HASH)];
    RunAppend(ttlNanos, steps, WriteCache(0, true));
    steps := steps + [WriteCache(0, true)];
  }

  // An uninterrupted resolution that misses the cache, up to its row read.
  lemma MissAndRead(ttlNanos: int, before: seq<Step>, call: nat, hash: string, id: UUID) returns (steps: seq<Step>)
    requires var s := Run(ttlNanos, before);
             call !in s.calls && CacheGet(s.cache, hash, s.clock).None? && FindsActive(s.rows, hash, id)
    ensures var s := Run(ttlNanos, before);
            Run(ttlNanos, steps)
            == To(Accept(s, hash, id), call, Holding(hash, id, s.clock))
  {
    hide Run, Lifetime, CacheGet;
    RunAppend(ttlNanos, before, BeginResolve(call, hash));
    steps := before + [BeginResolve(call, hash)];
    RunAppend(ttlNanos, steps, ReadCache(call, false));
    steps := steps + [ReadCache(call, false)];
    RunAppend(ttlNanos, steps, ReadRow(call, Some(id)));
    steps := steps + [ReadRow(call, Some(id))];
  }

  // An uninterrupted resolution that hits the cache.
  lemma Hit(ttlNanos: int, before: seq<Step>, call: nat, hash: string) returns (steps: seq<Step>)
    requires var s := Run(ttlNanos, before); call !in s.calls && CacheGet(s.cache, hash, s.clock).Some?
    ensures var s := Run(ttlNanos, before);
            Run(ttlNanos, steps)
            == To(Accept(s, hash, CacheGet(s.cache, hash, s.clock).value.apiKey), call, Finished)
  {
    hide Run, Lifetime, CacheGet;
    RunAppend(ttlNanos, before, BeginResolve(call, hash));
    steps := before + [BeginResolve(call, hash)];
    RunAppend(ttlNanos, steps, ReadCache(call, false));
    steps := steps + [ReadCache(call, false)];
  }

  // An uninterrupted deactivation whose cache delete arrives.
  lemma DeactivateNow(ttlNanos: int, before: seq<Step>, call: nat, id: UUID) returns (steps: seq<Step>)
    requires var s := Run(ttlNanos, before); call !in s.calls && id in s.rows
    ensures var s := Run(ttlNanos, before);
            Run(ttlNanos, steps)
            == To(s, call, Finished).(rows := s.rows[id := Deactivated(s.rows[id], s.clock)],
                                      cache := CacheDelete(s.cache, s.rows[id].hash))
  {
    hide Run, Lifetime, Deactivated;
    RunAppend(ttlNanos, before, BeginDeactivate(call, id));
    steps := before + [BeginDeactivate(call, id)];
    RunAppend(ttlNanos, steps, UpdateRow(call));
    steps := steps + [UpdateRow(call)];
    RunAppend(ttlNanos, steps, DeleteCache(call, false));
    steps := steps + [DeleteCache(call, false)];
  }

  // The row's holder writes the cache after a gap, and a wait passes.
  lemma WriteAndWait(ttlNanos: int, before: seq<Step>, call: nat, gap: nat, wait: nat) returns (steps: seq<Step>)
    requires call in Run(ttlNanos, before).calls && Run(ttlNanos, before).calls[call].Holding?
    ensures var s := Run(ttlNanos, before);
            var h := s.calls[call];
            Run(ttlNanos, steps)
            == To(s, call, Finished).(
                 clock := s.clock + gap + wait,
                 cache := CacheSet(s.cache, h.hash, h.apiKey, h.readAt, s.clock + gap, ttlNanos),
                 slowest := Max(s.slowest, s.clock + gap - h.readAt))
  {
    hide Run, Lifetime, CacheSet;
    RunAppend(ttlNanos, before, Tick(gap));
    steps := before + [Tick(gap)];
    RunAppend(ttlNanos, steps, WriteCache(call, false));
    steps := steps + [WriteCache(call, false)];
    RunAppend(ttlNanos, steps, Tick(wait));
    steps := steps + [Tick(wait)];
  }

  // A call reads the row; the key is deactivated and its cache entry deleted; only then
  // does the call write what it read, and another call is accepted by the cache for as
  // long as the entry lives.
  lemma BackfillAfterDeactivation(ttlNanos: int, gap: nat, wait: nat) returns (steps: seq<Step>)
    requires Lifetime(ttlNanos).Some? ==> wait <= Lifetime(ttlNanos).value
    ensures var s := Run(ttlNanos, steps);
            && KEY in s.rows && s.rows[KEY] == Row(HASH, 0, Some(0))
            && s.slowest == gap
            && Acceptance(HASH, KEY, gap + wait) in s.accepted
  {
    hide Run, Lifetime, Do;
    steps := Created(ttlNanos);
    steps := MissAndRead(ttlNanos, steps, 1, HASH, KEY);
    steps := DeactivateNow(ttlNanos, steps, 2, KEY);
    steps := WriteAndWait(ttlNanos, steps, 1, gap, wait);
    steps := Hit(ttlNanos, steps, 3, HASH);
  }

  // For every positive time to live and every gap the bound is attained, with no cache
  // operation lost.
  lemma StalenessBoundIsTight(ttlNanos: int, gap: nat) returns (steps: seq<Step>)
    requires ttlNanos > 0
    ensures var s := Run(ttlNanos, steps);
            && KEY in s.rows && s.rows[KEY].deactivatedAt == Some(0) && s.slowest == gap
            && Acceptance(HASH, KEY, 0 + Max(1, ttlNanos / NANOS_PER_MILLI) + s.slowest) in s.accepted
  {
    hide Run;
    steps := BackfillAfterDeactivation(ttlNanos, gap, Max(1, ttlNanos / NANOS_PER_MILLI));
  }

  // Without a positive time to live there is no bound: a deactivated key can be accepted
  // after any wait, with no slow write and nothing lost.
  lemma NoTimeToLiveNoBound(ttlNanos: int, wait: nat) returns (steps: seq<Step>)
    requires ttlNanos <= 0
    ensures var s := Run(ttlNanos, steps);
            && KEY in s.rows && s.rows[KEY].deactivatedAt == Some(0) && s.slowest == 0
            && Acceptance(HASH, KEY, wait) in s.accepted
  {
    hide Run;
    steps := BackfillAfterDeactivation(ttlNanos, 0, wait);
  }
}
