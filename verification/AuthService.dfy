// The key cache and the key service as objects. A call's steps are those of AuthCache,
// with time passing between the row access and the cache write.
module AuthService {
  import opened Arithmetic
  import opened Wrappers
  import opened Scopes
  import opened Text
  import opened AuthCache

  datatype AuthError = APIKeyNotFound | InvalidAPIKeyName | InvalidRawAPIKey | WriteRefused

  class APIKeyAuthCache {
    var entries: Cache
    const ttlNanos: int

    constructor (ttlNanos: int)
      ensures entries == map[] && this.ttlNanos == ttlNanos
    {
      this.ttlNanos := ttlNanos;
      entries := map[];
    }

    method GetByHash(hash: string, now: int) returns (found: Option<CacheEntry>)
      ensures found == CacheGet(entries, hash, now)
    {
      if hash in entries && Readable(entries[hash], now) {
        return Some(entries[hash]);
      }
      return None;
    }

    method SetByHash(hash: string, apiKey: UUID, readAt: int, now: int, lost: bool) returns (ok: bool)
      modifies this
      ensures ok == !lost
      ensures entries == if lost then old(entries) else CacheSet(old(entries), hash, apiKey, readAt, now, ttlNanos)
      ensures !lost ==>
                forall t :: if ttlNanos <= 0 || t <= now + Max(1, ttlNanos / NANOS_PER_MILLI)
                            then CacheGet(entries, hash, t).Some? && CacheGet(entries, hash, t).value.apiKey == apiKey
                            else CacheGet(entries, hash, t).None?
      ensures forall other, t :: other != hash || lost ==>
                CacheGet(entries, other, t) == CacheGet(old(entries), other, t)
    {
      if !lost {
        entries := CacheSet(entries, hash, apiKey, readAt, now, ttlNanos);
      }
      return !lost;
    }

    method DeleteByHash(hash: string, lost: bool) returns (ok: bool)
      modifies this
      ensures ok == !lost
      ensures entries == if lost then old(entries) else CacheDelete(old(entries), hash)
      ensures !lost ==> forall t :: CacheGet(entries, hash, t).None?
      ensures forall other, t :: other != hash || lost ==>
                CacheGet(entries, other, t) == CacheGet(old(entries), other, t)
    {
      if !lost {
        entries := entries - {hash};
      }
      return !lost;
    }
  }

  // ---- Other calls' steps ----

  function DoAll(s: System, ttlNanos: int, steps: seq<Step>): System {
    if steps == [] then s
    else Do(DoAll(s, ttlNanos, steps[..|steps| - 1]), ttlNanos, steps[|steps| - 1])
  }

  lemma {:induction false} RunConcat(ttlNanos: int, steps: seq<Step>, more: seq<Step>)
    ensures Run(ttlNanos, steps + more) == DoAll(Run(ttlNanos, steps), ttlNanos, more)
  {
    hide Do;
    if more == [] {
      assert steps + more == steps;
    } else {
      RunConcat(ttlNanos, steps, more[..|more| - 1]);
      assert (steps + more)[..|steps + more| - 1] == steps + more[..|more| - 1];
    }
  }

  // No step that the given call takes itself.
  predicate ByOthers(steps: seq<Step>, call: nat) {
    forall step :: step in steps && !step.Tick? ==> step.call != call
  }

  // Whatever happens, time passes forward, rows stay with their hashes, deactivation is
  // never undone, and what was accepted was accepted.
  ghost predicate Grown(s: System, s': System) {
    && s.clock <= s'.clock && s.accepted <= s'.accepted
    && forall id :: id in s.rows ==>
         && id in s'.rows && s'.rows[id].hash == s.rows[id].hash && s'.rows[id].createdAt == s.rows[id].createdAt
         && (!IsActive(s.rows[id]) ==> s'.rows[id] == s.rows[id])
  }

  lemma DoGrows(s: System, ttlNanos: int, step: Step)
    ensures Grown(s, Do(s, ttlNanos, step))
  {
    hide CacheGet, CacheSet, CacheDelete;
  }

  lemma DoLeavesOthers(s: System, ttlNanos: int, step: Step, call: nat)
    requires !step.Tick? ==> step.call != call
    ensures var s' := Do(s, ttlNanos, step);
            (call in s'.calls <==> call in s.calls) && (call in s.calls ==> s'.calls[call] == s.calls[call])
  {
    hide CacheGet, CacheSet, CacheDelete, FindsActive;
  }

  lemma {:induction false} OthersLeaveCall(s: System, ttlNanos: int, steps: seq<Step>, call: nat)
    requires ByOthers(steps, call)
    ensures var s' := DoAll(s, ttlNanos, steps);
            && (call in s'.calls <==> call in s.calls) && (call in s.calls ==> s'.calls[call] == s.calls[call])
            && Grown(s, s')
  {
    hide Do;
    if steps != [] {
      var n := |steps| - 1;
      OthersLeaveCall(s, ttlNanos, steps[..n], call);
      assert steps[n] in steps;
      DoGrows(DoAll(s, ttlNanos, steps[..n]), ttlNanos, steps[n]);
      DoLeavesOthers(DoAll(s, ttlNanos, steps[..n]), ttlNanos, steps[n], call);
    }
  }

  // ---- The call's own steps ----

  predicate HashTaken(rows: Rows, hash: string) {
    exists id :: id in rows && rows[id].hash == hash
  }

  lemma InsertDone(s: System, ttlNanos: int, call: nat, id: UUID, hash: string)
    requires call !in s.calls && id !in s.rows && !HashTaken(s.rows, hash)
    ensures Do(s, ttlNanos, InsertRow(call, id, hash))
         == s.(calls := s.calls[call := Holding(hash, id, s.clock)], rows := s.rows[id := Row(hash, s.clock, None)])
  {
  }

  lemma WriteDone(s: System, ttlNanos: int, call: nat, lost: bool)
    requires call in s.calls && s.calls[call].Holding?
    ensures var h := s.calls[call];
            Do(s, ttlNanos, WriteCache(call, lost))
            == s.(calls := s.calls[call := Finished],
                  cache := if lost then s.cache
                           else CacheSet(s.cache, h.hash, h.apiKey, h.readAt, s.clock, ttlNanos),
                  slowest := if lost then s.slowest else Max(s.slowest, s.clock - h.readAt))
  {
    hide CacheSet;
  }

  lemma BeginDeactivateDone(s: System, ttlNanos: int, call: nat, id: UUID)
    requires call !in s.calls && id in s.rows
    ensures Do(s, ttlNanos, BeginDeactivate(call, id))
         == s.(calls := s.calls[call := Deactivating(id, s.rows[id].hash)])
  {
  }

  lemma UpdateDone(s: System, ttlNanos: int, call: nat)
    requires call in s.calls && s.calls[call].Deactivating? && s.calls[call].apiKey in s.rows
    ensures var id := s.calls[call].apiKey;
            Do(s, ttlNanos, UpdateRow(call))
            == s.(calls := s.calls[call := Deleting(s.calls[call].hash)],
                  rows := s.rows[id := Deactivated(s.rows[id], s.clock)])
  {
    hide Deactivated;
  }

  lemma DeleteDone(s: System, ttlNanos: int, call: nat, lost: bool)
    requires call in s.calls && s.calls[call].Deleting?
    ensures Do(s, ttlNanos, DeleteCache(call, lost))
         == s.(calls := s.calls[call := Finished],
               cache := if lost then s.cache else CacheDelete(s.cache, s.calls[call].hash))
  {
    hide CacheDelete;
  }

  lemma BeginResolveDone(s: System, ttlNanos: int, call: nat, hash: string)
    requires call !in s.calls
    ensures Do(s, ttlNanos, BeginResolve(call, hash)) == s.(calls := s.calls[call := Looking(hash)])
  {
  }

  lemma ReadCacheDone(s: System, ttlNanos: int, call: nat, fails: bool)
    requires call in s.calls && s.calls[call].Looking?
    ensures var hash := s.calls[call].hash;
            var hit := CacheGet(s.cache, hash, s.clock);
            Do(s, ttlNanos, ReadCache(call, fails))
            == if hit.Some? && !fails
               then s.(calls := s.calls[call := Finished],
                       accepted := s.accepted + [Acceptance(hash, hit.value.apiKey, s.clock)])
               else s.(calls := s.calls[call := Missed(hash)])
  {
    hide CacheGet;
  }

  lemma ReadRowDone(s: System, ttlNanos: int, call: nat, found: Option<UUID>)
    requires call in s.calls && s.calls[call].Missed?
    requires match found
             case Some(id) => FindsActive(s.rows, s.calls[call].hash, id)
             case None => forall id :: id in s.rows ==> !FindsActive(s.rows, s.calls[call].hash, id)
    ensures var hash := s.calls[call].hash;
            Do(s, ttlNanos, ReadRow(call, found))
            == match found
               case Some(id) => s.(calls := s.calls[call := Holding(hash, id, s.clock)],
                                   accepted := s.accepted + [Acceptance(hash, id, s.clock)])
               case None => s.(calls := s.calls[call := Finished])
  {
    hide FindsActive;
  }

  lemma StillAccepted(before: seq<Acceptance>, after: seq<Acceptance>)
    requires before <= after
    ensures forall a :: a in before ==> a in after
  {
    assert after == before + after[|before|..];
  }

  // Every state of the service is that of a run of AuthCache, in which each of its methods
  // is one call among the others' steps: the sequences of steps given to it are what the
  // others do, and what time does, before each of its accesses to the table and the cache.
  class APIKeyService {
    var rows: Rows
    var clock: int
    var calls: map<nat, Phase>
    var slowest: nat
    var accepted: seq<Acceptance>
    const cache: APIKeyAuthCache
    const hashOf: string -> string
    ghost var steps: seq<Step>

    function State(): System
      reads this, cache
    {
      System(rows, cache.entries, clock, calls, slowest, accepted)
    }

    ghost predicate Valid()
      reads this, cache
    {
      State() == Run(cache.ttlNanos, steps)
    }

    constructor (cache: APIKeyAuthCache, hashOf: string -> string)
      requires cache.entries == map[]
      ensures Valid() && steps == [] && this.cache == cache && this.hashOf == hashOf
    {
      rows, clock, calls, slowest, accepted := map[], 0, map[], 0, [];
      this.cache := cache;
      this.hashOf := hashOf;
      steps := [];
    }

    // A reader now would find this key.
    predicate Cached(hash: string, id: UUID)
      reads this, cache
    {
      CacheGet(cache.entries, hash, clock).Some? && CacheGet(cache.entries, hash, clock).value.apiKey == id
    }

    // The others' turn while a call is in flight.
    method Yield(call: nat, es: seq<Step>)
      requires Valid() && ByOthers(es, call)
      modifies this, cache
      ensures Valid() && steps == old(steps) + es
      ensures call in calls <==> call in old(calls)
      ensures call in calls ==> calls[call] == old(calls)[call]
      ensures Grown(old(State()), State())
    {
      hide Do, ByOthers;
      OthersLeaveCall(State(), cache.ttlNanos, es, call);
      RunConcat(cache.ttlNanos, steps, es);
      var s := DoAll(State(), cache.ttlNanos, es);
      rows, clock, calls, slowest, accepted := s.rows, s.clock, s.calls, s.slowest, s.accepted;
      cache.entries := s.cache;
      steps := steps + es;
    }

    // The cache write that ends a creation or a resolution; a lost one fails neither.
    method Backfill(call: nat, hash: string, id: UUID, readAt: int, lost: bool)
      requires Valid() && call in calls && calls[call] == Holding(hash, id, readAt)
      modifies this, cache
      ensures Valid() && steps == old(steps) + [WriteCache(call, lost)]
      ensures Grown(old(State()), State())
      ensures if lost then cache.entries == old(cache.entries) else Cached(hash, id)
    {
      hide Do, Run;
      WriteDone(State(), cache.ttlNanos, call, lost);
      RunAppend(cache.ttlNanos, steps, WriteCache(call, lost));
      var ok := cache.SetByHash(hash, id, readAt, clock, lost);
      if ok {
        slowest := Max(slowest, clock - readAt);
      }
      calls := calls[call := Finished];
      steps := steps + [WriteCache(call, lost)];
    }

    // The raw key and the id are the generator's and the database's choice.
    method Create(name: string, rawKey: string, id: UUID, call: nat, t0: seq<Step>, t1: seq<Step>, lost: bool)
      returns (r: Result<UUID, AuthError>)
      requires Valid() && call !in calls && ByOthers(t0, call) && ByOthers(t1, call)
      modifies this, cache
      ensures Valid()
      ensures TrimSpace(name) == "" ==> r == Err(InvalidAPIKeyName) && steps == old(steps)
      ensures TrimSpace(name) != "" ==>
                var before := Run(cache.ttlNanos, old(steps) + t0);
                if id in before.rows || HashTaken(before.rows, hashOf(rawKey)) then
                  r == Err(WriteRefused) && steps == old(steps) + t0
                else
                  && r == Ok(id)
                  && steps == old(steps) + t0 + [InsertRow(call, id, hashOf(rawKey))] + t1 + [WriteCache(call, lost)]
                  && id in rows && rows[id].hash == hashOf(rawKey)
                  && before.clock == rows[id].createdAt
                  && (!lost ==> Cached(hashOf(rawKey), id))
    {
      hide TrimSpace, Do, Run, ByOthers, HashTaken;
      if TrimSpace(name) == "" {
        return Err(InvalidAPIKeyName);
      }
      var keyHash := hashOf(rawKey);
      Yield(call, t0);
      if id in rows || HashTaken(rows, keyHash) {
        return Err(WriteRefused);
      }
      InsertDone(State(), cache.ttlNanos, call, id, keyHash);
      RunAppend(cache.ttlNanos, steps, InsertRow(call, id, keyHash));
      var createdAt := clock;
      rows := rows[id := Row(keyHash, createdAt, None)];
      calls := calls[call := Holding(keyHash, id, createdAt)];
      steps := steps + [InsertRow(call, id, keyHash)];
      Yield(call, t1);
      Backfill(call, keyHash, id, createdAt, lost);
      return Ok(id);
    }

    method Deactivate(id: UUID, call: nat, t0: seq<Step>, t1: seq<Step>, t2: seq<Step>, lost: bool)
      returns (r: Result<UUID, AuthError>)
      requires Valid() && call !in calls && ByOthers(t0, call) && ByOthers(t1, call) && ByOthers(t2, call)
      modifies this, cache
      ensures Valid()
      ensures if id in Run(cache.ttlNanos, old(steps) + t0).rows then
                && r == Ok(id)
                && steps == old(steps) + t0 + [BeginDeactivate(call, id)] + t1 + [UpdateRow(call)]
                            + t2 + [DeleteCache(call, lost)]
                && id in rows && rows[id].deactivatedAt.Some?
                && var was := Run(cache.ttlNanos, old(steps) + t0 + [BeginDeactivate(call, id)] + t1);
                && id in was.rows
                && rows[id].deactivatedAt
                   == (if was.rows[id].deactivatedAt.None? then Some(was.clock) else was.rows[id].deactivatedAt)
                && rows[id] == was.rows[id].(deactivatedAt := rows[id].deactivatedAt)
                && (!lost ==> rows[id].hash !in cache.entries)
              else
                r == Err(APIKeyNotFound) && steps == old(steps) + t0
    {
      hide Do, Run, ByOthers;
      Yield(call, t0);
      if id !in rows {
        return Err(APIKeyNotFound);
      }
      var existing := rows[id];
      BeginDeactivateDone(State(), cache.ttlNanos, call, id);
      RunAppend(cache.ttlNanos, steps, BeginDeactivate(call, id));
      calls := calls[call := Deactivating(id, existing.hash)];
      steps := steps + [BeginDeactivate(call, id)];

      Yield(call, t1);
      UpdateDone(State(), cache.ttlNanos, call);
      RunAppend(cache.ttlNanos, steps, UpdateRow(call));
      rows := rows[id := Deactivated(rows[id], clock)];
      calls := calls[call := Deleting(existing.hash)];
      steps := steps + [UpdateRow(call)];

      Yield(call, t2);
      DeleteDone(State(), cache.ttlNanos, call, lost);
      RunAppend(cache.ttlNanos, steps, DeleteCache(call, lost));
      var _ := cache.DeleteByHash(existing.hash, lost);
      calls := calls[call := Finished];
      steps := steps + [DeleteCache(call, lost)];
      return Ok(id);
    }

    // The cache read of a resolution; a failed one counts as a miss.
    method ReadCached(call: nat, hash: string, fails: bool) returns (hit: Option<UUID>)
      requires Valid() && call in calls && calls[call] == Looking(hash)
      modifies this
      ensures Valid() && steps == old(steps) + [ReadCache(call, fails)] && clock == old(clock)
      ensures var found := CacheGet(old(State()).cache, hash, clock);
              if found.Some? && !fails then
                hit == Some(found.value.apiKey) && accepted == old(accepted) + [Acceptance(hash, hit.value, clock)]
              else
                hit == None && accepted == old(accepted) && call in calls && calls[call] == Missed(hash)
    {
      hide Do, Run, CacheGet;
      ReadCacheDone(State(), cache.ttlNanos, call, fails);
      RunAppend(cache.ttlNanos, steps, ReadCache(call, fails));
      var cached := cache.GetByHash(hash, clock);
      steps := steps + [ReadCache(call, fails)];
      if cached.Some? && !fails {
        accepted := accepted + [Acceptance(hash, cached.value.apiKey, clock)];
        calls := calls[call := Finished];
        return Some(cached.value.apiKey);
      }
      calls := calls[call := Missed(hash)];
      return None;
    }

    // The query for an active row of a hash.
    method QueryRow(call: nat, hash: string) returns (found: Option<UUID>)
      requires Valid() && call in calls && calls[call] == Missed(hash)
      modifies this
      ensures Valid() && steps == old(steps) + [ReadRow(call, found)] && clock == old(clock)
      ensures match found
              case Some(id) =>
                && FindsActive(old(rows), hash, id)
                && accepted == old(accepted) + [Acceptance(hash, id, clock)]
                && call in calls && calls[call] == Holding(hash, id, clock)
              case None =>
                && (forall id :: id in old(rows) ==> !FindsActive(old(rows), hash, id))
                && accepted == old(accepted)
    {
      hide Do, Run, FindsActive;
      if exists id :: id in rows && FindsActive(rows, hash, id) {
        var id :| id in rows && FindsActive(rows, hash, id);
        found := Some(id);
      } else {
        assert forall id :: id in rows ==> !FindsActive(rows, hash, id);
        found := None;
      }
      ReadRowDone(State(), cache.ttlNanos, call, found);
      RunAppend(cache.ttlNanos, steps, ReadRow(call, found));
      if found.Some? {
        accepted := accepted + [Acceptance(hash, found.value, clock)];
        calls := calls[call := Holding(hash, found.value, clock)];
      } else {
        calls := calls[call := Finished];
      }
      steps := steps + [ReadRow(call, found)];
    }

    // The way through the table, with its backfill of the cache.
    method ResolveFromTable(call: nat, hash: string, t1: seq<Step>, t2: seq<Step>, lost: bool)
      returns (found: Option<UUID>)
      requires Valid() && call in calls && calls[call] == Missed(hash) && ByOthers(t1, call) && ByOthers(t2, call)
      modifies this, cache
      ensures Valid()
      ensures var rowsThen := Run(cache.ttlNanos, old(steps) + t1).rows;
              match found
              case Some(id) =>
                && FindsActive(rowsThen, hash, id)
                && steps == old(steps) + t1 + [ReadRow(call, Some(id))] + t2 + [WriteCache(call, lost)]
                && (!lost ==> Cached(hash, id))
                && exists at :: old(clock) <= at <= clock && Acceptance(hash, id, at) in accepted
              case None =>
                && (forall id :: id in rowsThen ==> !FindsActive(rowsThen, hash, id))
                && steps == old(steps) + t1 + [ReadRow(call, None)]
    {
      hide Do, Run, ByOthers, FindsActive;
      Yield(call, t1);
      found := QueryRow(call, hash);
      if found.None? {
        return;
      }
      var readAt := clock;
      ghost var acceptedThen := accepted;
      Yield(call, t2);
      Backfill(call, hash, found.value, readAt, lost);
      StillAccepted(acceptedThen, accepted);
      assert Acceptance(hash, found.value, readAt) in accepted;
    }

    // A cache hit is returned as it is; a miss or a failed read goes to the table. Whatever
    // the others do, a key that is returned was active no longer ago than the lifetime and
    // the slowest cache write together.
    method ResolveActiveByRawKey(rawKey: string, call: nat, t0: seq<Step>, t1: seq<Step>, t2: seq<Step>,
                                 fails: bool, lost: bool)
      returns (r: Result<UUID, AuthError>)
      requires Valid() && call !in calls && ByOthers(t0, call) && ByOthers(t1, call) && ByOthers(t2, call)
      modifies this, cache
      ensures Valid()
      ensures TrimSpace(rawKey) == "" ==> r == Err(InvalidRawAPIKey) && steps == old(steps)
      ensures TrimSpace(rawKey) != "" ==>
                var hash := hashOf(TrimSpace(rawKey));
                var looking := old(steps) + [BeginResolve(call, hash)] + t0;
                var hit := CacheGet(Run(cache.ttlNanos, looking).cache, hash, Run(cache.ttlNanos, looking).clock);
                var looked := looking + [ReadCache(call, fails)];
                if hit.Some? && !fails then
                  r == Ok(hit.value.apiKey) && steps == looked
                else
                  var rowsThen := Run(cache.ttlNanos, looked + t1).rows;
                  match r
                  case Ok(id) =>
                    && FindsActive(rowsThen, hash, id)
                    && steps == looked + t1 + [ReadRow(call, Some(id))] + t2 + [WriteCache(call, lost)]
                    && (!lost ==> Cached(hash, id))
                  case Err(error) =>
                    && error == APIKeyNotFound
                    && (forall id :: id in rowsThen ==> !FindsActive(rowsThen, hash, id))
                    && steps == looked + t1 + [ReadRow(call, None)]
      ensures r.Ok? && cache.ttlNanos > 0 ==>
                exists at, t ::
                  && old(clock) <= at <= clock
                  && at - Max(1, cache.ttlNanos / NANOS_PER_MILLI) - slowest <= t <= at
                  && Acceptance(hashOf(TrimSpace(rawKey)), r.value, at) in accepted
                  && WasActive(State(), hashOf(TrimSpace(rawKey)), r.value, t)
    {
      hide TrimSpace, Do, Run, ByOthers, CacheGet, FindsActive, WasActive;
      var key := TrimSpace(rawKey);
      if key == "" {
        return Err(InvalidRawAPIKey);
      }
      var keyHash := hashOf(key);
      BeginResolveDone(State(), cache.ttlNanos, call, keyHash);
      RunAppend(cache.ttlNanos, steps, BeginResolve(call, keyHash));
      calls := calls[call := Looking(keyHash)];
      steps := steps + [BeginResolve(call, keyHash)];

      Yield(call, t0);
      var hit := ReadCached(call, keyHash, fails);
      if hit.Some? {
        Fresh(Acceptance(keyHash, hit.value, clock));
        return Ok(hit.value);
      }

      ghost var missedAt := clock;
      var found := ResolveFromTable(call, keyHash, t1, t2, lost);
      if found.None? {
        return Err(APIKeyNotFound);
      }
      ghost var at :| missedAt <= at <= clock && Acceptance(keyHash, found.value, at) in accepted;
      Fresh(Acceptance(keyHash, found.value, at));
      return Ok(found.value);
    }

    // What was accepted was active recently.
    lemma Fresh(a: Acceptance)
      requires Valid() && a in accepted
      ensures cache.ttlNanos > 0 ==>
                exists t :: a.at - Max(1, cache.ttlNanos / NANOS_PER_MILLI) - slowest <= t <= a.at
                         && WasActive(State(), a.hash, a.apiKey, t)
    {
      hide Run, WasActive;
      if cache.ttlNanos > 0 {
        BoundedStaleness(cache.ttlNanos, steps, a);
      }
    }
  }
}
