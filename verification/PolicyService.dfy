// The projection store and the policy service as objects: each call writes the table and
// then the projection, as the step functions of PolicyTable say.
module PolicyService {
  import opened Wrappers
  import opened Scopes
  import opened Text
  import opened PolicyTable
  import opened PolicyAgreement

  // SCAN returns every key that is present throughout, in batches, perhaps repeatedly
  // (an assumption about Redis).
  ghost predicate ScanFinds(entries: Projection, batches: seq<seq<string>>) {
    forall key :: key in entries ==> exists i :: 0 <= i < |batches| && key in batches[i]
  }

  lemma ScanLeavesNothing(entries: Projection, batches: seq<seq<string>>, keys: seq<string>)
    requires ScanFinds(entries, batches)
    requires forall key :: key in keys <==> exists i :: 0 <= i < |batches| && key in batches[i]
    ensures entries - (set key | key in keys) == map[]
    ensures keys == [] ==> entries == map[]
  {
    forall key | key in entries ensures key in keys {
      var i :| 0 <= i < |batches| && key in batches[i];
    }
    assert (entries - (set key | key in keys)).Keys == {};
    assert keys == [] ==> entries.Keys == {};
  }

  lemma OneMoreItem(items: seq<Policy>, i: nat)
    requires i < |items|
    ensures PolicyTable.ReplacePolicies(items[..i + 1])
         == PolicyTable.ReplacePolicies(items[..i])[PolicyKey(items[i].scope) := items[i]]
  {
    hide PolicyKey;
    assert items[..i + 1][..i] == items[..i];
  }

  lemma NothingToReplace(items: seq<Policy>)
    requires items == []
    ensures PolicyTable.ReplacePolicies(items) == map[]
  {
  }

  class PolicyProjectionStore {
    var entries: Projection

    constructor ()
      ensures entries == map[]
    {
      entries := map[];
    }

    method SyncPolicy(previous: Option<Policy>, current: Policy, redisUp: bool) returns (ok: bool)
      modifies this
      ensures ok == redisUp
      ensures entries == if ok then PolicyTable.SyncPolicy(old(entries), previous, current) else old(entries)
      ensures ok ==>
                var now := PolicyKey(current.scope);
                var was := if previous.Some? then PolicyKey(previous.value.scope) else now;
                && now in entries && entries[now] == current
                && (was != now ==> was !in entries)
                && entries - {was, now} == old(entries) - {was, now}
    {
      if !redisUp {
        return false;
      }
      var currentKey := PolicyKey(current.scope);
      entries := entries[currentKey := current];
      if previous.Some? {
        var previousKey := PolicyKey(previous.value.scope);
        if previousKey != currentKey {
          entries := entries - {previousKey};
        }
      }
      return true;
    }

    method RemovePolicy(policy: Policy, redisUp: bool) returns (ok: bool)
      modifies this
      ensures ok == redisUp
      ensures entries == if ok then PolicyTable.RemovePolicy(old(entries), policy) else old(entries)
      ensures ok ==> entries == old(entries) - {PolicyKey(policy.scope)}
    {
      if redisUp {
        entries := entries - {PolicyKey(policy.scope)};
      }
      return redisUp;
    }

    method ProjectionKeys(batches: seq<seq<string>>) returns (keys: seq<string>)
      ensures forall key :: key in keys <==> exists i :: 0 <= i < |batches| && key in batches[i]
    {
      keys := [];
      var cursor := 0;
      while cursor < |batches|
        invariant cursor <= |batches|
        invariant forall key :: key in keys <==> exists i :: 0 <= i < cursor && key in batches[i]
      {
        keys := keys + batches[cursor];
        cursor := cursor + 1;
      }
    }

    method ReplacePolicies(items: seq<Policy>, batches: seq<seq<string>>, redisUp: bool) returns (ok: bool)
      requires ScanFinds(entries, batches)
      modifies this
      ensures ok == redisUp
      ensures entries == if ok then PolicyTable.ReplacePolicies(items) else old(entries)
    {
      if !redisUp {
        return false;
      }
      hide PolicyKey, PolicyTable.ReplacePolicies, ScanFinds;
      var keys := ProjectionKeys(batches);
      ScanLeavesNothing(entries, batches, keys);
      if |keys| == 0 && |items| == 0 {
        NothingToReplace(items);
        return true;
      }
      entries := entries - (set key | key in keys);
      NothingToReplace(items[..0]);
      for i := 0 to |items|
        invariant entries == PolicyTable.ReplacePolicies(items[..i])
      {
        entries := entries[PolicyKey(items[i].scope) := items[i]];
        OneMoreItem(items, i);
      }
      assert items[..|items|] == items;
      return true;
    }

    method GetProjectedPolicy(scope: Scope) returns (found: Option<Policy>)
      ensures found == Lookup(entries, scope)
    {
      var key := PolicyKey(scope);
      if key in entries {
        return Some(entries[key]);
      }
      return None;
    }
  }

  function Lookup(entries: Projection, scope: Scope): Option<Policy> {
    if PolicyKey(scope) in entries then Some(entries[PolicyKey(scope)]) else None
  }

  class PolicyService {
    var table: Table
    var apiKeys: set<UUID>
    const projector: PolicyProjectionStore

    function State(): System
      reads this, projector
    {
      System(table, apiKeys, projector.entries)
    }

    constructor (projector: PolicyProjectionStore)
      requires projector.entries == map[]
      ensures this.projector == projector && State() == EMPTY
    {
      this.projector := projector;
      table, apiKeys := map[], {};
    }

    method Create(newId: UUID, input: PolicyInput, redisUp: bool) returns (r: Result<Policy, PolicyError>)
      modifies this, projector
      ensures (State(), r) == CreateStep(old(State()), newId, input, redisUp)
      ensures State() == Do(old(State()), Op.Create(newId, input, redisUp))
    {
      hide KeyFromParts, TrimSpace, ValidScope, ScopeTaken;
      var validated := ValidateCreateInput(input);
      if validated.Err? {
        return Err(validated.error);
      }
      if newId in table {
        return Err(PolicyConflict);
      }
      var policy := Row(newId, validated.value, true);
      var written := WriteRow(table, apiKeys, policy);
      if written.Err? {
        return Err(written.error);
      }
      table := written.value;
      var ok := projector.SyncPolicy(None, policy, redisUp);
      if !ok {
        return Err(ProjectionUnavailable);
      }
      return Ok(policy);
    }

    method Update(id: UUID, input: PolicyInput, redisUp: bool) returns (r: Result<Policy, PolicyError>)
      modifies this, projector
      ensures (State(), r) == UpdateStep(old(State()), id, input, redisUp)
      ensures State() == Do(old(State()), Op.Update(id, input, redisUp))
    {
      hide KeyFromParts, TrimSpace, ValidScope, ScopeTaken;
      if id !in table {
        return Err(PolicyNotFound);
      }
      var existing := table[id];
      var validated := ValidateCreateInput(input);
      if validated.Err? {
        return Err(validated.error);
      }
      var policy := Row(id, validated.value, existing.isActive);
      var written := WriteRow(table, apiKeys, policy);
      if written.Err? {
        return Err(written.error);
      }
      table := written.value;
      var ok := projector.SyncPolicy(Some(existing), policy, redisUp);
      if !ok {
        return Err(ProjectionUnavailable);
      }
      return Ok(policy);
    }

    method Deactivate(id: UUID, redisUp: bool) returns (r: Result<Policy, PolicyError>)
      modifies this, projector
      ensures (State(), r) == DeactivateStep(old(State()), id, redisUp)
      ensures State() == Do(old(State()), Op.Deactivate(id, redisUp))
    {
      hide KeyFromParts;
      if id !in table {
        return Err(PolicyNotFound);
      }
      var policy := table[id].(isActive := false);
      table := table[id := policy];
      var ok := projector.RemovePolicy(policy, redisUp);
      if !ok {
        return Err(ProjectionUnavailable);
      }
      return Ok(policy);
    }

    // The records are the database's answer, in its order. Whatever the projection held,
    // it now holds exactly the active rows.
    method RebuildProjection(records: seq<Policy>, batches: seq<seq<string>>, redisUp: bool) returns (ok: bool)
      requires ListsActive(table, records)
      requires ScanFinds(projector.entries, batches)
      modifies this, projector
      ensures ok == redisUp
      ensures State() == Do(old(State()), Rebuild(records, redisUp))
      ensures old(TableSound(State())) && ok ==> Agrees(table, projector.entries)
      ensures table == old(table) && (!ok ==> projector.entries == old(projector.entries))
    {
      hide KeyFromParts, ListsActive, TableSound, Agrees;
      var activePolicies := [];
      for i := 0 to |records|
        invariant activePolicies == records[..i]
        invariant State() == old(State())
      {
        activePolicies := activePolicies + [records[i]];
      }
      assert activePolicies == records;
      ghost var before := State();
      ok := projector.ReplacePolicies(activePolicies, batches, redisUp);
      if ok && TableSound(before) {
        RebuildEstablishesAgreement(before, records);
      }
    }
  }
}
