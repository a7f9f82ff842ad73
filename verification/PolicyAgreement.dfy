// When the Redis projection is exactly the active part of the policy table.
module PolicyAgreement {
  import opened Wrappers
  import opened Scopes
  import opened Text
  import opened PolicyTable

  // ---- The table's own invariant ----

  ghost predicate OneActivePerScope(table: Table) {
    forall a, b ::
      a in table && b in table && table[a].isActive && table[b].isActive && table[a].scope == table[b].scope
      ==> a == b
  }

  predicate RowsValid(table: Table) {
    forall id :: id in table ==> table[id].id == id && ValidScope(table[id].scope)
  }

  predicate RowSound(row: Policy, apiKeys: set<UUID>) {
    && row.capacity > 0 && row.refillTokens > 0 && row.refillIntervalSeconds > 0
    && (row.scope.identifier.Some? ==> row.scope.identifier.value in apiKeys)
  }

  // Rows are under their ids, have a valid scope that names an existing key if any,
  // positive amounts, and at most one of them is active for a scope.
  ghost predicate TableSound(s: System) {
    && OneActivePerScope(s.table)
    && RowsValid(s.table)
    && forall id :: id in s.table ==> RowSound(s.table[id], s.apiKeys)
  }

  lemma WriteKeepsTableSound(s: System, s': System, row: Policy)
    requires TableSound(s) && ValidScope(row.scope) && !ScopeTaken(s.table, row)
    requires s'.table == s.table[row.id := row] && s'.apiKeys == s.apiKeys
    requires RowSound(row, s.apiKeys)
    ensures TableSound(s')
  {
    hide ValidScope, RowSound;
  }

  lemma DoKeepsTableSound(s: System, op: Op)
    requires TableSound(s)
    ensures TableSound(Do(s, op))
  {
    hide TableSound, ScopeTaken, ValidScope, TrimSpace, SyncPolicy, RemovePolicy;
    var s' := Do(s, op);
    match op
    case KeyCreated(_) => MoreKeys(s, s');
    case Create(newId, input, _) =>
      if s'.table != s.table {
        WriteKeepsTableSound(s, s', Row(newId, Trimmed(input), true));
      } else {
        SameTable(s, s');
      }
    case Update(id, input, _) =>
      if s'.table != s.table {
        WriteKeepsTableSound(s, s', Row(id, Trimmed(input), s.table[id].isActive));
      } else {
        SameTable(s, s');
      }
    case Deactivate(id, _) =>
      if id in s.table {
        DeactivatedRow(s, id);
        WriteKeepsTableSound(s, s', s.table[id].(isActive := false));
      }
    case Rebuild(_, _) => SameTable(s, s');
  }

  lemma MoreKeys(s: System, s': System)
    requires TableSound(s) && s'.table == s.table && s.apiKeys <= s'.apiKeys
    ensures TableSound(s')
  {
  }

  lemma SameTable(s: System, s': System)
    requires TableSound(s) && s'.table == s.table && s'.apiKeys == s.apiKeys
    ensures TableSound(s')
  {
  }

  lemma DeactivatedRow(s: System, id: UUID)
    requires TableSound(s) && id in s.table
    ensures var row := s.table[id].(isActive := false);
            ValidScope(row.scope) && !ScopeTaken(s.table, row) && RowSound(row, s.apiKeys) && row.id == id
  {
  }

  // ---- What the calls write ----

  // A row holds what an input says, trimmed.
  predicate Holds(row: Policy, id: UUID, input: PolicyInput, isActive: bool) {
    && row.id == id && row.isActive == isActive
    && row.scope.scopeType == TrimSpace(input.scope.scopeType)
    && row.scope.identifier == input.scope.identifier
    && (row.scope.route.Some? <==> input.scope.route.Some?)
    && (row.scope.route.Some? ==> row.scope.route.value == TrimSpace(input.scope.route.value))
    && row.capacity == input.capacity && row.refillTokens == input.refillTokens
    && row.refillIntervalSeconds == input.refillIntervalSeconds
  }

  predicate HeldByOther(table: Table, id: UUID, scope: Scope) {
    exists other :: other in table && other != id && table[other].isActive && table[other].scope == scope
  }

  predicate KeyMissing(s: System, scope: Scope) {
    scope.identifier.Some? && scope.identifier.value !in s.apiKeys
  }

  // Whether Redis is there or not: a creation is refused with the validation's error, as a
  // conflict if and only if the id is used or an active policy holds the scope, and for a
  // missing key if and only if only that is wrong; a refusal changes nothing. Otherwise the
  // table gains exactly the row that the input says; without Redis the call fails, after
  // that write and with the projection as it was, and with it the row is returned and
  // projected under its key.
  lemma CreateOutcome(s: System, newId: UUID, input: PolicyInput, redisUp: bool)
    requires TableSound(s)
    ensures var (s', r) := CreateStep(s, newId, input, redisUp);
            match ValidateCreateInput(input)
            case Err(error) => r == Err(error) && s' == s
            case Ok(valid) =>
              var conflict := newId in s.table || HeldByOther(s.table, newId, valid.scope);
              var accepted := !conflict && !KeyMissing(s, valid.scope);
              && (r == Err(PolicyConflict) <==> conflict)
              && (r == Err(ScopedAPIKeyNotFound) <==> !conflict && KeyMissing(s, valid.scope))
              && (r == Err(ProjectionUnavailable) <==> accepted && !redisUp)
              && (r.Ok? <==> accepted && redisUp)
              && s'.apiKeys == s.apiKeys
              && (!accepted ==> s' == s)
              && (accepted ==>
                    && newId in s'.table && s'.table == s.table[newId := s'.table[newId]]
                    && Holds(s'.table[newId], newId, input, true)
                    && s'.projection == (if redisUp
                                         then s.projection[PolicyKey(s'.table[newId].scope) := s'.table[newId]]
                                         else s.projection)
                    && (redisUp ==> r.value == s'.table[newId]))
  {
    hide TrimSpace, ValidScope, PolicyKey;
  }

  // An update is not found, refused or unprojected likewise; only an active row contends
  // for its new scope. It rewrites exactly that row as the input says, with its flag kept,
  // and moves its entry in the projection.
  lemma UpdateOutcome(s: System, id: UUID, input: PolicyInput, redisUp: bool)
    requires TableSound(s)
    ensures var (s', r) := UpdateStep(s, id, input, redisUp);
            && (r == Err(PolicyNotFound) <==> id !in s.table)
            && (id !in s.table ==> s' == s)
            && (id in s.table ==>
                  match ValidateCreateInput(input)
                  case Err(error) => r == Err(error) && s' == s
                  case Ok(valid) =>
                    var conflict := s.table[id].isActive && HeldByOther(s.table, id, valid.scope);
                    var accepted := !conflict && !KeyMissing(s, valid.scope);
                    && (r == Err(PolicyConflict) <==> conflict)
                    && (r == Err(ScopedAPIKeyNotFound) <==> !conflict && KeyMissing(s, valid.scope))
                    && (r == Err(ProjectionUnavailable) <==> accepted && !redisUp)
                    && (r.Ok? <==> accepted && redisUp)
                    && s'.apiKeys == s.apiKeys
                    && (!accepted ==> s' == s)
                    && (accepted ==>
                          && id in s'.table && s'.table == s.table[id := s'.table[id]]
                          && Holds(s'.table[id], id, input, s.table[id].isActive)
                          && (!redisUp ==> s'.projection == s.projection)
                          && (redisUp ==>
                                var was, now := PolicyKey(s.table[id].scope), PolicyKey(s'.table[id].scope);
                                && r.value == s'.table[id]
                                && now in s'.projection && s'.projection[now] == s'.table[id]
                                && (was != now ==> was !in s'.projection)
                                && s'.projection - {was, now} == s.projection - {was, now})))
  {
    hide TrimSpace, ValidScope, PolicyKey;
  }

  // A deactivation finds its policy if and only if the row exists. The row then keeps its
  // scope and amounts and is inactive, whether or not Redis takes the removal; the answer
  // is that row, and the projection loses exactly its key.
  lemma DeactivateOutcome(s: System, id: UUID, redisUp: bool)
    requires TableSound(s)
    ensures var (s', r) := DeactivateStep(s, id, redisUp);
            && (r == Err(PolicyNotFound) <==> id !in s.table)
            && (r == Err(ProjectionUnavailable) <==> id in s.table && !redisUp)
            && (r.Ok? <==> id in s.table && redisUp)
            && s'.apiKeys == s.apiKeys
            && (id !in s.table ==> s' == s)
            && (id in s.table ==>
                  && id in s'.table && s'.table == s.table[id := s'.table[id]]
                  && var row, was := s'.table[id], s.table[id];
                  && row.id == id && !row.isActive && row.scope == was.scope
                  && row.capacity == was.capacity && row.refillTokens == was.refillTokens
                  && row.refillIntervalSeconds == was.refillIntervalSeconds
                  && (redisUp ==> r.value == row)
                  && s'.projection == (if redisUp then s.projection - {PolicyKey(row.scope)} else s.projection))
  {
    hide PolicyKey, ValidScope;
  }

  // A rebuild that Redis does not take changes nothing, and none changes the table.
  lemma RebuildOutcome(s: System, listing: seq<Policy>, redisUp: bool)
    ensures var s' := RebuildStep(s, listing, redisUp);
            s'.table == s.table && s'.apiKeys == s.apiKeys && (!redisUp ==> s'.projection == s.projection)
  {
  }

  // ---- Agreement ----

  // The projection is exactly the map from scope key to active row.
  ghost predicate Agrees(table: Table, projection: Projection) {
    && (forall id :: id in table && table[id].isActive ==>
          PolicyKey(table[id].scope) in projection && projection[PolicyKey(table[id].scope)] == table[id])
    && (forall key :: key in projection ==>
          var p := projection[key];
          key == PolicyKey(p.scope) && p.isActive && p.id in table && table[p.id] == p)
  }

  // A table determines the projection that agrees with it.
  lemma AgreementDetermines(table: Table, p: Projection, q: Projection)
    requires Agrees(table, p) && Agrees(table, q)
    ensures p == q
  {
    hide PolicyKey;
    assert forall key :: key in p ==> key in q && q[key] == p[key];
    assert forall key :: key in q ==> key in p;
  }

  lemma ScopeKeysInjective()
    ensures forall a, b :: ValidScope(a) && ValidScope(b) && PolicyKey(a) == PolicyKey(b) ==> a == b
  {
    forall a, b | ValidScope(a) && ValidScope(b) && PolicyKey(a) == PolicyKey(b) ensures a == b {
      KeysInjective(POLICY_PREFIX, a, b);
    }
  }

  // ---- Which calls keep agreement ----

  lemma InsertAgrees(table: Table, projection: Projection, row: Policy)
    requires RowsValid(table) && Agrees(table, projection) && ValidScope(row.scope)
    requires row.id !in table && row.isActive && !ScopeTaken(table, row)
    ensures Agrees(table[row.id := row], SyncPolicy(projection, None, row))
  {
    hide PolicyKey, ValidScope;
    ScopeKeysInjective();
  }

  // A creation keeps agreement, whether it succeeds or is refused.
  lemma CreateKeepsAgreement(s: System, newId: UUID, input: PolicyInput)
    requires TableSound(s) && Agrees(s.table, s.projection)
    ensures Agrees(Do(s, Create(newId, input, true)).table, Do(s, Create(newId, input, true)).projection)
  {
    hide Agrees, PolicyKey, ValidScope, TrimSpace, ScopeTaken, SyncPolicy;
    if CreateStep(s, newId, input, true).1.Ok? {
      InsertAgrees(s.table, s.projection, Row(newId, Trimmed(input), true));
    }
  }

  lemma ActiveRewriteAgrees(table: Table, projection: Projection, row: Policy)
    requires RowsValid(table) && OneActivePerScope(table) && Agrees(table, projection) && ValidScope(row.scope)
    requires row.id in table && table[row.id].isActive && row.isActive && !ScopeTaken(table, row)
    ensures Agrees(table[row.id := row], SyncPolicy(projection, Some(table[row.id]), row))
  {
    hide PolicyKey, ValidScope;
    ScopeKeysInjective();
    assert ValidScope(table[row.id].scope);
  }

  // A successful update keeps agreement if and only if the policy was active: the sync
  // never looks at the flag, so an inactive policy is projected.
  lemma UpdateKeepsAgreementIff(s: System, id: UUID, input: PolicyInput)
    requires TableSound(s) && Agrees(s.table, s.projection)
    requires UpdateStep(s, id, input, true).1.Ok?
    ensures var s' := Do(s, Update(id, input, true));
            Agrees(s'.table, s'.projection) <==> s.table[id].isActive
  {
    hide PolicyKey, ValidScope, TrimSpace, ScopeTaken, Agrees;
    var s' := Do(s, Update(id, input, true));
    var row := Row(id, Trimmed(input), s.table[id].isActive);
    if row.isActive {
      ActiveRewriteAgrees(s.table, s.projection, row);
    } else {
      assert PolicyKey(row.scope) in s'.projection && s'.projection[PolicyKey(row.scope)] == row;
      InactiveEntryDisagrees(s'.table, s'.projection, PolicyKey(row.scope));
    }
  }

  lemma InactiveEntryDisagrees(table: Table, projection: Projection, key: string)
    requires key in projection && !projection[key].isActive
    ensures !Agrees(table, projection)
  {
  }

  predicate ScopeHeldByOther(table: Table, id: UUID)
    requires id in table
  {
    exists other :: other in table && other != id && table[other].isActive && table[other].scope == table[id].scope
  }

  lemma RemovalAgreesIff(table: Table, projection: Projection, id: UUID)
    requires RowsValid(table) && OneActivePerScope(table) && Agrees(table, projection) && id in table
    ensures var row := table[id].(isActive := false);
            Agrees(table[id := row], RemovePolicy(projection, row)) <==> !ScopeHeldByOther(table, id)
  {
    hide PolicyKey, ValidScope;
    ScopeKeysInjective();
    assert ValidScope(table[id].scope);
    var row := table[id].(isActive := false);
    var table', projection' := table[id := row], RemovePolicy(projection, row);
    if ScopeHeldByOther(table, id) {
      var other :| other in table && other != id && table[other].isActive && table[other].scope == table[id].scope;
      assert other in table' && table'[other].isActive && PolicyKey(table'[other].scope) !in projection';
    } else {
      forall key | key in projection'
        ensures var p := projection'[key];
                key == PolicyKey(p.scope) && p.isActive && p.id in table' && table'[p.id] == p
      {
        assert projection[key].id != id;
      }
    }
  }

  // A deactivation keeps agreement if and only if no other active policy holds the scope
  // of the policy it names: it always deletes the scope's key. An active policy meets
  // this by the unique index, an inactive one may not.
  lemma DeactivateKeepsAgreementIff(s: System, id: UUID)
    requires TableSound(s) && Agrees(s.table, s.projection) && id in s.table
    ensures var s' := Do(s, Deactivate(id, true));
            Agrees(s'.table, s'.projection) <==> !ScopeHeldByOther(s.table, id)
    ensures s.table[id].isActive ==> !ScopeHeldByOther(s.table, id)
  {
    hide Agrees;
    RemovalAgreesIff(s.table, s.projection, id);
  }

  // Rebuilding establishes agreement from any projection whatever, in whatever order the
  // database lists the rows.
  lemma RebuildEstablishesAgreement(s: System, listing: seq<Policy>)
    requires TableSound(s) && ListsActive(s.table, listing)
    ensures Agrees(s.table, Do(s, Rebuild(listing, true)).projection)
  {
    hide PolicyKey, ValidScope, ReplacePolicies, RowSound;
    ScopeKeysInjective();
    ReplacedContent(listing);
    var projection := ReplacePolicies(listing);
    forall id | id in s.table && s.table[id].isActive
      ensures PolicyKey(s.table[id].scope) in projection && projection[PolicyKey(s.table[id].scope)] == s.table[id]
    {
      var p := projection[PolicyKey(s.table[id].scope)];
      assert ValidScope(s.table[p.id].scope) && ValidScope(s.table[id].scope);
    }
  }

  lemma {:induction false} ReplacedContent(items: seq<Policy>)
    ensures forall key :: key in ReplacePolicies(items) ==>
              ReplacePolicies(items)[key] in items && key == PolicyKey(ReplacePolicies(items)[key].scope)
    ensures forall p :: p in items ==> PolicyKey(p.scope) in ReplacePolicies(items)
  {
    hide PolicyKey;
    if items != [] {
      ReplacedContent(items[..|items| - 1]);
    }
  }

  // ---- Runs ----

  const EMPTY: System := System(map[], {}, map[])

  function Run(ops: seq<Op>): System {
    if ops == [] then EMPTY else Do(Run(ops[..|ops| - 1]), ops[|ops| - 1])
  }

  lemma {:induction false} RunTableSound(ops: seq<Op>)
    ensures TableSound(Run(ops))
  {
    hide Do;
    if ops != [] {
      RunTableSound(ops[..|ops| - 1]);
      DoKeepsTableSound(Run(ops[..|ops| - 1]), ops[|ops| - 1]);
    }
  }

  // Redis takes the call's write, and a rebuild is given the active rows.
  ghost predicate Answered(s: System, op: Op) {
    match op
    case KeyCreated(_) => true
    case Create(_, _, redisUp) => redisUp
    case Update(_, _, redisUp) => redisUp
    case Deactivate(_, redisUp) => redisUp
    case Rebuild(listing, redisUp) => redisUp && ListsActive(s.table, listing)
  }

  // What the caller can see to beforehand: an update that will be accepted names an active
  // policy, and a deactivation no policy whose scope another active policy holds.
  ghost predicate Guarded(s: System, op: Op) {
    && Answered(s, op)
    && match op
       case Update(id, input, _) => UpdateStep(s, id, input, true).1.Ok? ==> s.table[id].isActive
       case Deactivate(id, _) => id in s.table ==> !ScopeHeldByOther(s.table, id)
       case _ => true
  }

  ghost predicate GuardedRun(ops: seq<Op>) {
    forall i :: 0 <= i < |ops| ==> Guarded(Run(ops[..i]), ops[i])
  }

  // The guard is exact: a call that Redis answers keeps agreement if and only if it is
  // guarded.
  lemma GuardIsExact(s: System, op: Op)
    requires TableSound(s) && Agrees(s.table, s.projection) && Answered(s, op)
    ensures Agrees(Do(s, op).table, Do(s, op).projection) <==> Guarded(s, op)
  {
    hide Agrees, TableSound, CreateStep, ListsActive, ScopeHeldByOther;
    match op
    case KeyCreated(_) =>
    case Create(newId, input, _) => CreateKeepsAgreement(s, newId, input);
    case Update(id, input, _) =>
      if UpdateStep(s, id, input, true).1.Ok? {
        UpdateKeepsAgreementIff(s, id, input);
      }
    case Deactivate(id, _) =>
      if id in s.table {
        DeactivateKeepsAgreementIff(s, id);
      }
    case Rebuild(listing, _) => RebuildEstablishesAgreement(s, listing);
  }

  // After every guarded run the projection is the active part of the table.
  lemma {:induction false} GuardedRunsAgree(ops: seq<Op>)
    requires GuardedRun(ops)
    ensures Agrees(Run(ops).table, Run(ops).projection)
  {
    hide Do, TableSound, Answered, UpdateStep, ScopeHeldByOther;
    if ops != [] {
      var before := ops[..|ops| - 1];
      forall i | 0 <= i < |before| ensures Guarded(Run(before[..i]), before[i]) {
        assert before[..i] == ops[..i];
      }
      assert ops[..|ops| - 1] == before;
      GuardedRunsAgree(before);
      RunTableSound(before);
      GuardIsExact(Run(before), ops[|ops| - 1]);
    }
  }

  ghost predicate AgreesThroughout(ops: seq<Op>) {
    forall i :: 0 <= i <= |ops| ==> Agrees(Run(ops[..i]).table, Run(ops[..i]).projection)
  }

  // And only of guarded runs does that hold at every point, as long as Redis answers.
  lemma AgreesThroughoutIff(ops: seq<Op>)
    requires forall i :: 0 <= i < |ops| ==> Answered(Run(ops[..i]), ops[i])
    ensures AgreesThroughout(ops) <==> GuardedRun(ops)
  {
    hide Run, Do, TableSound, Guarded, Answered, Agrees;
    if GuardedRun(ops) {
      forall i | 0 <= i <= |ops| ensures Agrees(Run(ops[..i]).table, Run(ops[..i]).projection) {
        forall j | 0 <= j < i ensures Guarded(Run(ops[..i][..j]), ops[..i][j]) {
          assert ops[..i][..j] == ops[..j];
        }
        GuardedRunsAgree(ops[..i]);
      }
    }
    if AgreesThroughout(ops) {
      forall i | 0 <= i < |ops| ensures Guarded(Run(ops[..i]), ops[i]) {
        RunTableSound(ops[..i]);
        assert ops[..i + 1] == ops[..i] + [ops[i]];
        RunAppend(ops[..i], ops[i]);
        GuardIsExact(Run(ops[..i]), ops[i]);
      }
    }
  }

  // Whatever came before, unguarded calls and lost projection writes included, a rebuild
  // brings the projection back to the table.
  lemma RebuildHeals(ops: seq<Op>, listing: seq<Policy>)
    requires ListsActive(Run(ops).table, listing)
    ensures var s := Run(ops + [Rebuild(listing, true)]);
            Agrees(s.table, s.projection) && s.table == Run(ops).table
  {
    hide Do, TableSound, ListsActive, Agrees;
    RunTableSound(ops);
    assert (ops + [Rebuild(listing, true)])[..|ops|] == ops;
    RebuildEstablishesAgreement(Run(ops), listing);
    assert Do(Run(ops), Rebuild(listing, true)).table == Run(ops).table by {
      RebuildKeepsTable(Run(ops), listing);
    }
  }

  lemma RebuildKeepsTable(s: System, listing: seq<Policy>)
    ensures Do(s, Rebuild(listing, true)).table == s.table
  {
  }

  // Without any guard one thing survives: each entry sits under its own key.
  lemma {:induction false} EntriesUnderOwnKeys(ops: seq<Op>)
    ensures forall key :: key in Run(ops).projection ==> key == PolicyKey(Run(ops).projection[key].scope)
  {
    hide PolicyKey, TrimSpace, ValidScope;
    if ops != [] {
      EntriesUnderOwnKeys(ops[..|ops| - 1]);
      var op := ops[|ops| - 1];
      if op.Rebuild? {
        ReplacedContent(op.listing);
      }
    }
  }

  // ---- The guard is needed ----

  const FIRST: UUID := [0, 0, 0, 0, 0, 0, 0, 0, 0, 0, 0, 0, 0, 0, 0, 1]
  const SECOND: UUID := [0, 0, 0, 0, 0, 0, 0, 0, 0, 0, 0, 0, 0, 0, 0, 2]
  const GLOBAL_INPUT: PolicyInput := PolicyInput(Scope(GLOBAL, None, None), 10, 1, 60)

  // A first global policy is created and deactivated, and a second one takes its place.
  function Succession(): seq<Op> {
    [Create(FIRST, GLOBAL_INPUT, true)] + [Deactivate(FIRST, true)] + [Create(SECOND, GLOBAL_INPUT, true)]
  }

  lemma RunAppend(ops: seq<Op>, op: Op)
    ensures Run(ops + [op]) == Do(Run(ops), op)
  {
    hide Do;
    assert (ops + [op])[..|ops|] == ops;
  }

  lemma SuccessionState()
    ensures var s, policy := Run(Succession()), Row(SECOND, GLOBAL_INPUT, true);
            && s.table == map[FIRST := Row(FIRST, GLOBAL_INPUT, false), SECOND := policy]
            && s.projection == map[PolicyKey(GLOBAL_INPUT.scope) := policy]
  {
    hide Run, PolicyKey;
    assert Run([]) == EMPTY by {
      RunOfNothing();
    }
    RunAppend([], Create(FIRST, GLOBAL_INPUT, true));
    assert [] + [Create(FIRST, GLOBAL_INPUT, true)] == [Create(FIRST, GLOBAL_INPUT, true)];
    RunAppend([Create(FIRST, GLOBAL_INPUT, true)], Deactivate(FIRST, true));
    RunAppend([Create(FIRST, GLOBAL_INPUT, true)] + [Deactivate(FIRST, true)], Create(SECOND, GLOBAL_INPUT, true));
    assert Trimmed(GLOBAL_INPUT) == GLOBAL_INPUT;
    assert FIRST[15] != SECOND[15];
  }

  lemma RunOfNothing()
    ensures Run([]) == EMPTY
  {
  }

  lemma SuccessionAgrees()
    ensures Agrees(Run(Succession()).table, Run(Succession()).projection)
  {
    hide Run, PolicyKey;
    SuccessionState();
    assert FIRST[15] != SECOND[15];
  }

  lemma DeactivateUnderHolder(s: System, id: UUID, other: UUID)
    requires TableSound(s) && Agrees(s.table, s.projection)
    requires id in s.table && other in s.table && other != id
    requires s.table[other].isActive && s.table[other].scope == s.table[id].scope
    ensures var s' := Do(s, Deactivate(id, true));
            && other in s'.table && s'.table[other] == s.table[other]
            && PolicyKey(s.table[other].scope) !in s'.projection
            && !Agrees(s'.table, s'.projection)
  {
    hide PolicyKey, Agrees;
    assert ScopeHeldByOther(s.table, id);
    DeactivateKeepsAgreementIff(s, id);
  }

  // Deactivating the first policy again removes the second one from the projection.
  lemma DeactivatingTwiceBreaksAgreement()
    ensures var s := Do(Run(Succession()), Deactivate(FIRST, true));
            && SECOND in s.table && s.table[SECOND] == Row(SECOND, GLOBAL_INPUT, true)
            && PolicyKey(GLOBAL_INPUT.scope) !in s.projection
            && !Agrees(s.table, s.projection)
  {
    hide Run, PolicyKey, Agrees, Do;
    SuccessionState();
    SuccessionAgrees();
    RunTableSound(Succession());
    assert FIRST[15] != SECOND[15];
    DeactivateUnderHolder(Run(Succession()), FIRST, SECOND);
  }

  // Updating the inactive first policy puts it in the second one's place.
  lemma UpdatingInactiveBreaksAgreement()
    ensures var s := Do(Run(Succession()), Update(FIRST, GLOBAL_INPUT, true));
            && SECOND in s.table && s.table[SECOND] == Row(SECOND, GLOBAL_INPUT, true)
            && PolicyKey(GLOBAL_INPUT.scope) in s.projection
            && s.projection[PolicyKey(GLOBAL_INPUT.scope)] == Row(FIRST, GLOBAL_INPUT, false)
            && !Agrees(s.table, s.projection)
  {
    hide Run, PolicyKey, Agrees;
    SuccessionState();
    SuccessionAgrees();
    RunTableSound(Succession());
    assert FIRST[15] != SECOND[15];
    assert Trimmed(GLOBAL_INPUT) == GLOBAL_INPUT;
    UpdateKeepsAgreementIff(Run(Succession()), FIRST, GLOBAL_INPUT);
  }
}
