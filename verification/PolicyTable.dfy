// The policy table, its guards on writes, the Redis projection of it, and each service
// call as one change of both: the table is written first and the projection after it.
module PolicyTable {
  import opened Wrappers
  import opened Scopes
  import opened Text

  type Int32 = x: int | -0x8000_0000 <= x < 0x8000_0000

  datatype Policy = Policy(
    id: UUID,
    scope: Scope,
    capacity: Int32,
    refillTokens: Int32,
    refillIntervalSeconds: Int32,
    isActive: bool)

  datatype PolicyInput = PolicyInput(
    scope: Scope,
    capacity: Int32,
    refillTokens: Int32,
    refillIntervalSeconds: Int32)

  datatype PolicyError =
    | InvalidScopeType
    | InvalidScopeShape
    | InvalidRoutePattern
    | InvalidCapacity
    | InvalidRefillTokens
    | InvalidRefillInterval
    | PolicyConflict
    | ScopedAPIKeyNotFound
    | PolicyNotFound
    | ProjectionUnavailable

  // ---- Validation ----

  function Trimmed(input: PolicyInput): PolicyInput {
    input.(scope := Scope(
             TrimSpace(input.scope.scopeType),
             input.scope.identifier,
             if input.scope.route.None? then None else Some(TrimSpace(input.scope.route.value))))
  }

  predicate PositiveAmounts(input: PolicyInput) {
    input.capacity > 0 && input.refillTokens > 0 && input.refillIntervalSeconds > 0
  }

  predicate ValidInput(input: PolicyInput) {
    ValidScope(input.scope) && PositiveAmounts(input)
  }

  predicate KnownType(scope: Scope) {
    scope.scopeType in {GLOBAL, API_KEY, ROUTE, API_KEY_ROUTE}
  }

  // A scope of a known type with the fields that the type asks for, whatever the route.
  predicate RightShape(scope: Scope) {
    ValidScope(scope.(route := if scope.route.None? then None else Some("ping")))
  }

  // An input is accepted, trimmed, if and only if its scope is valid and its amounts are
  // positive. Otherwise the error names the first of these that is wrong: a missing type,
  // the amounts in turn, an unknown type, the shape, the route.
  function ValidateCreateInput(raw: PolicyInput): (r: Result<PolicyInput, PolicyError>)
    ensures r.Ok? <==> ValidInput(Trimmed(raw))
    ensures r.Ok? ==> r.value == Trimmed(raw)
    ensures var t := Trimmed(raw);
            && (r == Err(InvalidScopeType) <==>
                  t.scope.scopeType == "" || (PositiveAmounts(t) && !KnownType(t.scope)))
            && (r == Err(InvalidCapacity) <==> t.scope.scopeType != "" && t.capacity <= 0)
            && (r == Err(InvalidRefillTokens) <==>
                  t.scope.scopeType != "" && t.capacity > 0 && t.refillTokens <= 0)
            && (r == Err(InvalidRefillInterval) <==>
                  t.scope.scopeType != "" && t.capacity > 0 && t.refillTokens > 0 && t.refillIntervalSeconds <= 0)
            && (r == Err(InvalidScopeShape) <==> PositiveAmounts(t) && KnownType(t.scope) && !RightShape(t.scope))
            && (r == Err(InvalidRoutePattern) <==> PositiveAmounts(t) && RightShape(t.scope) && !ValidScope(t.scope))
  {
    var input := Trimmed(raw);
    var hasId, hasRoute := input.scope.identifier.Some?, input.scope.route.Some?;
    if input.scope.scopeType == "" then Err(InvalidScopeType)
    else if input.capacity <= 0 then Err(InvalidCapacity)
    else if input.refillTokens <= 0 then Err(InvalidRefillTokens)
    else if input.refillIntervalSeconds <= 0 then Err(InvalidRefillInterval)
    else if input.scope.scopeType == GLOBAL && (hasId || hasRoute) then Err(InvalidScopeShape)
    else if input.scope.scopeType == API_KEY && (!hasId || hasRoute) then Err(InvalidScopeShape)
    else if input.scope.scopeType == ROUTE && (hasId || !hasRoute) then Err(InvalidScopeShape)
    else if input.scope.scopeType == API_KEY_ROUTE && (!hasId || !hasRoute) then Err(InvalidScopeShape)
    else if input.scope.scopeType !in {GLOBAL, API_KEY, ROUTE, API_KEY_ROUTE} then Err(InvalidScopeType)
    else if hasRoute && !ValidRoute(input.scope.route.value) then Err(InvalidRoutePattern)
    else Ok(input)
  }

  // ---- The table ----

  type Table = map<UUID, Policy>

  function Row(id: UUID, input: PolicyInput, isActive: bool): Policy {
    Policy(id, input.scope, input.capacity, input.refillTokens, input.refillIntervalSeconds, isActive)
  }

  // The partial unique indexes: at most one active row per scope.
  predicate ScopeTaken(table: Table, row: Policy) {
    row.isActive
    && exists other :: other in table && other != row.id && table[other].isActive && table[other].scope == row.scope
  }

  // An insert or update of a row, as the constraints of the table allow it.
  function WriteRow(table: Table, apiKeys: set<UUID>, row: Policy): Result<Table, PolicyError> {
    if ScopeTaken(table, row) then Err(PolicyConflict)
    else if row.scope.identifier.Some? && row.scope.identifier.value !in apiKeys then Err(ScopedAPIKeyNotFound)
    else Ok(table[row.id := row])
  }

  // ---- The projection ----

  type Projection = map<string, Policy>

  // SET of the current key, then DEL of the previous one if it differs.
  function SyncPolicy(projection: Projection, previous: Option<Policy>, current: Policy): Projection {
    var written := projection[PolicyKey(current.scope) := current];
    if previous.Some? && PolicyKey(previous.value.scope) != PolicyKey(current.scope)
    then written - {PolicyKey(previous.value.scope)}
    else written
  }

  function RemovePolicy(projection: Projection, policy: Policy): Projection {
    projection - {PolicyKey(policy.scope)}
  }

  // Every projected key is deleted, and one is set for each item, in order.
  function ReplacePolicies(items: seq<Policy>): Projection {
    if items == [] then map[]
    else ReplacePolicies(items[..|items| - 1])[PolicyKey(items[|items| - 1].scope) := items[|items| - 1]]
  }

  // ---- Service calls ----

  datatype System = System(table: Table, apiKeys: set<UUID>, projection: Projection)

  // Each call says whether Redis takes the projection write; the id of a new row is the
  // database's choice, and so is the order in which it lists rows.
  datatype Op =
    | KeyCreated(apiKey: UUID)
    | Create(newId: UUID, input: PolicyInput, redisUp: bool)
    | Update(id: UUID, input: PolicyInput, redisUp: bool)
    | Deactivate(id: UUID, redisUp: bool)
    | Rebuild(listing: seq<Policy>, redisUp: bool)

  function CreateStep(s: System, newId: UUID, raw: PolicyInput, redisUp: bool): (System, Result<Policy, PolicyError>) {
    match ValidateCreateInput(raw)
    case Err(error) => (s, Err(error))
    case Ok(input) =>
      var row := Row(newId, input, true);
      if newId in s.table then (s, Err(PolicyConflict))
      else
        match WriteRow(s.table, s.apiKeys, row)
        case Err(error) => (s, Err(error))
        case Ok(table) =>
          if !redisUp then (s.(table := table), Err(ProjectionUnavailable))
          else (s.(table := table, projection := SyncPolicy(s.projection, None, row)), Ok(row))
  }

  function UpdateStep(s: System, id: UUID, raw: PolicyInput, redisUp: bool): (System, Result<Policy, PolicyError>) {
    if id !in s.table then (s, Err(PolicyNotFound))
    else
      var existing := s.table[id];
      match ValidateCreateInput(raw)
      case Err(error) => (s, Err(error))
      case Ok(input) =>
        var row := Row(id, input, existing.isActive);
        match WriteRow(s.table, s.apiKeys, row)
        case Err(error) => (s, Err(error))
        case Ok(table) =>
          if !redisUp then (s.(table := table), Err(ProjectionUnavailable))
          else (s.(table := table, projection := SyncPolicy(s.projection, Some(existing), row)), Ok(row))
  }

  function DeactivateStep(s: System, id: UUID, redisUp: bool): (System, Result<Policy, PolicyError>) {
    if id !in s.table then (s, Err(PolicyNotFound))
    else
      var row := s.table[id].(isActive := false);
      var table := s.table[id := row];
      if !redisUp then (s.(table := table), Err(ProjectionUnavailable))
      else (s.(table := table, projection := RemovePolicy(s.projection, row)), Ok(row))
  }

  function RebuildStep(s: System, listing: seq<Policy>, redisUp: bool): System {
    if !redisUp then s else s.(projection := ReplacePolicies(listing))
  }

  function Do(s: System, op: Op): System {
    match op
    case KeyCreated(apiKey) => s.(apiKeys := s.apiKeys + {apiKey})
    case Create(newId, input, redisUp) => CreateStep(s, newId, input, redisUp).0
    case Update(id, input, redisUp) => UpdateStep(s, id, input, redisUp).0
    case Deactivate(id, redisUp) => DeactivateStep(s, id, redisUp).0
    case Rebuild(listing, redisUp) => RebuildStep(s, listing, redisUp)
  }

  // A listing of the active rows, in any order.
  ghost predicate ListsActive(table: Table, listing: seq<Policy>) {
    && (forall p :: p in listing ==> p.isActive && p.id in table && table[p.id] == p)
    && (forall id :: id in table && table[id].isActive ==> table[id] in listing)
  }
}
