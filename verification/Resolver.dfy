// Precedence lookup over the projection, and that it answers the question about the
// table: which active policy that matches the request is the most specific one.
module Resolver {
  import opened Wrappers
  import opened Scopes
  import opened Text
  import opened PolicyTable
  import opened PolicyAgreement
  import opened PolicyService

  // The policy and the scope it was found under.
  datatype Resolution = Resolution(policy: Policy, matched: Scope)

  datatype ResolveError = InvalidRouteID | ProjectionUnreadable

  // The scopes looked up for a request, most specific first.
  function Candidates(apiKey: Option<UUID>, route: string): seq<Scope> {
    (if apiKey.Some?
     then [Scope(API_KEY_ROUTE, apiKey, Some(route)), Scope(API_KEY, apiKey, None)]
     else [])
    + [Scope(ROUTE, None, Some(route)), Scope(GLOBAL, None, None)]
  }

  function FirstFound(entries: Projection, candidates: seq<Scope>): Option<Resolution> {
    if candidates == [] then None
    else
      match Lookup(entries, candidates[0])
      case Some(policy) => Some(Resolution(policy, candidates[0]))
      case None => FirstFound(entries, candidates[1..])
  }

  // A policy with no key applies to every key, and one with no route to every route.
  predicate Matches(scope: Scope, apiKey: Option<UUID>, route: string) {
    && (scope.identifier.None? || scope.identifier == apiKey)
    && (scope.route.None? || scope.route == Some(route))
  }

  function Specificity(scope: Scope): nat {
    if scope.scopeType == API_KEY_ROUTE then 3
    else if scope.scopeType == API_KEY then 2
    else if scope.scopeType == ROUTE then 1
    else 0
  }

  lemma CandidatesAreTheMatches(scope: Scope, apiKey: Option<UUID>, route: string)
    requires ValidScope(scope) && ValidRoute(route)
    ensures Matches(scope, apiKey, route) <==> scope in Candidates(apiKey, route)
  {
    if Matches(scope, apiKey, route) {
      assert scope == Scope(API_KEY_ROUTE, apiKey, Some(route)) || scope == Scope(API_KEY, apiKey, None)
          || scope == Scope(ROUTE, None, Some(route)) || scope == Scope(GLOBAL, None, None);
    }
  }

  lemma CandidatesInOrder(apiKey: Option<UUID>, route: string)
    requires ValidRoute(route)
    ensures forall c :: c in Candidates(apiKey, route) ==> ValidScope(c) && Matches(c, apiKey, route)
    ensures forall i, j :: 0 <= i < j < |Candidates(apiKey, route)| ==>
              Specificity(Candidates(apiKey, route)[i]) > Specificity(Candidates(apiKey, route)[j])
  {
  }

  lemma {:induction false} FirstFoundIsFirst(entries: Projection, candidates: seq<Scope>)
    ensures match FirstFound(entries, candidates)
            case None => forall c :: c in candidates ==> Lookup(entries, c).None?
            case Some(r) =>
              exists i :: 0 <= i < |candidates| && candidates[i] == r.matched
                       && Lookup(entries, candidates[i]) == Some(r.policy)
                       && forall j :: 0 <= j < i ==> Lookup(entries, candidates[j]).None?
  {
    hide Lookup;
    if candidates != [] && Lookup(entries, candidates[0]).None? {
      FirstFoundIsFirst(entries, candidates[1..]);
      match FirstFound(entries, candidates[1..])
      case None =>
      case Some(r) =>
        var i :| 0 <= i < |candidates[1..]| && candidates[1..][i] == r.matched
              && Lookup(entries, candidates[1..][i]) == Some(r.policy)
              && forall j :: 0 <= j < i ==> Lookup(entries, candidates[1..][j]).None?;
        forall j | 0 <= j < i + 1 ensures Lookup(entries, candidates[j]).None? {
          if j > 0 {
            assert candidates[j] == candidates[1..][j - 1];
          }
        }
        assert candidates[i + 1] == r.matched;
    }
  }

  // Looking a valid scope up in an agreeing projection is asking the table for the active
  // row of that scope.
  lemma LookupIsTableQuery(table: Table, projection: Projection, scope: Scope)
    requires RowsValid(table) && Agrees(table, projection) && ValidScope(scope)
    ensures match Lookup(projection, scope)
            case None => forall id :: id in table && table[id].isActive ==> table[id].scope != scope
            case Some(p) => p.id in table && table[p.id] == p && p.isActive && p.scope == scope
  {
    hide PolicyKey, ValidScope;
    ScopeKeysInjective();
    if PolicyKey(scope) in projection {
      var p := projection[PolicyKey(scope)];
      assert ValidScope(table[p.id].scope);
    }
  }

  // The table's own answer: no active row matches, or the row found is the active
  // matching one that is strictly more specific than every other, under its own scope.
  ghost predicate MostSpecific(table: Table, apiKey: Option<UUID>, route: string, found: Option<Resolution>) {
    match found
    case None =>
      forall id :: id in table && table[id].isActive ==> !Matches(table[id].scope, apiKey, route)
    case Some(r) =>
      && r.policy.id in table && table[r.policy.id] == r.policy
      && r.policy.isActive && r.matched == r.policy.scope
      && Matches(r.policy.scope, apiKey, route)
      && forall id ::
           id in table && id != r.policy.id && table[id].isActive && Matches(table[id].scope, apiKey, route)
           ==> Specificity(table[id].scope) < Specificity(r.policy.scope)
  }

  // Whenever the projection agrees with the table, precedence lookup over it finds a
  // policy if and only if some active row matches, and finds the most specific one.
  lemma ResolutionRefinesTable(table: Table, projection: Projection, apiKey: Option<UUID>, route: string)
    requires RowsValid(table) && OneActivePerScope(table) && Agrees(table, projection) && ValidRoute(route)
    ensures MostSpecific(table, apiKey, route, FirstFound(projection, Candidates(apiKey, route)))
  {
    hide Lookup, Agrees, ValidScope, Specificity;
    var candidates := Candidates(apiKey, route);
    CandidatesInOrder(apiKey, route);
    FirstFoundIsFirst(projection, candidates);
    forall c | c in candidates
      ensures match Lookup(projection, c)
              case None => forall id :: id in table && table[id].isActive ==> table[id].scope != c
              case Some(p) => p.id in table && table[p.id] == p && p.isActive && p.scope == c
    {
      LookupIsTableQuery(table, projection, c);
    }
    forall id | id in table && Matches(table[id].scope, apiKey, route)
      ensures table[id].scope in candidates
    {
      CandidatesAreTheMatches(table[id].scope, apiKey, route);
    }
    match FirstFound(projection, candidates)
    case None =>
    case Some(r) =>
      var i :| 0 <= i < |candidates| && candidates[i] == r.matched
            && Lookup(projection, candidates[i]) == Some(r.policy)
            && forall j :: 0 <= j < i ==> Lookup(projection, candidates[j]).None?;
      forall id | id in table && table[id].isActive && Matches(table[id].scope, apiKey, route) && id != r.policy.id
        ensures Specificity(table[id].scope) < Specificity(r.policy.scope)
      {
        var j :| 0 <= j < |candidates| && candidates[j] == table[id].scope;
        assert j >= i && j != i;
      }
  }

  // Two requests share a bucket if and only if they were matched under the same scope.
  lemma SameBucketIffSameScope(entries: Projection, key1: Option<UUID>, route1: string,
                               key2: Option<UUID>, route2: string)
    requires ValidRoute(route1) && ValidRoute(route2)
    requires FirstFound(entries, Candidates(key1, route1)).Some?
    requires FirstFound(entries, Candidates(key2, route2)).Some?
    ensures var a := FirstFound(entries, Candidates(key1, route1)).value.matched;
            var b := FirstFound(entries, Candidates(key2, route2)).value.matched;
            BucketKey(a) == BucketKey(b) <==> a == b
  {
    hide Lookup, ValidScope, KeyFromParts;
    CandidatesInOrder(key1, route1);
    CandidatesInOrder(key2, route2);
    FirstFoundIsFirst(entries, Candidates(key1, route1));
    FirstFoundIsFirst(entries, Candidates(key2, route2));
    var a := FirstFound(entries, Candidates(key1, route1)).value.matched;
    var b := FirstFound(entries, Candidates(key2, route2)).value.matched;
    KeysInjective(BUCKET_PREFIX, a, b);
  }

  // So it does after every guarded run of the policy service.
  lemma ResolutionAfterGuardedRun(ops: seq<Op>, apiKey: Option<UUID>, route: string)
    requires GuardedRun(ops) && ValidRoute(route)
    ensures MostSpecific(Run(ops).table, apiKey, route,
                         FirstFound(Run(ops).projection, Candidates(apiKey, route)))
  {
    hide Run, Agrees, MostSpecific;
    RunTableSound(ops);
    GuardedRunsAgree(ops);
    ResolutionRefinesTable(Run(ops).table, Run(ops).projection, apiKey, route);
  }

  class Resolver {
    const reader: PolicyProjectionStore?

    constructor (reader: PolicyProjectionStore?)
      ensures this.reader == reader
    {
      this.reader := reader;
    }

    // With no reader there is nothing to find; a bad route is an error before any read.
    method Resolve(apiKey: Option<UUID>, rawRoute: string, redisUp: bool)
      returns (r: Result<Option<Resolution>, ResolveError>)
      ensures reader == null ==> r == Ok(None)
      ensures reader != null && !ValidRoute(TrimSpace(rawRoute)) ==> r == Err(InvalidRouteID)
      ensures reader != null && ValidRoute(TrimSpace(rawRoute)) ==>
                r == if redisUp then Ok(FirstFound(reader.entries, Candidates(apiKey, TrimSpace(rawRoute))))
                     else Err(ProjectionUnreadable)
    {
      if reader == null {
        return Ok(None);
      }
      var route := TrimSpace(rawRoute);
      if !ValidRoute(route) {
        return Err(InvalidRouteID);
      }
      var candidates := [];
      if apiKey.Some? {
        candidates := candidates + [Scope(API_KEY_ROUTE, apiKey, Some(route)), Scope(API_KEY, apiKey, None)];
      }
      candidates := candidates + [Scope(ROUTE, None, Some(route)), Scope(GLOBAL, None, None)];
      assert candidates == Candidates(apiKey, route);
      for i := 0 to |candidates|
        invariant redisUp || i == 0
        invariant FirstFound(reader.entries, candidates) == FirstFound(reader.entries, candidates[i..])
      {
        if !redisUp {
          return Err(ProjectionUnreadable);
        }
        var policy := reader.GetProjectedPolicy(candidates[i]);
        if policy.Some? {
          return Ok(Some(Resolution(policy.value, candidates[i])));
        }
        assert candidates[i..][1..] == candidates[i + 1..];
      }
      return Ok(None);
    }
  }
}
