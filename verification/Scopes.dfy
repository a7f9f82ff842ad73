// Scopes of policies and buckets, and the Redis keys built from them as strings.
module Scopes {
  import opened Wrappers

  // ---- UUIDs and their text form (section 4 of RFC 9562) ----

  newtype Byte = x: int | 0 <= x < 256

  type UUID = u: seq<Byte> | |u| == 16 witness seq(16, _ => 0)

  const DIGITS: string := "0123456789abcdef"

  function Hex(bytes: seq<Byte>): (s: string)
    ensures |s| == 2 * |bytes|
    ensures forall c :: c in s ==> c in DIGITS
  {
    if bytes == [] then ""
    else [DIGITS[bytes[0] as int / 16], DIGITS[bytes[0] as int % 16]] + Hex(bytes[1..])
  }

  // The value of a hexadecimal digit.
  function DigitValue(c: char): int {
    if '0' <= c <= '9' then c as int - '0' as int else c as int - 'a' as int + 10
  }

  // Each byte reads back from its two digits, the high one first.
  lemma {:induction false} HexReadsBack(bytes: seq<Byte>, i: nat)
    requires i < |bytes|
    ensures bytes[i] as int == 16 * DigitValue(Hex(bytes)[2 * i]) + DigitValue(Hex(bytes)[2 * i + 1])
  {
    if i == 0 {
      var x := bytes[0] as int;
      DigitsInOrder(x / 16);
      DigitsInOrder(x % 16);
      assert Hex(bytes)[0] == DIGITS[x / 16] && Hex(bytes)[1] == DIGITS[x % 16];
    } else {
      HexReadsBack(bytes[1..], i - 1);
      assert Hex(bytes)[2..] == Hex(bytes[1..]);
      assert Hex(bytes)[2 * i] == Hex(bytes)[2..][2 * (i - 1)];
      assert Hex(bytes)[2 * i + 1] == Hex(bytes)[2..][2 * (i - 1) + 1];
    }
  }

  lemma DigitsInOrder(k: nat)
    requires k < 16
    ensures DigitValue(DIGITS[k]) == k
  {
  }

  // Five groups of 4, 2, 2, 2 and 6 bytes, joined with dashes.
  function UUIDText(u: UUID): (s: string)
    ensures |s| == 36
    ensures forall i :: 0 <= i < 36 ==>
              if i == 8 || i == 13 || i == 18 || i == 23 then s[i] == '-' else s[i] in DIGITS
  {
    Hex(u[..4]) + ("-" + (Hex(u[4..6]) + ("-" + (Hex(u[6..8]) + ("-" + (Hex(u[8..10]) + ("-" + Hex(u[10..]))))))))
  }

  lemma DigitsDistinct(i: nat, j: nat)
    requires i < 16 && j < 16 && DIGITS[i] == DIGITS[j]
    ensures i == j
  {
  }

  lemma {:induction false} HexInjective(a: seq<Byte>, b: seq<Byte>)
    requires |a| == |b| && Hex(a) == Hex(b)
    ensures a == b
  {
    if a != [] {
      var x, y := a[0] as int, b[0] as int;
      assert Hex(a)[0] == DIGITS[x / 16] && Hex(a)[1] == DIGITS[x % 16];
      assert Hex(b)[0] == DIGITS[y / 16] && Hex(b)[1] == DIGITS[y % 16];
      DigitsDistinct(x / 16, y / 16);
      DigitsDistinct(x % 16, y % 16);
      assert x == 16 * (x / 16) + x % 16 && y == 16 * (y / 16) + y % 16;
      assert Hex(a)[2..] == Hex(a[1..]) && Hex(b)[2..] == Hex(b[1..]);
      HexInjective(a[1..], b[1..]);
    }
  }

  lemma {:induction false} HexHasNoColon(bytes: seq<Byte>)
    ensures ':' !in Hex(bytes)
  {
    if bytes != [] {
      HexHasNoColon(bytes[1..]);
    }
  }

  // Texts whose first groups have one length agree group by group.
  lemma FirstGroup(g: seq<Byte>, x: string, h: seq<Byte>, y: string)
    requires |g| == |h| && Hex(g) + ("-" + x) == Hex(h) + ("-" + y)
    ensures g == h && x == y
  {
    var s, t := Hex(g) + ("-" + x), Hex(h) + ("-" + y);
    assert Hex(g) == s[..2 * |g|] && Hex(h) == t[..2 * |g|];
    assert x == s[2 * |g| + 1..] && y == t[2 * |g| + 1..];
    HexInjective(g, h);
  }

  lemma UUIDTextInjective(u: UUID, v: UUID)
    requires UUIDText(u) == UUIDText(v)
    ensures u == v
  {
    hide Hex;
    var u4, v4 := Hex(u[10..]), Hex(v[10..]);
    var u3, v3 := Hex(u[8..10]) + ("-" + u4), Hex(v[8..10]) + ("-" + v4);
    var u2, v2 := Hex(u[6..8]) + ("-" + u3), Hex(v[6..8]) + ("-" + v3);
    var u1, v1 := Hex(u[4..6]) + ("-" + u2), Hex(v[4..6]) + ("-" + v2);
    FirstGroup(u[..4], u1, v[..4], v1);
    FirstGroup(u[4..6], u2, v[4..6], v2);
    FirstGroup(u[6..8], u3, v[6..8], v3);
    FirstGroup(u[8..10], u4, v[8..10], v4);
    HexInjective(u[10..], v[10..]);
    assert u == u[..4] + u[4..6] + u[6..8] + u[8..10] + u[10..];
    assert v == v[..4] + v[4..6] + v[6..8] + v[8..10] + v[10..];
  }

  // Where the digits of a byte stand in the text: after those of the bytes before it and
  // the dashes before its group.
  function DigitPosition(i: nat): nat {
    2 * i + (if i < 4 then 0 else if i < 6 then 1 else if i < 8 then 2 else if i < 10 then 3 else 4)
  }

  lemma UUIDTextReadsBack(u: UUID, i: nat)
    requires i < 16
    ensures DigitPosition(i) + 1 < 36
    ensures u[i] as int
         == 16 * DigitValue(UUIDText(u)[DigitPosition(i)]) + DigitValue(UUIDText(u)[DigitPosition(i) + 1])
  {
    hide Hex, DigitValue;
    if i < 4 {
      HexReadsBack(u[..4], i);
    } else if i < 6 {
      HexReadsBack(u[4..6], i - 4);
    } else if i < 8 {
      HexReadsBack(u[6..8], i - 6);
    } else if i < 10 {
      HexReadsBack(u[8..10], i - 8);
    } else {
      HexReadsBack(u[10..], i - 10);
    }
  }

  lemma UUIDTextHasNoColon(u: UUID)
    ensures ':' !in UUIDText(u)
  {
    HexHasNoColon(u[..4]);
    HexHasNoColon(u[4..6]);
    HexHasNoColon(u[6..8]);
    HexHasNoColon(u[8..10]);
    HexHasNoColon(u[10..]);
  }

  // ---- Scopes ----

  datatype Scope = Scope(scopeType: string, identifier: Option<UUID>, route: Option<string>)

  const GLOBAL: string := "global"
  const API_KEY: string := "api_key"
  const ROUTE: string := "route"
  const API_KEY_ROUTE: string := "api_key_route"

  predicate ValidRoute(route: string) {
    route == "ping" || route == "orders" || route == "report"
  }

  // The scopes that validation accepts and the table's checks repeat.
  predicate ValidScope(scope: Scope) {
    && (scope.route.Some? ==> ValidRoute(scope.route.value))
    && (|| (scope.scopeType == GLOBAL && scope.identifier.None? && scope.route.None?)
        || (scope.scopeType == API_KEY && scope.identifier.Some? && scope.route.None?)
        || (scope.scopeType == ROUTE && scope.identifier.None? && scope.route.Some?)
        || (scope.scopeType == API_KEY_ROUTE && scope.identifier.Some? && scope.route.Some?))
  }

  // ---- Keys ----

  const POLICY_PREFIX: string := "ratelimit:policy"
  const BUCKET_PREFIX: string := "ratelimit:bucket"
  const SUMMARY_KEY: string := "ratelimit:metrics:summary"

  function IdentifierText(identifier: Option<UUID>): string {
    match identifier
    case None => "default"
    case Some(u) => UUIDText(u)
  }

  function RouteText(route: Option<string>): string {
    match route
    case None => "ALL"
    case Some(r) => r
  }

  function KeyFromParts(prefix: string, scope: Scope): string {
    prefix + ":" + scope.scopeType + ":" + IdentifierText(scope.identifier) + ":" + RouteText(scope.route)
  }

  function PolicyKey(scope: Scope): string {
    KeyFromParts(POLICY_PREFIX, scope)
  }

  function BucketKey(scope: Scope): string {
    KeyFromParts(BUCKET_PREFIX, scope)
  }

  function AuthCacheKey(keyHash: string): string {
    "apikey:by_hash:" + keyHash
  }

  // The keys as they are documented.
  lemma KeyTexts(u: UUID, route: string, keyHash: string)
    ensures PolicyKey(Scope("global", None, None))
         == "ratelimit:policy" + ":" + "global" + ":" + "default" + ":" + "ALL"
    ensures BucketKey(Scope("global", None, None))
         == "ratelimit:bucket" + ":" + "global" + ":" + "default" + ":" + "ALL"
    ensures BucketKey(Scope("route", None, Some(route)))
         == "ratelimit:bucket" + ":" + "route" + ":" + "default" + ":" + route
    ensures PolicyKey(Scope("api_key", Some(u), None))
         == "ratelimit:policy" + ":" + "api_key" + ":" + UUIDText(u) + ":" + "ALL"
    ensures BucketKey(Scope("api_key_route", Some(u), Some(route)))
         == "ratelimit:bucket" + ":" + "api_key_route" + ":" + UUIDText(u) + ":" + route
    ensures SUMMARY_KEY == "ratelimit:metrics:summary"
    ensures AuthCacheKey(keyHash) == "apikey:by_hash:" + keyHash
  {
    hide UUIDText;
  }

  // The scopes that the table's checks let in: a known type, a known route if any, and the
  // fields that the type asks for.
  lemma ValidScopesAreTheTables(scope: Scope)
    ensures ValidScope(scope) <==>
              && scope.scopeType in {"global", "api_key", "route", "api_key_route"}
              && (scope.route == None || scope.route in {Some("ping"), Some("orders"), Some("report")})
              && (scope.identifier.Some? <==> scope.scopeType in {"api_key", "api_key_route"})
              && (scope.route.Some? <==> scope.scopeType in {"route", "api_key_route"})
  {
  }

  // ---- Separation ----

  // Two strings that agree up to a separator neither head contains agree in their parts.
  lemma SplitAtColon(a: string, x: string, b: string, y: string)
    requires ':' !in a && ':' !in b
    requires a + ":" + x == b + ":" + y
    ensures a == b && x == y
  {
    HeadNotShorter(a, x, b, y);
    HeadNotShorter(b, y, a, x);
    var s, t := a + ":" + x, b + ":" + y;
    assert a == s[..|a|] && b == t[..|b|];
    assert x == s[|a| + 1..] && y == t[|b| + 1..];
  }

  lemma HeadNotShorter(a: string, x: string, b: string, y: string)
    requires ':' !in b && a + ":" + x == b + ":" + y
    ensures |a| >= |b|
  {
    assert forall i :: 0 <= i < |b| ==> (b + ":" + y)[i] in b;
    assert (a + ":" + x)[|a|] == ':';
  }

  lemma SplitAtPrefix(p: string, x: string, y: string)
    requires p + x == p + y
    ensures x == y
  {
    assert x == (p + x)[|p|..];
    assert y == (p + y)[|p|..];
  }

  lemma IdentifierTextInjective(i: Option<UUID>, j: Option<UUID>)
    requires IdentifierText(i) == IdentifierText(j)
    ensures i == j
  {
    if i.Some? && j.Some? {
      UUIDTextInjective(i.value, j.value);
    }
  }

  lemma PartsHaveNoColon(scope: Scope)
    requires ValidScope(scope)
    ensures ':' !in scope.scopeType && ':' !in IdentifierText(scope.identifier)
  {
    if scope.identifier.Some? {
      UUIDTextHasNoColon(scope.identifier.value);
    }
  }

  lemma KeyRegroups(prefix: string, scope: Scope)
    ensures KeyFromParts(prefix, scope)
         == (prefix + ":")
            + (scope.scopeType + ":" + (IdentifierText(scope.identifier) + ":" + RouteText(scope.route)))
  {
  }

  // Over valid scopes the keys built under a prefix are injective in the scope.
  lemma KeysInjective(prefix: string, a: Scope, b: Scope)
    requires ValidScope(a) && ValidScope(b)
    ensures KeyFromParts(prefix, a) == KeyFromParts(prefix, b) <==> a == b
  {
    if KeyFromParts(prefix, a) == KeyFromParts(prefix, b) {
      KeyRegroups(prefix, a);
      KeyRegroups(prefix, b);
      PartsHaveNoColon(a);
      PartsHaveNoColon(b);
      var restA := IdentifierText(a.identifier) + ":" + RouteText(a.route);
      var restB := IdentifierText(b.identifier) + ":" + RouteText(b.route);
      SplitAtPrefix(prefix + ":", a.scopeType + ":" + restA, b.scopeType + ":" + restB);
      SplitAtColon(a.scopeType, restA, b.scopeType, restB);
      SplitAtColon(IdentifierText(a.identifier), RouteText(a.route),
                   IdentifierText(b.identifier), RouteText(b.route));
      IdentifierTextInjective(a.identifier, b.identifier);
    }
  }

  // The key families share one Redis database and never meet, whatever the scopes.
  lemma KeyFamiliesDisjoint(a: Scope, b: Scope, keyHash: string)
    ensures PolicyKey(a) != BucketKey(b)
    ensures PolicyKey(a) != SUMMARY_KEY && BucketKey(b) != SUMMARY_KEY
    ensures AuthCacheKey(keyHash) != PolicyKey(a) && AuthCacheKey(keyHash) != BucketKey(b)
    ensures AuthCacheKey(keyHash) != SUMMARY_KEY
  {
    assert PolicyKey(a)[10] == 'p' && BucketKey(b)[10] == 'b' && SUMMARY_KEY[10] == 'm';
    assert PolicyKey(a)[0] == 'r' && BucketKey(b)[0] == 'r' && SUMMARY_KEY[0] == 'r';
    assert AuthCacheKey(keyHash)[0] == 'a';
  }

  // Validation is what makes the keys injective: a route named like the marker for every
  // route would share the marker's key.
  lemma UnvalidatedKeysCollide(prefix: string)
    ensures var a := Scope(ROUTE, None, Some("ALL"));
            var b := Scope(ROUTE, None, None);
            a != b && KeyFromParts(prefix, a) == KeyFromParts(prefix, b) && !ValidScope(a)
  {
  }
}
