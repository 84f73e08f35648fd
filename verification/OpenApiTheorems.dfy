/** The exact round trip of contracts through OpenAPI, and its idempotence. */
module OpenApiTheorems {
  import opened Collections
  import opened ContractModel
  import opened JsonTree
  import opened OpenApiDocument
  import opened OpenApiRoundTrip
  import opened Ordering
  import opened Text
  import opened Wrappers

  // ---------------------------------------------------------------- canonical contracts

  ghost predicate CanonicalBody(b: Option<MediaType>) {
    b.Some? ==> b.value.contentType != ""
  }

  ghost predicate CanonicalAuth(a: Auth) {
    && (a.typ == "none" ==> a.scheme == "" && a.scopes == [])
    && (a.typ == "http" ==> a.scheme != "")
    && (a.typ != "http" ==> a.scheme == "")
  }

  ghost predicate CanonicalOperation(op: Operation) {
    && CanonicalBody(op.requestBody)
    && (forall code | code in op.responses :: CanonicalBody(op.responses[code].body))
    && (forall i | 0 <= i < |op.auth| :: CanonicalAuth(op.auth[i]))
  }

  ghost predicate CanonicalEndpoint(e: Endpoint) {
    && e.operations != map[]
    && forall v | v in e.operations :: v in VALID_METHODS && CanonicalOperation(e.operations[v])
  }

  /** Requirements at the same list position share a scheme name, so they have to agree. */
  ghost predicate Agree(endpoints: seq<Endpoint>) {
    forall a, b, i | Occurs(endpoints, a, i) && Occurs(endpoints, b, i) && a.typ != "none" && b.typ != "none" ::
      a.typ == b.typ && a.scheme == b.scheme
  }

  ghost predicate Canonical(c: Contract) {
    && c.schemaVersion == CURRENT_SCHEMA_VERSION
    && !Blank(c.info.title)
    && !Blank(c.info.version)
    && (forall i | 0 <= i < |c.servers| :: !Blank(c.servers[i].url))
    && AllCanonical(c.endpoints)
    && Agree(c.endpoints)
  }

  /** The endpoints in the order of their paths. */
  ghost function InPathOrder(endpoints: seq<Endpoint>, keys: seq<string>): (r: seq<Endpoint>)
    requires forall k | k in keys :: k in PathSet(endpoints)
    ensures |r| == |keys| && forall i | 0 <= i < |keys| :: r[i] == EndpointAt(endpoints, keys[i])
  {
    seq(|keys|, i requires 0 <= i < |keys| => assert keys[i] in keys; EndpointAt(endpoints, keys[i]))
  }

  ghost function SortedEndpoints(endpoints: seq<Endpoint>): seq<Endpoint> {
    InPathOrder(endpoints, SortedKeys(PathSet(endpoints)))
  }

  // ---------------------------------------------------------------- auth

  /** What a scheme object says about any requirement that resolves to it. */
  ghost function SchemeOf(a: Auth): string {
    if a.typ != "http" then "" else if a.scheme == "" then "bearer" else a.scheme
  }

  /** The normal form of requirement number i takes its type and scheme from one occurrence. */
  lemma NormalAuthSource(endpoints: seq<Endpoint>, e: Endpoint, v: string, i: nat) returns (b: Auth)
    requires e in endpoints && v in e.operations && i < |e.operations[v].auth|
    requires Supported(e.operations[v].auth) && e.operations[v].auth[i].typ != "none"
    ensures SchemeName(i) in SchemeTable(endpoints)
    ensures ExportScheme(b) == Some(SchemeTable(endpoints)[SchemeName(i)])
    ensures Occurs(endpoints, b, i)
    ensures NormalAuth(e.operations[v].auth[i], i, SchemeTable(endpoints))
            == Auth(b.typ, SchemeOf(b), e.operations[v].auth[i].scopes)
  {
    SupportedHasScheme(e.operations[v].auth[i]);
    TableComplete(endpoints, e, v, i);
    var k: nat;
    b, k := TableSound(endpoints, SchemeName(i));
    SchemeNamesDiffer();
    SchemeReadBack(b, SchemeTable(endpoints), SchemeName(i), e.operations[v].auth[i].scopes);
  }

  ghost predicate AuthFixed(endpoints: seq<Endpoint>) {
    forall e, v | e in endpoints && v in e.operations ::
      NormalAuths(e.operations[v].auth, SchemeTable(endpoints)) == e.operations[v].auth
  }

  ghost predicate AuthCanonical(endpoints: seq<Endpoint>) {
    forall e, v, i | e in endpoints && v in e.operations && 0 <= i < |e.operations[v].auth| ::
      CanonicalAuth(e.operations[v].auth[i])
  }

  lemma AgreesWithSource(endpoints: seq<Endpoint>, a: Auth, b: Auth, i: nat)
    requires Agree(endpoints) && Occurs(endpoints, a, i) && Occurs(endpoints, b, i)
    requires a.typ != "none" && ExportScheme(b).Some? && CanonicalAuth(a)
    ensures Auth(b.typ, SchemeOf(b), a.scopes) == a
  {
  }

  lemma AuthFixedAt(endpoints: seq<Endpoint>, e: Endpoint, v: string, i: nat)
    requires Agree(endpoints) && e in endpoints && v in e.operations && Supported(e.operations[v].auth)
    requires i < |e.operations[v].auth| && CanonicalAuth(e.operations[v].auth[i])
    ensures NormalAuth(e.operations[v].auth[i], i, SchemeTable(endpoints)) == e.operations[v].auth[i]
  {
    var a := e.operations[v].auth[i];
    if a.typ != "none" {
      var b := NormalAuthSource(endpoints, e, v, i);
      assert OccursIn(e.operations[v], a, i);
      AgreesWithSource(endpoints, a, b, i);
    }
  }

  lemma AuthFixedWhenCanonical(endpoints: seq<Endpoint>, e: Endpoint, v: string)
    requires AllSupported(endpoints) && AuthCanonical(endpoints) && Agree(endpoints)
    requires e in endpoints && v in e.operations
    ensures NormalAuths(e.operations[v].auth, SchemeTable(endpoints)) == e.operations[v].auth
  {
    forall i | 0 <= i < |e.operations[v].auth|
      ensures NormalAuth(e.operations[v].auth[i], i, SchemeTable(endpoints)) == e.operations[v].auth[i]
    {
      AuthFixedAt(endpoints, e, v, i);
    }
  }

  lemma CanonicalWhenAuthFixed(endpoints: seq<Endpoint>)
    requires AllSupported(endpoints) && AuthFixed(endpoints)
    ensures AuthCanonical(endpoints) && Agree(endpoints)
  {
    forall e, v, i | e in endpoints && v in e.operations && 0 <= i < |e.operations[v].auth|
      ensures CanonicalAuth(e.operations[v].auth[i])
    {
      var a := e.operations[v].auth[i];
      assert a == NormalAuth(a, i, SchemeTable(endpoints));
      if a.typ != "none" { var b := NormalAuthSource(endpoints, e, v, i); }
    }
    forall a, b, i | Occurs(endpoints, a, i) && Occurs(endpoints, b, i) && a.typ != "none" && b.typ != "none"
      ensures a.typ == b.typ && a.scheme == b.scheme
    {
      FixedByTable(endpoints, a, i);
      FixedByTable(endpoints, b, i);
    }
  }

  /** A fixed requirement's type and scheme are read off the table entry of its position. */
  lemma FixedByTable(endpoints: seq<Endpoint>, a: Auth, i: nat)
    requires AllSupported(endpoints) && AuthFixed(endpoints)
    requires Occurs(endpoints, a, i) && a.typ != "none"
    ensures var table := SchemeTable(endpoints);
            var r := ImportRequirement(table, SchemeName(i), Arr([]));
            r.Some? && a.typ == r.value.typ && a.scheme == r.value.scheme
  {
    var e, v :| e in endpoints && v in e.operations && OccursIn(e.operations[v], a, i);
    assert NormalAuths(e.operations[v].auth, SchemeTable(endpoints))[i] == a;
    var b := NormalAuthSource(endpoints, e, v, i);
    SchemeReadBack(b, SchemeTable(endpoints), SchemeName(i), []);
    assert MapSeq(StrOf, []) == [];
  }

  // ---------------------------------------------------------------- operations

  lemma BodyFixed(b: Option<MediaType>)
    ensures NormalBody(b) == b <==> CanonicalBody(b)
  {
  }

  lemma ResponsesFixed(responses: map<string, Result>)
    ensures NormalResponses(responses) == responses
            <==> forall code | code in responses :: CanonicalBody(responses[code].body)
  {
    var normal := NormalResponses(responses);
    forall code | code in responses
      ensures normal[code] == responses[code] <==> CanonicalBody(responses[code].body)
    {
      BodyFixed(responses[code].body);
    }
    if forall code | code in responses :: CanonicalBody(responses[code].body) {
      MapsEqual(normal, responses);
    }
  }

  ghost predicate CanonicalBodies(op: Operation) {
    CanonicalBody(op.requestBody) && forall code | code in op.responses :: CanonicalBody(op.responses[code].body)
  }

  lemma OperationFixed(op: Operation, table: Fields)
    ensures NormalOperation(op, table) == op <==> CanonicalBodies(op) && NormalAuths(op.auth, table) == op.auth
  {
    BodyFixed(op.requestBody);
    ResponsesFixed(op.responses);
  }

  lemma VerbsDistinct()
    ensures forall i, j | 0 <= i < j < |VERBS| :: VERBS[i].upper != VERBS[j].upper && VERBS[i].lower != VERBS[j].lower
  {
    assert "GET"[0] != "PUT"[0] && "POST"[0] != "HEAD"[0];
    assert "get"[0] != "put"[0] && "post"[0] != "head"[0];
  }

  lemma LowerOfUpper()
    ensures forall i | 0 <= i < |VERBS| :: ToLower(VERBS[i].upper) == VERBS[i].lower
    ensures forall v :: v in VALID_METHODS <==> exists i :: 0 <= i < |VERBS| && VERBS[i].upper == v
  {
    assert ToLower("GET") == "get" && ToLower("POST") == "post" && ToLower("PUT") == "put";
    assert ToLower("PATCH") == "patch" && ToLower("DELETE") == "delete";
    assert ToLower("HEAD") == "head" && ToLower("OPTIONS") == "options";
    forall v | v in VALID_METHODS ensures exists i :: 0 <= i < |VERBS| && VERBS[i].upper == v {
      assert VERBS[0].upper == v || VERBS[1].upper == v || VERBS[2].upper == v || VERBS[3].upper == v
          || VERBS[4].upper == v || VERBS[5].upper == v || VERBS[6].upper == v;
    }
  }

  ghost predicate DistinctUppers(verbs: seq<Verb>) {
    forall i, j | 0 <= i < j < |verbs| :: verbs[i].upper != verbs[j].upper
  }

  lemma {:induction false} NormalVerbsKeys(ops: map<string, Operation>, table: Fields, verbs: seq<Verb>, k: string)
    ensures k in NormalVerbs(ops, table, verbs) ==> exists i :: 0 <= i < |verbs| && verbs[i].upper == k
  {
    if verbs != [] {
      var n := |verbs| - 1;
      NormalVerbsKeys(ops, table, verbs[..n], k);
      if k in NormalVerbs(ops, table, verbs[..n]) {
        var i :| 0 <= i < n && verbs[..n][i].upper == k;
        assert verbs[i].upper == k;
      }
    }
  }

  /** `m` holds under a verb's upper-case name what the winner for its lower-case name becomes. */
  ghost predicate HoldsWinner(m: map<string, Operation>, verb: Verb, ops: map<string, Operation>, table: Fields) {
    var winner := Winner(ops, verb.lower);
    && (verb.upper in m <==> winner.Some?)
    && (winner.Some? ==> m[verb.upper] == NormalOperation(ops[winner.value], table))
  }

  lemma HoldsWinnerKept(m: map<string, Operation>, verb: Verb, ops: map<string, Operation>, table: Fields,
                        other: string, op: Operation)
    requires HoldsWinner(m, verb, ops, table) && other != verb.upper
    ensures HoldsWinner(m[other := op], verb, ops, table)
  {
  }

  lemma {:induction false} NormalVerbsAt(ops: map<string, Operation>, table: Fields, verbs: seq<Verb>, i: nat)
    requires DistinctUppers(verbs) && i < |verbs|
    ensures HoldsWinner(NormalVerbs(ops, table, verbs), verbs[i], ops, table)
  {
    var n := |verbs| - 1;
    var before := NormalVerbs(ops, table, verbs[..n]);
    var winner := Winner(ops, verbs[n].lower);
    if i < n {
      NormalVerbsAt(ops, table, verbs[..n], i);
      if winner.Some? {
        HoldsWinnerKept(before, verbs[i], ops, table, verbs[n].upper, NormalOperation(ops[winner.value], table));
      }
    } else {
      NormalVerbsKeys(ops, table, verbs[..n], verbs[n].upper);
      assert verbs[n].upper !in before by {
        assert forall k | 0 <= k < n :: verbs[..n][k].upper == verbs[k].upper != verbs[n].upper;
      }
    }
  }

  /** Of several keys that agree in lower case one wins; a supported key meets no other supported one. */
  lemma WinnerIsUpper(ops: map<string, Operation>, i: nat)
    requires i < |VERBS| && forall v | v in ops :: v in VALID_METHODS
    ensures Winner(ops, VERBS[i].lower) == if VERBS[i].upper in ops then Some(VERBS[i].upper) else None
  {
    VerbsDistinct();
    LowerOfUpper();
    var winner := Winner(ops, VERBS[i].lower);
    if winner.Some? {
      var j :| 0 <= j < |VERBS| && VERBS[j].upper == winner.value;
      assert VERBS[j].lower == VERBS[i].lower;
    }
  }

  ghost predicate OperationsFixed(ops: map<string, Operation>, table: Fields) {
    forall v | v in ops :: v in VALID_METHODS && NormalOperation(ops[v], table) == ops[v]
  }

  lemma FixedWhenOperationsFixed(ops: map<string, Operation>, table: Fields)
    requires OperationsFixed(ops, table)
    ensures NormalOperations(ops, table) == ops
  {
    var normal := NormalOperations(ops, table);
    VerbsDistinct();
    LowerOfUpper();
    forall k ensures k in normal <==> k in ops
             ensures k in normal ==> normal[k] == ops[k]
    {
      NormalVerbsKeys(ops, table, VERBS, k);
      if k in normal || k in ops {
        var i :| 0 <= i < |VERBS| && VERBS[i].upper == k;
        NormalVerbsAt(ops, table, VERBS, i);
        WinnerIsUpper(ops, i);
      }
    }
    MapsEqual(normal, ops);
  }

  lemma OperationsFixedWhenFixed(ops: map<string, Operation>, table: Fields)
    requires NormalOperations(ops, table) == ops
    ensures OperationsFixed(ops, table)
  {
    VerbsDistinct();
    LowerOfUpper();
    forall v | v in ops ensures v in VALID_METHODS {
      NormalVerbsKeys(ops, table, VERBS, v);
    }
    forall v | v in ops ensures NormalOperation(ops[v], table) == ops[v] {
      var i :| 0 <= i < |VERBS| && VERBS[i].upper == v;
      NormalVerbsAt(ops, table, VERBS, i);
      WinnerIsUpper(ops, i);
    }
  }

  // ---------------------------------------------------------------- endpoints and servers

  ghost predicate EndpointFixed(e: Endpoint, table: Fields) {
    e.operations != map[] && NormalOperations(e.operations, table) == e.operations
  }

  ghost predicate EachFixed(endpoints: seq<Endpoint>, table: Fields) {
    forall e | e in endpoints :: EndpointFixed(e, table)
  }

  lemma EachFixedCons(e: Endpoint, rest: seq<Endpoint>, table: Fields)
    ensures EachFixed([e] + rest, table) <==> EndpointFixed(e, table) && EachFixed(rest, table)
  {
    assert forall x :: x in [e] + rest <==> x == e || x in rest;
  }

  lemma InPathOrderCons(endpoints: seq<Endpoint>, keys: seq<string>)
    requires keys != [] && forall k | k in keys :: k in PathSet(endpoints)
    ensures keys[0] in keys
    ensures InPathOrder(endpoints, keys) == [EndpointAt(endpoints, keys[0])] + InPathOrder(endpoints, keys[1..])
  {
  }

  /** No endpoint is dropped or changed exactly when each is its own normal form. */
  lemma {:induction false} EndpointsFixed(endpoints: seq<Endpoint>, keys: seq<string>, table: Fields)
    requires forall k | k in keys :: k in PathSet(endpoints)
    ensures |NormalEndpoints(endpoints, keys, table)| <= |keys|
    ensures NormalEndpoints(endpoints, keys, table) == InPathOrder(endpoints, keys)
            <==> EachFixed(InPathOrder(endpoints, keys), table)
  {
    if keys != [] {
      InPathOrderCons(endpoints, keys);
      EndpointsFixed(endpoints, keys[1..], table);
      var e, sorted := EndpointAt(endpoints, keys[0]), InPathOrder(endpoints, keys[1..]);
      EachFixedCons(e, sorted, table);
      var ops := NormalOperations(e.operations, table);
      ConsEqual(Endpoint(keys[0], ops), NormalEndpoints(endpoints, keys[1..], table), e, sorted);
    }
  }

  lemma {:induction false} ServersFixed(servers: seq<Server>)
    ensures |NormalServers(servers)| <= |servers|
    ensures NormalServers(servers) == servers <==> forall i | 0 <= i < |servers| :: !Blank(servers[i].url)
  {
    if servers != [] {
      ServersFixed(servers[1..]);
      assert servers == [servers[0]] + servers[1..];
    }
  }

  /** Sorting by path permutes the endpoints when their paths differ. */
  lemma SortedIsPermutation(endpoints: seq<Endpoint>)
    requires UniquePaths(endpoints)
    ensures forall e :: e in SortedEndpoints(endpoints) <==> e in endpoints
    ensures UniquePaths(SortedEndpoints(endpoints))
    ensures Ascending(MapSeq(PathOf, SortedEndpoints(endpoints)))
  {
    var keys := SortedKeys(PathSet(endpoints));
    var sorted := SortedEndpoints(endpoints);
    forall e | e in endpoints ensures e in sorted {
      assert e.path in keys;
      var i :| 0 <= i < |keys| && keys[i] == e.path;
      AtOwnPath(endpoints, e);
      assert sorted[i] == e;
    }
    forall e | e in sorted ensures e in endpoints {
      var i :| 0 <= i < |keys| && sorted[i] == e;
      assert keys[i] in keys;
    }
    forall i | 0 <= i < |keys| ensures sorted[i].path == keys[i] {
      assert keys[i] in keys;
    }
    assert MapSeq(PathOf, sorted) == keys;
  }

  function PathOf(e: Endpoint): string {
    e.path
  }

  lemma AtOwnPath(endpoints: seq<Endpoint>, e: Endpoint)
    requires UniquePaths(endpoints) && e in endpoints
    ensures EndpointAt(endpoints, e.path) == e
  {
    var f := EndpointAt(endpoints, e.path);
    var i :| 0 <= i < |endpoints| && endpoints[i] == e;
    var j :| 0 <= j < |endpoints| && endpoints[j] == f;
    assert i == j;
  }

  // ---------------------------------------------------------------- the theorems

  ghost predicate AllCanonical(endpoints: seq<Endpoint>) {
    forall e | e in endpoints :: CanonicalEndpoint(e)
  }

  ghost predicate AllFixed(endpoints: seq<Endpoint>) {
    forall e | e in endpoints :: EndpointFixed(e, SchemeTable(endpoints))
  }

  lemma CanonicalIsAuthCanonical(endpoints: seq<Endpoint>)
    requires AllCanonical(endpoints)
    ensures AuthCanonical(endpoints)
  {
    forall e, v, i | e in endpoints && v in e.operations && 0 <= i < |e.operations[v].auth|
      ensures CanonicalAuth(e.operations[v].auth[i])
    {
      assert CanonicalEndpoint(e) && CanonicalOperation(e.operations[v]);
    }
  }

  lemma FixedWhenCanonical(endpoints: seq<Endpoint>, e: Endpoint)
    requires AllSupported(endpoints) && AuthCanonical(endpoints) && Agree(endpoints)
    requires e in endpoints && CanonicalEndpoint(e)
    ensures EndpointFixed(e, SchemeTable(endpoints))
  {
    forall v | v in e.operations
      ensures NormalOperation(e.operations[v], SchemeTable(endpoints)) == e.operations[v]
    {
      assert CanonicalOperation(e.operations[v]);
      AuthFixedWhenCanonical(endpoints, e, v);
      OperationFixed(e.operations[v], SchemeTable(endpoints));
    }
    FixedWhenOperationsFixed(e.operations, SchemeTable(endpoints));
  }

  lemma OperationsWhenFixed(e: Endpoint, table: Fields)
    requires EndpointFixed(e, table)
    ensures forall v | v in e.operations ::
              && v in VALID_METHODS && CanonicalBodies(e.operations[v])
              && NormalAuths(e.operations[v].auth, table) == e.operations[v].auth
  {
    OperationsFixedWhenFixed(e.operations, table);
    forall v | v in e.operations
      ensures CanonicalBodies(e.operations[v]) && NormalAuths(e.operations[v].auth, table) == e.operations[v].auth
    {
      OperationFixed(e.operations[v], table);
    }
  }

  lemma CanonicalWhenFixed(endpoints: seq<Endpoint>)
    requires AllSupported(endpoints) && AllFixed(endpoints)
    ensures AllCanonical(endpoints) && Agree(endpoints)
  {
    forall e | e in endpoints
      ensures forall v | v in e.operations ::
                && v in VALID_METHODS && CanonicalBodies(e.operations[v])
                && NormalAuths(e.operations[v].auth, SchemeTable(endpoints)) == e.operations[v].auth
    {
      OperationsWhenFixed(e, SchemeTable(endpoints));
    }
    CanonicalWhenAuthFixed(endpoints);
    forall e | e in endpoints ensures CanonicalEndpoint(e) {
      assert EndpointFixed(e, SchemeTable(endpoints));
      forall v | v in e.operations ensures CanonicalOperation(e.operations[v]) {
        assert CanonicalBodies(e.operations[v]);
      }
    }
  }

  lemma CanonicalMeansFixed(endpoints: seq<Endpoint>)
    requires AllSupported(endpoints)
    ensures AllCanonical(endpoints) && Agree(endpoints) <==> AllFixed(endpoints)
  {
    if AllCanonical(endpoints) && Agree(endpoints) {
      CanonicalIsAuthCanonical(endpoints);
      forall e | e in endpoints ensures EndpointFixed(e, SchemeTable(endpoints)) {
        FixedWhenCanonical(endpoints, e);
      }
    }
    if AllFixed(endpoints) {
      CanonicalWhenFixed(endpoints);
    }
  }

  lemma SortedWhenAllFixed(endpoints: seq<Endpoint>)
    requires UniquePaths(endpoints)
    ensures NormalEndpoints(endpoints, SortedKeys(PathSet(endpoints)), SchemeTable(endpoints)) ==
            SortedEndpoints(endpoints)
            <==> AllFixed(endpoints)
  {
    SortedIsPermutation(endpoints);
    var sorted := InPathOrder(endpoints, SortedKeys(PathSet(endpoints)));
    EndpointsFixed(endpoints, SortedKeys(PathSet(endpoints)), SchemeTable(endpoints));
    assert EachFixed(sorted, SchemeTable(endpoints)) <==> AllFixed(endpoints);
  }

  /**
   The round trip with its exact condition: export followed by import gives the same
   contract, endpoints sorted by path, if and only if the contract is canonical.
   */
  lemma RoundTripIffCanonical(c: Contract)
    requires AllSupported(c.endpoints) && UniquePaths(c.endpoints)
    ensures ImportDocument(ExportDocument(c)) == c.(endpoints := SortedEndpoints(c.endpoints)) <==> Canonical(c)
  {
    ImportOfExport(c);
    ServersFixed(c.servers);
    InfoFixed(c.info);
    SortedWhenAllFixed(c.endpoints);
    CanonicalMeansFixed(c.endpoints);
  }

  lemma NonBlankFallbacks()
    ensures !Blank("Imported API") && !Blank("0.1.0")
  {
    assert !IsSpace("Imported API"[0]) && !IsSpace("0.1.0"[0]);
  }

  lemma InfoFixed(info: Info)
    ensures NormalInfo(info) == info <==> !Blank(info.title) && !Blank(info.version)
  {
    NonBlankFallbacks();
  }

  /** A valid canonical contract comes back unchanged up to endpoint order, and validates again. */
  lemma ValidRoundTrip(c: Contract)
    requires IsValid(c) && Canonical(c)
    ensures ImportDocument(ExportDocument(c)) == c.(endpoints := SortedEndpoints(c.endpoints))
    ensures IsValid(ImportDocument(ExportDocument(c)))
  {
    forall e, v | e in c.endpoints && v in e.operations ensures Supported(e.operations[v].auth) {
      assert ValidEndpoint(e);
      assert ValidOperation(e.path, v, e.operations[v]);
    }
    RoundTripIffCanonical(c);
    SortedIsPermutation(c.endpoints);
    var sorted := SortedEndpoints(c.endpoints);
    assert c.endpoints[0] in sorted;
    forall i | 0 <= i < |sorted| ensures ValidEndpoint(sorted[i]) {
      assert sorted[i] in sorted;
    }
  }

  // ---------------------------------------------------------------- idempotence

  /** Type and scheme are what the table holds for the position. */
  ghost predicate FromTable(a: Auth, i: nat, table: Fields) {
    var r := ImportRequirement(table, SchemeName(i), Arr([]));
    r.Some? && a.typ == r.value.typ && a.scheme == r.value.scheme
  }

  lemma NormalAuthIsCanonical(endpoints: seq<Endpoint>, e: Endpoint, v: string, i: nat)
    requires e in endpoints && v in e.operations && i < |e.operations[v].auth| && Supported(e.operations[v].auth)
    ensures var a := NormalAuth(e.operations[v].auth[i], i, SchemeTable(endpoints));
            && a.typ in VALID_AUTH_TYPES && CanonicalAuth(a)
            && (a.typ != "none" ==> FromTable(a, i, SchemeTable(endpoints)))
  {
    if e.operations[v].auth[i].typ != "none" {
      var b := NormalAuthSource(endpoints, e, v, i);
      SchemeReadBack(b, SchemeTable(endpoints), SchemeName(i), []);
      assert MapSeq(StrOf, []) == [];
      SchemeTypes(b);
    }
  }

  lemma SchemeTypes(b: Auth)
    requires ExportScheme(b).Some?
    ensures b.typ in VALID_AUTH_TYPES && b.typ != "none" && CanonicalAuth(Auth(b.typ, SchemeOf(b), []))
  {
  }

  /** An operation in normal form: supported, canonical, and agreeing with the table. */
  ghost predicate Normalized(op: Operation, table: Fields) {
    && CanonicalBodies(op)
    && forall i | 0 <= i < |op.auth| ::
         && op.auth[i].typ in VALID_AUTH_TYPES && CanonicalAuth(op.auth[i])
         && (op.auth[i].typ != "none" ==> FromTable(op.auth[i], i, table))
  }

  lemma NormalOperationIsNormalized(endpoints: seq<Endpoint>, e: Endpoint, v: string)
    requires e in endpoints && v in e.operations && Supported(e.operations[v].auth)
    ensures Normalized(NormalOperation(e.operations[v], SchemeTable(endpoints)), SchemeTable(endpoints))
  {
    var op := NormalOperation(e.operations[v], SchemeTable(endpoints));
    forall i | 0 <= i < |op.auth|
      ensures op.auth[i].typ in VALID_AUTH_TYPES && CanonicalAuth(op.auth[i])
      ensures op.auth[i].typ != "none" ==> FromTable(op.auth[i], i, SchemeTable(endpoints))
    {
      NormalAuthIsCanonical(endpoints, e, v, i);
    }
  }

  lemma NormalOperationsAreNormalized(endpoints: seq<Endpoint>, e: Endpoint, v: string)
    requires AllSupported(endpoints) && e in endpoints && v in NormalOperations(e.operations, SchemeTable(endpoints))
    ensures v in VALID_METHODS
    ensures Normalized(NormalOperations(e.operations, SchemeTable(endpoints))[v], SchemeTable(endpoints))
  {
    VerbsDistinct();
    LowerOfUpper();
    NormalVerbsKeys(e.operations, SchemeTable(endpoints), VERBS, v);
    var i :| 0 <= i < |VERBS| && VERBS[i].upper == v;
    NormalVerbsAt(e.operations, SchemeTable(endpoints), VERBS, i);
    NormalOperationIsNormalized(endpoints, e, Winner(e.operations, VERBS[i].lower).value);
  }

  ghost predicate OperationsNormalized(ops: map<string, Operation>, table: Fields) {
    forall v | v in ops :: v in VALID_METHODS && Normalized(ops[v], table)
  }

  ghost predicate AllNormalized(endpoints: seq<Endpoint>, table: Fields) {
    forall e | e in endpoints ::
      e.operations != map[] && OperationsNormalized(e.operations, table)
  }

  lemma NormalEndpointNormalized(endpoints: seq<Endpoint>, e: Endpoint)
    requires AllSupported(endpoints) && e in endpoints
    ensures OperationsNormalized(NormalOperations(e.operations, SchemeTable(endpoints)), SchemeTable(endpoints))
  {
    forall v | v in NormalOperations(e.operations, SchemeTable(endpoints))
      ensures v in VALID_METHODS
      ensures Normalized(NormalOperations(e.operations, SchemeTable(endpoints))[v], SchemeTable(endpoints))
    {
      NormalOperationsAreNormalized(endpoints, e, v);
    }
  }

  lemma AllNormalizedCons(path: string, ops: map<string, Operation>, rest: seq<Endpoint>, table: Fields)
    requires ops != map[] && OperationsNormalized(ops, table) && AllNormalized(rest, table)
    ensures AllNormalized([Endpoint(path, ops)] + rest, table)
  {
  }

  lemma {:induction false} NormalEndpointsNormalized(endpoints: seq<Endpoint>, keys: seq<string>)
    requires AllSupported(endpoints) && forall k | k in keys :: k in PathSet(endpoints)
    ensures AllNormalized(NormalEndpoints(endpoints, keys, SchemeTable(endpoints)), SchemeTable(endpoints))
  {
    if keys != [] {
      assert keys[0] in keys;
      NormalEndpointsNormalized(endpoints, keys[1..]);
      var e, table := EndpointAt(endpoints, keys[0]), SchemeTable(endpoints);
      NormalEndpointNormalized(endpoints, e);
      var ops := NormalOperations(e.operations, table);
      if ops != map[] {
        AllNormalizedCons(keys[0], ops, NormalEndpoints(endpoints, keys[1..], table), table);
      }
    }
  }

  lemma AscendingCons(k: string, rest: seq<string>)
    requires Ascending(rest) && forall p | p in rest :: Leq(k, p) && k != p
    ensures Ascending([k] + rest)
  {
    var all := [k] + rest;
    forall i, j | 0 <= i < j < |all| ensures Leq(all[i], all[j]) && all[i] != all[j] {
      assert all[j] in rest;
      if i > 0 { assert all[i] == rest[i - 1] && all[j] == rest[j - 1]; }
    }
  }

  lemma NormalPathsCons(endpoints: seq<Endpoint>, keys: seq<string>, table: Fields)
    requires keys != [] && forall k | k in keys :: k in PathSet(endpoints)
    ensures var rest := MapSeq(PathOf, NormalEndpoints(endpoints, keys[1..], table));
            var paths := MapSeq(PathOf, NormalEndpoints(endpoints, keys, table));
            paths == rest || paths == [keys[0]] + rest
  {
    assert keys[0] in keys;
    PathsOfCons(keys[0], NormalOperations(EndpointAt(endpoints, keys[0]).operations, table),
                NormalEndpoints(endpoints, keys[1..], table));
  }

  lemma PathsOfCons(path: string, ops: map<string, Operation>, rest: seq<Endpoint>)
    ensures MapSeq(PathOf, [Endpoint(path, ops)] + rest) == [path] + MapSeq(PathOf, rest)
  {
  }

  lemma AscendWithin(keys: seq<string>, rest: seq<string>, paths: seq<string>)
    requires keys != [] && Ascending(keys) && Ascending(rest)
    requires (forall p | p in rest :: p in keys[1..]) && (paths == rest || paths == [keys[0]] + rest)
    ensures Ascending(paths) && forall p | p in paths :: p in keys
  {
    AscendingCons(keys[0], rest);
  }

  lemma {:induction false} NormalEndpointsAscend(endpoints: seq<Endpoint>, keys: seq<string>, table: Fields)
    requires Ascending(keys) && forall k | k in keys :: k in PathSet(endpoints)
    ensures var paths := MapSeq(PathOf, NormalEndpoints(endpoints, keys, table));
            Ascending(paths) && forall p | p in paths :: p in keys
  {
    if keys != [] {
      NormalEndpointsAscend(endpoints, keys[1..], table);
      NormalPathsCons(endpoints, keys, table);
      AscendWithin(keys, MapSeq(PathOf, NormalEndpoints(endpoints, keys[1..], table)),
                   MapSeq(PathOf, NormalEndpoints(endpoints, keys, table)));
    }
  }

  lemma NormalizedIsCanonical(endpoints: seq<Endpoint>, table: Fields)
    requires AllNormalized(endpoints, table)
    ensures AllSupported(endpoints) && AllCanonical(endpoints) && Agree(endpoints)
  {
    forall e | e in endpoints ensures CanonicalEndpoint(e) {
      forall v | v in e.operations ensures CanonicalOperation(e.operations[v]) {
        assert Normalized(e.operations[v], table);
      }
    }
    forall a, i | Occurs(endpoints, a, i) && a.typ != "none" ensures FromTable(a, i, table) {
      var e, v :| e in endpoints && v in e.operations && OccursIn(e.operations[v], a, i);
      assert Normalized(e.operations[v], table);
    }
  }

  lemma AscendingIsUnique(endpoints: seq<Endpoint>)
    requires Ascending(MapSeq(PathOf, endpoints))
    ensures UniquePaths(endpoints)
  {
    var paths := MapSeq(PathOf, endpoints);
    forall i, j | 0 <= i < j < |endpoints| ensures endpoints[i].path != endpoints[j].path {
      assert paths[i] != paths[j];
    }
  }

  lemma PathIsListed(endpoints: seq<Endpoint>, p: string)
    ensures p in MapSeq(PathOf, endpoints) <==> p in PathSet(endpoints)
  {
    var paths := MapSeq(PathOf, endpoints);
    if p in paths {
      var i :| 0 <= i < |paths| && paths[i] == p;
      assert endpoints[i] in endpoints;
    }
    if p in PathSet(endpoints) {
      var e :| e in endpoints && e.path == p;
      var i :| 0 <= i < |endpoints| && endpoints[i] == e;
      assert paths[i] == p;
    }
  }

  lemma AscendingIsSorted(endpoints: seq<Endpoint>)
    requires Ascending(MapSeq(PathOf, endpoints))
    ensures UniquePaths(endpoints) && SortedEndpoints(endpoints) == endpoints
  {
    var paths := MapSeq(PathOf, endpoints);
    AscendingIsUnique(endpoints);
    forall p ensures p in paths <==> p in SortedKeys(PathSet(endpoints)) {
      PathIsListed(endpoints, p);
    }
    AscendingUnique(paths, SortedKeys(PathSet(endpoints)));
    forall i | 0 <= i < |endpoints| ensures SortedEndpoints(endpoints)[i] == endpoints[i] {
      assert endpoints[i] in endpoints;
      AtOwnPath(endpoints, endpoints[i]);
    }
  }

  lemma {:induction false} NormalServersNonBlank(servers: seq<Server>)
    ensures forall i | 0 <= i < |NormalServers(servers)| :: !Blank(NormalServers(servers)[i].url)
  {
    if servers != [] { NormalServersNonBlank(servers[1..]); }
  }

  /**
   Export followed by import is idempotent on every contract with supported auth
   types, even when scheme names collide, method keys differ in case or paths repeat.
   */
  lemma ExportImportIdempotent(c: Contract)
    requires AllSupported(c.endpoints)
    ensures var once := ImportDocument(ExportDocument(c));
            ImportDocument(ExportDocument(once)) == once
  {
    ImportOfExport(c);
    var once := Normal(c);
    var keys := SortedKeys(PathSet(c.endpoints));
    NormalEndpointsNormalized(c.endpoints, keys);
    NormalizedIsCanonical(once.endpoints, SchemeTable(c.endpoints));
    NormalEndpointsAscend(c.endpoints, keys, SchemeTable(c.endpoints));
    AscendingIsSorted(once.endpoints);
    NormalServersNonBlank(c.servers);
    NonBlankFallbacks();
    RoundTripIffCanonical(once);
  }
}
