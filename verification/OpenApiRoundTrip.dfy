/**
 What import makes of an exported contract: its normal form. The exact round trip
 and idempotence follow from that.
 */
module OpenApiRoundTrip {
  import opened Collections
  import opened ContractModel
  import opened JsonTree
  import opened OpenApiDocument
  import opened Ordering
  import opened Text
  import opened Wrappers

  // ---------------------------------------------------------------- leaves

  lemma ParameterReadBack(p: Parameter)
    ensures ExportParameter(p).Obj? && ImportParameter(ExportParameter(p).fields) == p
  {
  }

  lemma ExampleReadBack(e: Example)
    ensures ExportExample(e).Obj? && ImportExample(ExportExample(e).fields) == e
  {
  }

  lemma ExampleDataReadBack(d: ExampleData)
    ensures ExportExampleData(d).Obj? && ImportExampleData(ExportExampleData(d).fields) == d
  {
  }

  /** Objects written one by one are read back one by one. */
  lemma {:induction false} ListReadBack<A>(write: A -> Json, read: Fields -> A, s: seq<A>)
    requires forall a | a in s :: write(a).Obj? && read(write(a).fields) == a
    ensures ReadObjects(read, MapSeq(write, s)) == s
  {
    if s != [] {
      assert MapSeq(write, s)[1..] == MapSeq(write, s[1..]);
      assert s[0] in s && s == [s[0]] + s[1..];
      ListReadBack(write, read, s[1..]);
    }
  }

  function NormalMedia(b: MediaType): MediaType {
    b.(contentType := ContentTypeOf(b))
  }

  lemma ExamplesReadBack(examples: map<string, ExampleData>)
    ensures ImportExamples(ExportExamples(examples)) == examples
  {
    var exported := ExportExamples(examples);
    forall k | k in examples ensures exported[k].Obj? && ImportExampleData(exported[k].fields) == examples[k] {
      ExampleDataReadBack(examples[k]);
    }
    MapsEqual(ImportExamples(exported), examples);
  }

  lemma MediaFields(b: MediaType)
    ensures Get(ExportMedia(b), "schema") == if b.schema.Some? then Obj(b.schema.value) else Null
    ensures AsObject(Get(ExportMedia(b), "examples")) == ExportExamples(b.examples)
  {
    if b.examples == map[] {
      assert ExportExamples(b.examples) == map[];
    }
  }

  lemma SortedSingleton(k: string)
    ensures SortedKeys({k}) == [k]
  {
    var keys := SortedKeys({k});
    assert |keys| == 1 && keys[0] in keys;
  }

  lemma MediaReadBack(b: MediaType)
    ensures var m := ExportMedia(b);
            var schema := Get(m, "schema");
            && (if schema.Obj? then Some(schema.fields) else None) == b.schema
            && ImportExamples(AsObject(Get(m, "examples"))) == b.examples
  {
    MediaFields(b);
    ExamplesReadBack(b.examples);
  }

  lemma ContentReadBack(b: MediaType)
    ensures ImportContent(Obj(ExportContent(b))) == Some(NormalMedia(b))
  {
    var ctype := ContentTypeOf(b);
    var content: Fields := map[ctype := Obj(ExportMedia(b))];
    assert content.Keys == {ctype} && content[ctype].fields == ExportMedia(b);
    SortedSingleton(ctype);
    MediaReadBack(b);
  }

  function NormalResult(r: Result): Result {
    r.(body := if r.body.Some? then Some(NormalMedia(r.body.value)) else None)
  }

  lemma ResultReadBack(r: Result)
    ensures ExportResult(r).Obj? && ImportResult(ExportResult(r).fields) == NormalResult(r)
  {
    var m := ExportResult(r).fields;
    assert AsString(Get(m, "description")) == r.description;
    if r.body.Some? {
      assert Get(m, "content") == Obj(ExportContent(r.body.value));
      ContentReadBack(r.body.value);
    } else {
      assert Get(m, "content") == Null;
    }
  }

  function NormalResponses(responses: map<string, Result>): map<string, Result> {
    map code | code in responses :: NormalResult(responses[code])
  }

  lemma ResponsesReadBack(responses: map<string, Result>)
    ensures ImportResponses(ExportResponses(responses)) == NormalResponses(responses)
  {
    var exported := ExportResponses(responses);
    forall code | code in responses
      ensures exported[code].Obj? && ImportResult(exported[code].fields) == NormalResult(responses[code])
    {
      ResultReadBack(responses[code]);
    }
    MapsEqual(ImportResponses(exported), NormalResponses(responses));
  }

  // ---------------------------------------------------------------- security

  /** What an auth requirement becomes when its name resolves through the table. */
  function NormalAuth(a: Auth, i: nat, table: Fields): Auth {
    if a.typ == "none" then Auth("none", "", [])
    else
      var r := ImportRequirement(table, SchemeName(i), Arr(MapSeq(StrOf, a.scopes)));
      if r.Some? then r.value else a
  }

  function NormalAuths(auth: seq<Auth>, table: Fields): (r: seq<Auth>)
    ensures |r| == |auth| && forall i | 0 <= i < |auth| :: r[i] == NormalAuth(auth[i], i, table)
  {
    seq(|auth|, i requires 0 <= i < |auth| => NormalAuth(auth[i], i, table))
  }

  ghost predicate Supported(auth: seq<Auth>) {
    forall i | 0 <= i < |auth| :: auth[i].typ in VALID_AUTH_TYPES
  }

  /** `j` is the scheme object of some requirement. */
  ghost predicate IsScheme(j: Json) {
    exists a :: ExportScheme(a) == Some(j)
  }

  /** Every requirement of the list finds a scheme under its name. */
  ghost predicate Resolves(auth: seq<Auth>, table: Fields) {
    forall i | 0 <= i < |auth| && auth[i].typ != "none" :: SchemeName(i) in table && IsScheme(table[SchemeName(i)])
  }

  lemma ScopesReadBack(scopes: seq<string>)
    ensures ReadScopes(Arr(MapSeq(StrOf, scopes))) == scopes
  {
  }

  lemma SchemeReadBack(a: Auth, table: Fields, name: string, scopes: seq<string>)
    requires name in table && ExportScheme(a) == Some(table[name])
    ensures ImportRequirement(table, name, Arr(MapSeq(StrOf, scopes)))
            == Some(Auth(a.typ, if a.typ != "http" then "" else if a.scheme == "" then "bearer" else a.scheme, scopes))
  {
    ScopesReadBack(scopes);
    var scheme := table[name].fields;
    if a.typ == "apiKey" {
      assert Get(scheme, "type") == Str("apiKey");
    } else if a.typ == "http" {
      assert Get(scheme, "type") == Str("http");
    } else if a.typ == "oauth2" {
      assert Get(scheme, "type") == Str("oauth2");
    } else {
      assert Get(scheme, "type") == Str("mutualTLS");
    }
  }

  lemma RequirementReadBack(a: Auth, i: nat, table: Fields)
    requires a.typ in VALID_AUTH_TYPES
    requires a.typ != "none" ==> SchemeName(i) in table && IsScheme(table[SchemeName(i)])
    ensures |ExportRequirement(a, i)| == 1
    ensures ImportItem(table, ExportRequirement(a, i)[0]) == [NormalAuth(a, i, table)]
  {
    if a.typ != "none" {
      var name := SchemeName(i);
      var scopes := Arr(MapSeq(StrOf, a.scopes));
      assert ExportRequirement(a, i) == [Obj(map[name := scopes])];
      SingleEntry(table, name, scopes);
      var b :| ExportScheme(b) == Some(table[name]);
      SchemeReadBack(b, table, name, a.scopes);
    }
  }

  lemma ImportSecurityCons(table: Fields, item: Json, rest: seq<Json>)
    ensures ImportSecurity(table, [item] + rest) == ImportItem(table, item) + ImportSecurity(table, rest)
  {
    assert ([item] + rest)[1..] == rest;
  }

  lemma DropCons<T>(s: seq<T>, i: nat)
    requires i < |s|
    ensures s[i..] == [s[i]] + s[i + 1..]
  {
  }

  lemma {:induction false} SecurityReadBack(auth: seq<Auth>, table: Fields, i: nat)
    requires i <= |auth| && Supported(auth) && Resolves(auth, table)
    ensures ImportSecurity(table, ExportSecurity(auth, i)) == NormalAuths(auth, table)[i..]
    decreases |auth| - i
  {
    if i < |auth| {
      SecurityReadBack(auth, table, i + 1);
      RequirementReadBack(auth[i], i, table);
      var item := ExportRequirement(auth[i], i)[0];
      assert ExportRequirement(auth[i], i) == [item];
      ImportSecurityCons(table, item, ExportSecurity(auth, i + 1));
      DropCons(NormalAuths(auth, table), i);
    }
  }

  lemma SingleEntry(table: Fields, name: string, scopes: Json)
    ensures var entry := map[name := scopes];
            ImportEntry(table, entry, SortedKeys(entry.Keys))
            == var r := ImportRequirement(table, name, scopes); if r.Some? then [r.value] else []
  {
    assert map[name := scopes].Keys == {name};
    SortedSingleton(name);
  }

  // ---------------------------------------------------------------- operations

  function NormalBody(b: Option<MediaType>): Option<MediaType> {
    if b.Some? then Some(NormalMedia(b.value)) else None
  }

  function NormalOperation(op: Operation, table: Fields): Operation {
    op.(requestBody := NormalBody(op.requestBody),
        responses := NormalResponses(op.responses),
        auth := NormalAuths(op.auth, table))
  }

  ghost predicate DistinctKeys(entries: seq<Entry>) {
    forall i, j | 0 <= i < j < |entries| :: entries[i].key != entries[j].key
  }

  /** Reading a built object: each key holds its own entry's value, nil when absent. */
  lemma {:induction false} BuiltField(entries: seq<Entry>, i: nat)
    requires DistinctKeys(entries) && i < |entries|
    ensures Get(Build(entries), entries[i].key) == if entries[i].present then entries[i].value else Null
  {
    var n := |entries| - 1;
    if i < n {
      BuiltField(entries[..n], i);
    } else {
      NotBuilt(entries[..n], entries[n].key);
    }
  }

  lemma {:induction false} NotBuilt(entries: seq<Entry>, key: string)
    requires forall i | 0 <= i < |entries| :: entries[i].key != key
    ensures key !in Build(entries)
  {
    if entries != [] { NotBuilt(entries[..|entries| - 1], key); }
  }

  lemma OperationKeysDistinct(op: Operation, security: seq<Json>)
    ensures DistinctKeys(OperationEntries(op, security))
  {
    assert "description"[0] != "requestBody"[0];
  }

  /** What the exported operation holds under each key that import reads. */
  lemma OperationTexts(op: Operation)
    ensures AsString(Get(ExportOperation(op), "summary")) == op.summary
    ensures AsString(Get(ExportOperation(op), "description")) == op.description
  {
    OperationKeysDistinct(op, ExportSecurity(op.auth, 0));
    BuiltField(OperationEntries(op, ExportSecurity(op.auth, 0)), 0);
    BuiltField(OperationEntries(op, ExportSecurity(op.auth, 0)), 1);
  }

  lemma OperationLists(op: Operation)
    ensures AsArray(Get(ExportOperation(op), "parameters")) == MapSeq(ExportParameter, op.parameters)
    ensures AsArray(Get(ExportOperation(op), "x-apix-examples")) == MapSeq(ExportExample, op.examples)
    ensures AsArray(Get(ExportOperation(op), "security")) == ExportSecurity(op.auth, 0)
  {
    OperationKeysDistinct(op, ExportSecurity(op.auth, 0));
    BuiltField(OperationEntries(op, ExportSecurity(op.auth, 0)), 2);
    BuiltField(OperationEntries(op, ExportSecurity(op.auth, 0)), 5);
    BuiltField(OperationEntries(op, ExportSecurity(op.auth, 0)), 6);
    assert op.parameters == [] ==> MapSeq(ExportParameter, op.parameters) == [];
    assert op.examples == [] ==> MapSeq(ExportExample, op.examples) == [];
  }

  lemma OperationObjects(op: Operation)
    ensures AsObject(Get(ExportOperation(op), "responses")) == ExportResponses(op.responses)
    ensures Get(AsObject(Get(ExportOperation(op), "requestBody")), "content")
            == if op.requestBody.Some? then Obj(ExportContent(op.requestBody.value)) else Null
  {
    OperationKeysDistinct(op, ExportSecurity(op.auth, 0));
    BuiltField(OperationEntries(op, ExportSecurity(op.auth, 0)), 3);
    BuiltField(OperationEntries(op, ExportSecurity(op.auth, 0)), 4);
  }

  lemma OperationReadBack(op: Operation, table: Fields)
    requires Supported(op.auth) && Resolves(op.auth, table)
    ensures ImportOperation(Obj(ExportOperation(op)), table) == NormalOperation(op, table)
  {
    OperationTexts(op);
    OperationLists(op);
    OperationObjects(op);
    forall p | p in op.parameters ensures ExportParameter(p).Obj? && ImportParameter(ExportParameter(p).fields) == p {
      ParameterReadBack(p);
    }
    ListReadBack(ExportParameter, ImportParameter, op.parameters);
    forall e | e in op.examples ensures ExportExample(e).Obj? && ImportExample(ExportExample(e).fields) == e {
      ExampleReadBack(e);
    }
    ListReadBack(ExportExample, ImportExample, op.examples);
    if op.requestBody.Some? { ContentReadBack(op.requestBody.value); }
    ResponsesReadBack(op.responses);
    SecurityReadBack(op.auth, table, 0);
  }

  // ---------------------------------------------------------------- the scheme table

  /** `a` is requirement number i of some operation of the endpoints. */
  ghost predicate Occurs(endpoints: seq<Endpoint>, a: Auth, i: nat) {
    exists e, v :: e in endpoints && v in e.operations && OccursIn(e.operations[v], a, i)
  }

  ghost predicate OccursIn(op: Operation, a: Auth, i: nat) {
    i < |op.auth| && op.auth[i] == a
  }

  ghost predicate AllSupported(endpoints: seq<Endpoint>) {
    forall e, v | e in endpoints && v in e.operations :: Supported(e.operations[v].auth)
  }

  /** Among the given operations, requirement number i of some operation gave this scheme. */
  ghost predicate HasSource(ops: map<string, Operation>, name: string, j: Json) {
    exists v, a, i :: v in ops && OccursIn(ops[v], a, i) && name == SchemeName(i) && ExportScheme(a) == Some(j)
  }

  lemma {:induction false} SchemesSound(auth: seq<Auth>, name: string) returns (i: nat)
    requires name in ExportSchemes(auth)
    ensures i < |auth| && name == SchemeName(i) && ExportScheme(auth[i]) == Some(ExportSchemes(auth)[name])
  {
    var n := |auth| - 1;
    if name == SchemeName(n) && ExportScheme(auth[n]).Some? {
      i := n;
    } else {
      i := SchemesSound(auth[..n], name);
    }
  }

  lemma {:induction false} SchemesComplete(auth: seq<Auth>, i: nat)
    requires i < |auth| && ExportScheme(auth[i]).Some?
    ensures SchemeName(i) in ExportSchemes(auth)
  {
    var n := |auth| - 1;
    if i < n { SchemesComplete(auth[..n], i); }
  }

  lemma {:induction false} EndpointSchemesSound(ops: map<string, Operation>, verbs: seq<string>, name: string)
    requires forall v | v in verbs :: v in ops
    requires name in EndpointSchemes(ops, verbs)
    ensures HasSource(ops, name, EndpointSchemes(ops, verbs)[name])
  {
    if verbs != [] {
      var n := |verbs| - 1;
      var auth := ops[verbs[n]].auth;
      if name in ExportSchemes(auth) {
        var i := SchemesSound(auth, name);
        assert OccursIn(ops[verbs[n]], auth[i], i);
      } else {
        EndpointSchemesSound(ops, verbs[..n], name);
      }
    }
  }

  lemma {:induction false} EndpointSchemesComplete(ops: map<string, Operation>, verbs: seq<string>, v: string, i: nat)
    requires (forall x | x in verbs :: x in ops) && v in verbs
    requires i < |ops[v].auth| && ExportScheme(ops[v].auth[i]).Some?
    ensures SchemeName(i) in EndpointSchemes(ops, verbs)
  {
    var n := |verbs| - 1;
    if v == verbs[n] {
      SchemesComplete(ops[v].auth, i);
    } else {
      EndpointSchemesComplete(ops, verbs[..n], v, i);
    }
  }

  /** Every entry of the table is the scheme of some requirement at the position its name tells. */
  lemma {:induction false} TableSound(endpoints: seq<Endpoint>, name: string) returns (a: Auth, i: nat)
    requires name in SchemeTable(endpoints)
    ensures Occurs(endpoints, a, i) && name == SchemeName(i) && ExportScheme(a) == Some(SchemeTable(endpoints)[name])
  {
    var n := |endpoints| - 1;
    var ops := endpoints[n].operations;
    var own := EndpointSchemes(ops, SortedKeys(ops.Keys));
    if name in own {
      EndpointSchemesSound(ops, SortedKeys(ops.Keys), name);
      var v: string;
      v, a, i :| v in ops && OccursIn(ops[v], a, i) && name == SchemeName(i) && ExportScheme(a) == Some(own[name]);
      assert endpoints[n] in endpoints;
    } else {
      a, i := TableSound(endpoints[..n], name);
      var e, v :| e in endpoints[..n] && v in e.operations && OccursIn(e.operations[v], a, i);
      assert e in endpoints;
    }
  }

  lemma {:induction false} TableComplete(endpoints: seq<Endpoint>, e: Endpoint, v: string, i: nat)
    requires e in endpoints && v in e.operations
    requires i < |e.operations[v].auth| && ExportScheme(e.operations[v].auth[i]).Some?
    ensures SchemeName(i) in SchemeTable(endpoints)
  {
    var n := |endpoints| - 1;
    if e == endpoints[n] {
      EndpointSchemesComplete(e.operations, SortedKeys(e.operations.Keys), v, i);
    } else {
      TableComplete(endpoints[..n], e, v, i);
    }
  }

  lemma SupportedHasScheme(a: Auth)
    requires a.typ in VALID_AUTH_TYPES
    ensures ExportScheme(a).Some? <==> a.typ != "none"
  {
  }

  lemma TableResolvesAt(endpoints: seq<Endpoint>, e: Endpoint, v: string, i: nat)
    requires e in endpoints && v in e.operations && i < |e.operations[v].auth|
    requires ExportScheme(e.operations[v].auth[i]).Some?
    ensures SchemeName(i) in SchemeTable(endpoints) && IsScheme(SchemeTable(endpoints)[SchemeName(i)])
  {
    TableComplete(endpoints, e, v, i);
    var a, k := TableSound(endpoints, SchemeName(i));
  }

  /** Every operation's requirements resolve through the document's own table. */
  lemma TableResolves(endpoints: seq<Endpoint>, e: Endpoint, v: string)
    requires e in endpoints && v in e.operations && Supported(e.operations[v].auth)
    ensures Resolves(e.operations[v].auth, SchemeTable(endpoints))
  {
    var auth := e.operations[v].auth;
    forall i | 0 <= i < |auth| && auth[i].typ != "none"
      ensures SchemeName(i) in SchemeTable(endpoints) && IsScheme(SchemeTable(endpoints)[SchemeName(i)])
    {
      SupportedHasScheme(auth[i]);
      TableResolvesAt(endpoints, e, v, i);
    }
  }

  // ---------------------------------------------------------------- endpoints

  /** The last of the verbs that reads `lower` in lower case. */
  function LastWith(verbs: seq<string>, lower: string): (r: Option<string>)
    ensures r.Some? ==> r.value in verbs && ToLower(r.value) == lower
    ensures r.None? ==> forall v | v in verbs :: ToLower(v) != lower
  {
    if verbs == [] then None
    else
      var n := |verbs| - 1;
      assert verbs == verbs[..n] + [verbs[n]];
      if ToLower(verbs[n]) == lower then Some(verbs[n]) else LastWith(verbs[..n], lower)
  }

  function Winner(ops: map<string, Operation>, lower: string): (r: Option<string>)
    ensures r.Some? ==> r.value in ops && ToLower(r.value) == lower
    ensures r.None? ==> forall v | v in ops :: ToLower(v) != lower
  {
    LastWith(SortedKeys(ops.Keys), lower)
  }

  function NormalVerbs(ops: map<string, Operation>, table: Fields, verbs: seq<Verb>): map<string, Operation> {
    if verbs == [] then map[]
    else
      var n := |verbs| - 1;
      var before := NormalVerbs(ops, table, verbs[..n]);
      var winner := Winner(ops, verbs[n].lower);
      if winner.Some? then before[verbs[n].upper := NormalOperation(ops[winner.value], table)] else before
  }

  function NormalOperations(ops: map<string, Operation>, table: Fields): map<string, Operation> {
    NormalVerbs(ops, table, VERBS)
  }

  lemma {:induction false} PathItemHolds(ops: map<string, Operation>, verbs: seq<string>, lower: string)
    requires forall v | v in verbs :: v in ops
    ensures lower in ExportPathItem(ops, verbs) <==> LastWith(verbs, lower).Some?
    ensures LastWith(verbs, lower).Some? ==>
              ExportPathItem(ops, verbs)[lower] == Obj(ExportOperation(ops[LastWith(verbs, lower).value]))
  {
    if verbs != [] { PathItemHolds(ops, verbs[..|verbs| - 1], lower); }
  }

  lemma OperationAtReadBack(endpoints: seq<Endpoint>, e: Endpoint, lower: string)
    requires e in endpoints && AllSupported(endpoints)
    ensures var item := ExportPathItem(e.operations, SortedKeys(e.operations.Keys));
            var winner := Winner(e.operations, lower);
            && (lower in item <==> winner.Some?)
            && (lower in item ==>
                  ImportOperation(item[lower], SchemeTable(endpoints))
                  == NormalOperation(e.operations[winner.value], SchemeTable(endpoints)))
  {
    PathItemHolds(e.operations, SortedKeys(e.operations.Keys), lower);
    var winner := Winner(e.operations, lower);
    if winner.Some? {
      TableResolves(endpoints, e, winner.value);
      OperationReadBack(e.operations[winner.value], SchemeTable(endpoints));
    }
  }

  lemma {:induction false} VerbsReadBack(endpoints: seq<Endpoint>, e: Endpoint, verbs: seq<Verb>)
    requires e in endpoints && AllSupported(endpoints)
    ensures ImportVerbs(ExportPathItem(e.operations, SortedKeys(e.operations.Keys)), SchemeTable(endpoints), verbs)
            == NormalVerbs(e.operations, SchemeTable(endpoints), verbs)
  {
    if verbs != [] {
      var n := |verbs| - 1;
      VerbsReadBack(endpoints, e, verbs[..n]);
      OperationAtReadBack(endpoints, e, verbs[n].lower);
    }
  }

  ghost function PathSet(endpoints: seq<Endpoint>): set<string> {
    set e | e in endpoints :: e.path
  }

  /** The endpoint with the given path; the last one should there be several. */
  ghost function EndpointAt(endpoints: seq<Endpoint>, path: string): (e: Endpoint)
    requires path in PathSet(endpoints)
    ensures e in endpoints && e.path == path
  {
    var n := |endpoints| - 1;
    if endpoints[n].path == path then endpoints[n] else EndpointAt(endpoints[..n], path)
  }

  lemma {:induction false} PathsHold(endpoints: seq<Endpoint>, path: string)
    ensures path in ExportPaths(endpoints) <==> path in PathSet(endpoints)
    ensures path in PathSet(endpoints) ==>
              var ops := EndpointAt(endpoints, path).operations;
              ExportPaths(endpoints)[path] == Obj(ExportPathItem(ops, SortedKeys(ops.Keys)))
  {
    if endpoints != [] {
      var n := |endpoints| - 1;
      assert endpoints == endpoints[..n] + [endpoints[n]];
      PathsHold(endpoints[..n], path);
    }
  }

  /** The normal endpoints at the given paths; those without a supported operation are dropped. */
  ghost function NormalEndpoints(endpoints: seq<Endpoint>, keys: seq<string>, table: Fields): seq<Endpoint>
    requires forall k | k in keys :: k in PathSet(endpoints)
  {
    if keys == [] then []
    else
      var rest := NormalEndpoints(endpoints, keys[1..], table);
      var ops := NormalOperations(EndpointAt(endpoints, keys[0]).operations, table);
      if ops == map[] then rest else [Endpoint(keys[0], ops)] + rest
  }

  lemma EndpointReadBack(endpoints: seq<Endpoint>, path: string)
    requires AllSupported(endpoints) && path in PathSet(endpoints)
    ensures path in ExportPaths(endpoints) && ExportPaths(endpoints)[path].Obj?
    ensures ImportPathItem(ExportPaths(endpoints)[path].fields, SchemeTable(endpoints))
            == NormalOperations(EndpointAt(endpoints, path).operations, SchemeTable(endpoints))
  {
    PathsHold(endpoints, path);
    VerbsReadBack(endpoints, EndpointAt(endpoints, path), VERBS);
  }

  lemma {:induction false} EndpointsReadBack(endpoints: seq<Endpoint>, keys: seq<string>)
    requires AllSupported(endpoints)
    requires forall k | k in keys :: k in PathSet(endpoints) && k in ExportPaths(endpoints)
    ensures ImportPaths(ExportPaths(endpoints), keys, SchemeTable(endpoints))
            == NormalEndpoints(endpoints, keys, SchemeTable(endpoints))
  {
    if keys != [] {
      assert keys[0] in keys;
      EndpointReadBack(endpoints, keys[0]);
      EndpointsReadBack(endpoints, keys[1..]);
    }
  }

  // ---------------------------------------------------------------- documents

  function NormalServers(servers: seq<Server>): seq<Server> {
    if servers == [] then []
    else (if Blank(servers[0].url) then [] else [servers[0]]) + NormalServers(servers[1..])
  }

  lemma {:induction false} ServersReadBack(servers: seq<Server>)
    ensures ImportServers(MapSeq(ExportServer, servers)) == NormalServers(servers)
  {
    if servers != [] {
      assert MapSeq(ExportServer, servers)[1..] == MapSeq(ExportServer, servers[1..]);
      ServersReadBack(servers[1..]);
    }
  }

  function NormalInfo(info: Info): Info {
    Info(NonBlankOr(info.title, "Imported API"), NonBlankOr(info.version, "0.1.0"), info.description)
  }

  ghost function Normal(c: Contract): Contract {
    Contract(CURRENT_SCHEMA_VERSION, NormalInfo(c.info), NormalServers(c.servers),
             NormalEndpoints(c.endpoints, SortedKeys(PathSet(c.endpoints)), SchemeTable(c.endpoints)))
  }

  ghost function EntriesOf(c: Contract): seq<Entry> {
    DocumentEntries(c.info, c.servers, ExportPaths(c.endpoints), SchemeTable(c.endpoints))
  }

  lemma DocumentKeysDistinct(c: Contract)
    ensures DistinctKeys(EntriesOf(c))
  {
    assert "openapi"[0] != "servers"[0];
  }

  lemma DocumentFields(c: Contract)
    ensures AsObject(Get(ExportDocument(c), "paths")) == ExportPaths(c.endpoints)
    ensures AsArray(Get(ExportDocument(c), "servers")) == MapSeq(ExportServer, c.servers)
  {
    DocumentKeysDistinct(c);
    BuiltField(EntriesOf(c), 2);
    BuiltField(EntriesOf(c), 3);
    assert c.servers == [] ==> MapSeq(ExportServer, c.servers) == [];
  }

  lemma DocumentInfo(c: Contract)
    ensures ImportInfo(Get(ExportDocument(c), "info")) == NormalInfo(c.info)
  {
    DocumentKeysDistinct(c);
    BuiltField(EntriesOf(c), 1);
    InfoReadBack(c.info);
  }

  lemma InfoReadBack(info: Info)
    ensures ImportInfo(Obj(map["title" := Str(info.title), "version" := Str(info.version),
                               "description" := Str(info.description)])) == NormalInfo(info)
  {
    var m: Fields := map["title" := Str(info.title), "version" := Str(info.version),
      "description" := Str(info.description)];
    assert AsString(Get(m, "title")) == info.title;
    assert AsString(Get(m, "version")) == info.version;
    assert AsString(Get(m, "description")) == info.description;
  }

  lemma DocumentTable(c: Contract)
    ensures AsObject(Get(AsObject(Get(ExportDocument(c), "components")), "securitySchemes")) == SchemeTable(c.endpoints)
  {
    DocumentKeysDistinct(c);
    BuiltField(EntriesOf(c), 4);
  }

  lemma ExportedPaths(endpoints: seq<Endpoint>)
    ensures ExportPaths(endpoints).Keys == PathSet(endpoints)
  {
    forall path ensures path in ExportPaths(endpoints) <==> path in PathSet(endpoints) {
      PathsHold(endpoints, path);
    }
  }

  /** Import of export is the normal form, on every contract whose auth types are supported. */
  lemma ImportOfExport(c: Contract)
    requires AllSupported(c.endpoints)
    ensures ImportDocument(ExportDocument(c)) == Normal(c)
  {
    DocumentFields(c);
    DocumentInfo(c);
    DocumentTable(c);
    ServersReadBack(c.servers);
    ExportedPaths(c.endpoints);
    EndpointsReadBack(c.endpoints, SortedKeys(PathSet(c.endpoints)));
  }
}
