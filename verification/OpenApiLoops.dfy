/** The loops of internal/contracts/openapi.go, proved to compute the document functions. */
module OpenApiLoops {
  import opened Collections
  import opened ContractModel
  import opened JsonTree
  import opened OpenApiDocument
  import opened Ordering
  import opened Text
  import opened Wrappers

  lemma UnionAssociates(a: Fields, b: Fields, c: Fields)
    ensures a + b + c == a + (b + c)
  {
  }

  lemma AppendStep<T>(done: seq<T>, now: seq<T>, rest: seq<T>, all: seq<T>)
    requires done + (now + rest) == all
    ensures done + now + rest == all
  {
    assert done + now + rest == done + (now + rest);
  }

  lemma DropOne<T>(s: seq<T>, i: nat)
    requires i < |s|
    ensures s[i..] != [] && s[i..][0] == s[i] && s[i..][1..] == s[i + 1..]
  {
  }

  // ---------------------------------------------------------------- export

  lemma SchemesStep(auth: seq<Auth>, i: nat)
    requires i < |auth|
    ensures ExportSchemes(auth[..i + 1]) ==
            if ExportScheme(auth[i]).Some? then ExportSchemes(auth[..i])[SchemeName(i) := ExportScheme(auth[i]).value]
            else ExportSchemes(auth[..i])
  {
    TakeSnoc(auth, i);
  }

  /** `exportOpenAPISecurity`, apart from its diagnostics. */
  method ExportSecurityLoop(auth: seq<Auth>) returns (security: seq<Json>, schemes: Fields)
    ensures security == ExportSecurity(auth, 0)
    ensures schemes == ExportSchemes(auth)
  {
    security, schemes := [], map[];
    for i := 0 to |auth|
      invariant security + ExportSecurity(auth, i) == ExportSecurity(auth, 0)
      invariant schemes == ExportSchemes(auth[..i])
    {
      SchemesStep(auth, i);
      AppendStep(security, ExportRequirement(auth[i], i), ExportSecurity(auth, i + 1), ExportSecurity(auth, 0));
      security := security + ExportRequirement(auth[i], i);
      var scheme := ExportScheme(auth[i]);
      if scheme.Some? {
        schemes := schemes[SchemeName(i) := scheme.value];
      }
    }
    TakeAll(auth);
  }

  lemma EndpointStep(ops: map<string, Operation>, verbs: seq<string>, k: nat)
    requires k < |verbs| && forall v | v in verbs :: v in ops
    ensures ExportPathItem(ops, verbs[..k + 1]) ==
            ExportPathItem(ops, verbs[..k])[ToLower(verbs[k]) := Obj(ExportOperation(ops[verbs[k]]))]
    ensures EndpointSchemes(ops, verbs[..k + 1]) == EndpointSchemes(ops, verbs[..k]) + ExportSchemes(ops[verbs[k]].auth)
  {
    TakeSnoc(verbs, k);
  }

  /** The inner loop: one path item, its schemes added to the document's. */
  method ExportEndpoint(ops: map<string, Operation>, verbs: seq<string>, table: Fields)
    returns (item: Fields, table': Fields)
    requires forall v | v in verbs :: v in ops
    ensures item == ExportPathItem(ops, verbs)
    ensures table' == table + EndpointSchemes(ops, verbs)
  {
    item, table' := map[], table;
    for k := 0 to |verbs|
      invariant item == ExportPathItem(ops, verbs[..k])
      invariant table' == table + EndpointSchemes(ops, verbs[..k])
    {
      assert verbs[k] in verbs;
      EndpointStep(ops, verbs, k);
      var opOut, schemes := ExportOneOperation(ops[verbs[k]]);
      UnionAssociates(table, EndpointSchemes(ops, verbs[..k]), schemes);
      table' := table' + schemes;
      item := item[ToLower(verbs[k]) := Obj(opOut)];
    }
    TakeAll(verbs);
  }

  method ExportOneOperation(op: Operation) returns (opOut: Fields, schemes: Fields)
    ensures opOut == ExportOperation(op)
    ensures schemes == ExportSchemes(op.auth)
  {
    var security: seq<Json>;
    security, schemes := ExportSecurityLoop(op.auth);
    opOut := Build(OperationEntries(op, security));
  }

  lemma PathsSnoc(endpoints: seq<Endpoint>, e: Endpoint, keys: seq<string>)
    requires keys == SortedKeys(e.operations.Keys)
    ensures ExportPaths(endpoints + [e]) ==
            ExportPaths(endpoints)[e.path := Obj(ExportPathItem(e.operations, keys))]
  {
    var n := |endpoints|;
    assert (endpoints + [e])[..n] == endpoints && (endpoints + [e])[n] == e;
  }

  lemma SchemesSnoc(endpoints: seq<Endpoint>, e: Endpoint, keys: seq<string>)
    requires keys == SortedKeys(e.operations.Keys)
    ensures SchemeTable(endpoints + [e]) == SchemeTable(endpoints) + EndpointSchemes(e.operations, keys)
  {
    var n := |endpoints|;
    assert (endpoints + [e])[..n] == endpoints && (endpoints + [e])[n] == e;
  }

  lemma PathsStep(endpoints: seq<Endpoint>, k: nat, keys: seq<string>)
    requires k < |endpoints| && keys == SortedKeys(endpoints[k].operations.Keys)
    ensures ExportPaths(endpoints[..k + 1]) ==
            ExportPaths(endpoints[..k])[endpoints[k].path := Obj(ExportPathItem(endpoints[k].operations, keys))]
    ensures SchemeTable(endpoints[..k + 1]) ==
            SchemeTable(endpoints[..k]) + EndpointSchemes(endpoints[k].operations, keys)
  {
    TakeSnoc(endpoints, k);
    PathsSnoc(endpoints[..k], endpoints[k], keys);
    SchemesSnoc(endpoints[..k], endpoints[k], keys);
  }

  lemma NoPaths(endpoints: seq<Endpoint>)
    ensures ExportPaths(endpoints[..0]) == map[] && SchemeTable(endpoints[..0]) == map[]
  {
  }

  /** The loop over the endpoints. */
  method ExportPathsLoop(endpoints: seq<Endpoint>) returns (paths: Fields, table: Fields)
    ensures paths == ExportPaths(endpoints)
    ensures table == SchemeTable(endpoints)
  {
    paths, table := map[], map[];
    NoPaths(endpoints);
    for k := 0 to |endpoints|
      invariant paths == ExportPaths(endpoints[..k])
      invariant table == SchemeTable(endpoints[..k])
    {
      var item: Fields;
      var keys := SortedKeys(endpoints[k].operations.Keys);
      PathsStep(endpoints, k, keys);
      item, table := ExportEndpoint(endpoints[k].operations, keys, table);
      paths := paths[endpoints[k].path := Obj(item)];
    }
    TakeAll(endpoints);
  }

  /** `ExportOpenAPI31`, apart from its diagnostics. */
  method ExportOpenAPI31(c: Contract) returns (doc: Fields)
    ensures doc == ExportDocument(c)
  {
    var paths, table := ExportPathsLoop(c.endpoints);
    doc := Build(DocumentEntries(c.info, c.servers, paths, table));
  }

  // ---------------------------------------------------------------- import

  method ImportServersLoop(items: seq<Json>) returns (servers: seq<Server>)
    ensures servers == ImportServers(items)
  {
    servers := [];
    for i := 0 to |items|
      invariant servers + ImportServers(items[i..]) == ImportServers(items)
    {
      DropOne(items, i);
      AppendStep(servers, ImportServer(items[i]), ImportServers(items[i + 1..]), ImportServers(items));
      servers := servers + ImportServer(items[i]);
    }
  }

  lemma VerbsStep(item: Fields, table: Fields, verbs: seq<Verb>, k: nat)
    requires k < |verbs|
    ensures ImportVerbs(item, table, verbs[..k + 1]) ==
            if verbs[k].lower in item
            then ImportVerbs(item, table, verbs[..k])[verbs[k].upper := ImportOperation(item[verbs[k].lower], table)]
            else ImportVerbs(item, table, verbs[..k])
  {
    TakeSnoc(verbs, k);
  }

  /** The loop over the supported methods. */
  method ImportVerbsLoop(item: Fields, table: Fields, verbs: seq<Verb>) returns (ops: map<string, Operation>)
    ensures ops == ImportVerbs(item, table, verbs)
  {
    ops := map[];
    for k := 0 to |verbs|
      invariant ops == ImportVerbs(item, table, verbs[..k])
    {
      VerbsStep(item, table, verbs, k);
      if verbs[k].lower in item {
        ops := ops[verbs[k].upper := ImportOperation(item[verbs[k].lower], table)];
      }
    }
    TakeAll(verbs);
  }

  method ImportPathItemLoop(item: Fields, table: Fields) returns (ops: map<string, Operation>)
    ensures ops == ImportPathItem(item, table)
  {
    ops := ImportVerbsLoop(item, table, VERBS);
  }

  method ImportOneEndpoint(path: string, raw: Json, table: Fields) returns (endpoints: seq<Endpoint>)
    ensures endpoints == ImportEndpoint(path, raw, table)
  {
    if !raw.Obj? {
      return [];
    }
    var ops := ImportPathItemLoop(raw.fields, table);
    return if ops == map[] then [] else [Endpoint(path, ops)];
  }

  method ImportPathsLoop(paths: Fields, keys: seq<string>, table: Fields) returns (endpoints: seq<Endpoint>)
    requires forall k | k in keys :: k in paths
    ensures endpoints == ImportPaths(paths, keys, table)
  {
    endpoints := [];
    for i := 0 to |keys|
      invariant endpoints + ImportPaths(paths, keys[i..], table) == ImportPaths(paths, keys, table)
    {
      assert keys[i] in keys;
      DropOne(keys, i);
      var found := ImportOneEndpoint(keys[i], paths[keys[i]], table);
      AppendStep(endpoints, found, ImportPaths(paths, keys[i + 1..], table), ImportPaths(paths, keys, table));
      endpoints := endpoints + found;
    }
  }

  /** `ImportOpenAPI31`, apart from its diagnostics; a missing document is an error. */
  method ImportOpenAPI31(doc: Option<Fields>) returns (c: Option<Contract>)
    ensures c == if doc.None? then None else Some(ImportDocument(doc.value))
  {
    if doc.None? {
      return None;
    }
    var servers := ImportServersLoop(AsArray(Get(doc.value, "servers")));
    var table := AsObject(Get(AsObject(Get(doc.value, "components")), "securitySchemes"));
    var paths := AsObject(Get(doc.value, "paths"));
    var endpoints := ImportPathsLoop(paths, SortedKeys(paths.Keys), table);
    c := Some(Contract(CURRENT_SCHEMA_VERSION, ImportInfo(Get(doc.value, "info")), servers, endpoints));
  }
}
