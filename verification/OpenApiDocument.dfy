/**
 Export of a contract to an OpenAPI 3.1 document and import of such a document
 (internal/contracts/openapi.go), as functions on JSON trees.
 */
module OpenApiDocument {
  import opened ContractModel
  import opened JsonTree
  import opened Ordering
  import opened Text
  import opened Wrappers

  type Fields = map<string, Json>

  // ---------------------------------------------------------------- reading

  /** A missing key reads as nil. */
  function Get(m: Fields, k: string): Json {
    if k in m then m[k] else Null
  }

  function AsString(j: Json): string {
    if j.Str? then j.s else ""
  }

  function AsBool(j: Json): bool {
    if j.Bool? then j.b else false
  }

  function AsObject(j: Json): Fields {
    if j.Obj? then j.fields else map[]
  }

  function AsArray(j: Json): seq<Json> {
    if j.Arr? then j.items else []
  }

  function StrOf(s: string): Json {
    Str(s)
  }

  /** A key that is written only when present. */
  function Field(k: string, present: bool, v: Json): Fields {
    if present then map[k := v] else map[]
  }

  /** An assignment `out[key] = value` that happens only when its condition holds. */
  datatype Entry = Entry(key: string, present: bool, value: Json)

  function Build(entries: seq<Entry>): Fields {
    if entries == [] then map[]
    else
      var n := |entries| - 1;
      if entries[n].present then Build(entries[..n])[entries[n].key := entries[n].value] else Build(entries[..n])
  }

  function MapSeq<A, B>(f: A -> B, s: seq<A>): (r: seq<B>)
    ensures |r| == |s| && forall i | 0 <= i < |s| :: r[i] == f(s[i])
  {
    seq(|s|, i requires 0 <= i < |s| => f(s[i]))
  }

  /** Read every object of a list, skipping what is not an object. */
  function ReadObjects<B>(f: Fields -> B, items: seq<Json>): seq<B> {
    if items == [] then []
    else (if items[0].Obj? then [f(items[0].fields)] else []) + ReadObjects(f, items[1..])
  }

  // ---------------------------------------------------------------- parameters, examples, bodies

  function ExportParameter(p: Parameter): Json {
    Obj(map["name" := Str(p.name), "in" := Str(p.location), "required" := Bool(p.required),
            "description" := Str(p.description),
            "schema" := Obj(map["type" := Str(p.schema.typ), "format" := Str(p.schema.format)])])
  }

  function ImportParameter(m: Fields): Parameter {
    var schema := AsObject(Get(m, "schema"));
    Parameter(AsString(Get(m, "name")), AsString(Get(m, "in")), AsBool(Get(m, "required")),
              AsString(Get(m, "description")),
              JsonType(AsString(Get(schema, "type")), AsString(Get(schema, "format"))))
  }

  function ExportExample(e: Example): Json {
    Obj(map["name" := Str(e.name)]
        + Field("description", e.description != "", Str(e.description))
        + Field("request", e.request != Null, e.request)
        + Field("response", e.response != Null, e.response))
  }

  function ImportExample(m: Fields): Example {
    Example(AsString(Get(m, "name")), AsString(Get(m, "description")), Get(m, "request"), Get(m, "response"))
  }

  function ExportExampleData(d: ExampleData): Json {
    Obj(Field("summary", d.summary != "", Str(d.summary)) + Field("value", d.value != Null, d.value))
  }

  function ImportExampleData(m: Fields): ExampleData {
    ExampleData(AsString(Get(m, "summary")), Get(m, "value"))
  }

  const DEFAULT_CONTENT_TYPE := "application/json"

  function ContentTypeOf(b: MediaType): string {
    if b.contentType == "" then DEFAULT_CONTENT_TYPE else b.contentType
  }

  function ExportExamples(examples: map<string, ExampleData>): Fields {
    map k | k in examples :: ExportExampleData(examples[k])
  }

  function ImportExamples(examples: Fields): map<string, ExampleData> {
    map k | k in examples && examples[k].Obj? :: ImportExampleData(examples[k].fields)
  }

  function ExportMedia(b: MediaType): Fields {
    map["schema" := if b.schema.Some? then Obj(b.schema.value) else Null]
    + Field("examples", b.examples != map[], Obj(ExportExamples(b.examples)))
  }

  function ExportContent(b: MediaType): Fields {
    map[ContentTypeOf(b) := Obj(ExportMedia(b))]
  }

  /** Only the first media type, in sorted order, is read. */
  function ImportContent(content: Json): Option<MediaType> {
    if !content.Obj? || content.fields == map[] then None
    else
      var types := SortedKeys(content.fields.Keys);
      var first := types[0];
      var m := AsObject(content.fields[first]);
      var schema := Get(m, "schema");
      Some(MediaType(
        first,
        if schema.Obj? then Some(schema.fields) else None,
        ImportExamples(AsObject(Get(m, "examples")))))
  }

  function ExportRequestBody(b: MediaType): Json {
    Obj(map["required" := Bool(true), "content" := Obj(ExportContent(b))])
  }

  function ExportResult(r: Result): Json {
    Obj(map["description" := Str(r.description)]
        + Field("content", r.body.Some?, if r.body.Some? then Obj(ExportContent(r.body.value)) else Null))
  }

  function ImportResult(m: Fields): Result {
    Result(AsString(Get(m, "description")), ImportContent(Get(m, "content")))
  }

  function ExportResponses(responses: map<string, Result>): Fields {
    map code | code in responses :: ExportResult(responses[code])
  }

  function ImportResponses(m: Fields): map<string, Result> {
    map code | code in m && m[code].Obj? :: ImportResult(m[code].fields)
  }

  // ---------------------------------------------------------------- security

  /** The scheme name depends on the position in the list only. */
  function SchemeName(i: nat): string {
    "apixAuth" + Decimal(i + 1)
  }

  lemma SchemeNamesDiffer()
    ensures forall i: nat, j: nat :: SchemeName(i) == SchemeName(j) ==> i == j
  {
    forall i: nat, j: nat | SchemeName(i) == SchemeName(j) ensures i == j {
      assert SchemeName(i)[8..] == Decimal(i + 1) && SchemeName(j)[8..] == Decimal(j + 1);
      DecimalInjective(i + 1, j + 1);
    }
  }

  /** The scheme object of a requirement; none for "none" and for unsupported types. */
  function ExportScheme(a: Auth): Option<Json> {
    if a.typ == "apiKey" then
      Some(Obj(map["type" := Str("apiKey"), "name" := Str("X-API-Key"), "in" := Str("header")]))
    else if a.typ == "http" then
      Some(Obj(map["type" := Str("http"), "scheme" := Str(if a.scheme == "" then "bearer" else a.scheme)]))
    else if a.typ == "oauth2" then
      var flow: Fields := map["tokenUrl" := Str("https://example.com/oauth/token"), "scopes" := Obj(map[])];
      Some(Obj(map["type" := Str("oauth2"), "flows" := Obj(map["clientCredentials" := Obj(flow)])]))
    else if a.typ == "mtls" then
      Some(Obj(map["type" := Str("mutualTLS")]))
    else None
  }

  /** The security entry of a requirement; unsupported types are dropped. */
  function ExportRequirement(a: Auth, i: nat): seq<Json> {
    if a.typ == "none" then [Obj(map[])]
    else if ExportScheme(a).Some? then [Obj(map[SchemeName(i) := Arr(MapSeq(StrOf, a.scopes))])]
    else []
  }

  /** The security list of an operation, from position i on. */
  function ExportSecurity(auth: seq<Auth>, i: nat): seq<Json>
    requires i <= |auth|
    decreases |auth| - i
  {
    if i == |auth| then [] else ExportRequirement(auth[i], i) + ExportSecurity(auth, i + 1)
  }

  /** The schemes an operation contributes. */
  function ExportSchemes(auth: seq<Auth>): Fields {
    if auth == [] then map[]
    else
      var n := |auth| - 1;
      var before := ExportSchemes(auth[..n]);
      var scheme := ExportScheme(auth[n]);
      if scheme.Some? then before[SchemeName(n) := scheme.value] else before
  }

  function ReadScopes(j: Json): seq<string> {
    MapSeq(AsString, AsArray(j))
  }

  /** One name of a security entry, resolved through the scheme table. */
  function ImportRequirement(table: Fields, name: string, scopes: Json): Option<Auth> {
    var scheme := AsObject(Get(table, name));
    var typ := AsString(Get(scheme, "type"));
    if typ == "apiKey" then Some(Auth("apiKey", "", ReadScopes(scopes)))
    else if typ == "http" then Some(Auth("http", AsString(Get(scheme, "scheme")), ReadScopes(scopes)))
    else if typ == "oauth2" then Some(Auth("oauth2", "", ReadScopes(scopes)))
    else if typ == "mutualTLS" then Some(Auth("mtls", "", ReadScopes(scopes)))
    else None
  }

  /** The names of one entry; the code visits them in an unspecified order, here the sorted one. */
  function ImportEntry(table: Fields, entry: Fields, names: seq<string>): seq<Auth>
    requires forall n | n in names :: n in entry
  {
    if names == [] then []
    else
      var a := ImportRequirement(table, names[0], entry[names[0]]);
      (if a.Some? then [a.value] else []) + ImportEntry(table, entry, names[1..])
  }

  function ImportItem(table: Fields, item: Json): seq<Auth> {
    if !item.Obj? then []
    else if item.fields == map[] then [Auth("none", "", [])]
    else ImportEntry(table, item.fields, SortedKeys(item.fields.Keys))
  }

  function ImportSecurity(table: Fields, items: seq<Json>): seq<Auth> {
    if items == [] then [] else ImportItem(table, items[0]) + ImportSecurity(table, items[1..])
  }

  // ---------------------------------------------------------------- operations

  function OperationEntries(op: Operation, security: seq<Json>): seq<Entry> {
    [Entry("summary", op.summary != "", Str(op.summary)),
     Entry("description", op.description != "", Str(op.description)),
     Entry("parameters", op.parameters != [], Arr(MapSeq(ExportParameter, op.parameters))),
     Entry("requestBody", op.requestBody.Some?,
           if op.requestBody.Some? then ExportRequestBody(op.requestBody.value) else Null),
     Entry("responses", true, Obj(ExportResponses(op.responses))),
     Entry("x-apix-examples", op.examples != [], Arr(MapSeq(ExportExample, op.examples))),
     Entry("security", security != [], Arr(security))]
  }

  function ExportOperation(op: Operation): Fields {
    Build(OperationEntries(op, ExportSecurity(op.auth, 0)))
  }

  const EMPTY_OPERATION := Operation("", "", [], None, map[], [], [])

  function ImportOperation(raw: Json, table: Fields): Operation {
    if !raw.Obj? then EMPTY_OPERATION
    else
      var m := raw.fields;
      Operation(
        AsString(Get(m, "summary")),
        AsString(Get(m, "description")),
        ReadObjects(ImportParameter, AsArray(Get(m, "parameters"))),
        ImportContent(Get(AsObject(Get(m, "requestBody")), "content")),
        ImportResponses(AsObject(Get(m, "responses"))),
        ImportSecurity(table, AsArray(Get(m, "security"))),
        ReadObjects(ImportExample, AsArray(Get(m, "x-apix-examples"))))
  }

  // ---------------------------------------------------------------- documents

  /** Later methods overwrite earlier ones that agree in lower case. */
  function ExportPathItem(ops: map<string, Operation>, verbs: seq<string>): Fields
    requires forall v | v in verbs :: v in ops
  {
    if verbs == [] then map[]
    else
      var n := |verbs| - 1;
      ExportPathItem(ops, verbs[..n])[ToLower(verbs[n]) := Obj(ExportOperation(ops[verbs[n]]))]
  }

  /** The schemes of an endpoint's operations, later ones overwriting. */
  function EndpointSchemes(ops: map<string, Operation>, verbs: seq<string>): Fields
    requires forall v | v in verbs :: v in ops
  {
    if verbs == [] then map[]
    else
      var n := |verbs| - 1;
      EndpointSchemes(ops, verbs[..n]) + ExportSchemes(ops[verbs[n]].auth)
  }

  function ExportPaths(endpoints: seq<Endpoint>): Fields {
    if endpoints == [] then map[]
    else
      var n := |endpoints| - 1;
      var ops := endpoints[n].operations;
      ExportPaths(endpoints[..n])[endpoints[n].path := Obj(ExportPathItem(ops, SortedKeys(ops.Keys)))]
  }

  /** The document-wide scheme table. */
  function SchemeTable(endpoints: seq<Endpoint>): Fields {
    if endpoints == [] then map[]
    else
      var n := |endpoints| - 1;
      var ops := endpoints[n].operations;
      SchemeTable(endpoints[..n]) + EndpointSchemes(ops, SortedKeys(ops.Keys))
  }

  function ExportServer(s: Server): Json {
    Obj(map["url" := Str(s.url), "description" := Str(s.description)])
  }

  function DocumentEntries(info: Info, servers: seq<Server>, paths: Fields, table: Fields): seq<Entry> {
    [Entry("openapi", true, Str("3.1.0")),
     Entry("info", true, Obj(map["title" := Str(info.title), "version" := Str(info.version),
                                 "description" := Str(info.description)])),
     Entry("paths", true, Obj(paths)),
     Entry("servers", servers != [], Arr(MapSeq(ExportServer, servers))),
     Entry("components", table != map[], Obj(map["securitySchemes" := Obj(table)]))]
  }

  function ExportDocument(c: Contract): Fields {
    Build(DocumentEntries(c.info, c.servers, ExportPaths(c.endpoints), SchemeTable(c.endpoints)))
  }

  datatype Verb = Verb(lower: string, upper: string)

  /** The supported methods, in the order in which import tries them. */
  const VERBS := [
    Verb("get", "GET"), Verb("post", "POST"), Verb("put", "PUT"), Verb("patch", "PATCH"),
    Verb("delete", "DELETE"), Verb("head", "HEAD"), Verb("options", "OPTIONS")]

  function ImportVerbs(item: Fields, table: Fields, verbs: seq<Verb>): map<string, Operation> {
    if verbs == [] then map[]
    else
      var n := |verbs| - 1;
      var before := ImportVerbs(item, table, verbs[..n]);
      if verbs[n].lower in item then
        before[verbs[n].upper := ImportOperation(item[verbs[n].lower], table)]
      else before
  }

  function ImportPathItem(item: Fields, table: Fields): map<string, Operation> {
    ImportVerbs(item, table, VERBS)
  }

  /** A path that is no object or holds no supported operation is dropped. */
  function ImportEndpoint(path: string, raw: Json, table: Fields): seq<Endpoint> {
    if !raw.Obj? then []
    else
      var ops := ImportPathItem(raw.fields, table);
      if ops == map[] then [] else [Endpoint(path, ops)]
  }

  function ImportPaths(paths: Fields, keys: seq<string>, table: Fields): seq<Endpoint>
    requires forall k | k in keys :: k in paths
  {
    if keys == [] then []
    else ImportEndpoint(keys[0], paths[keys[0]], table) + ImportPaths(paths, keys[1..], table)
  }

  /** A server that is no object or has a blank URL is dropped. */
  function ImportServer(raw: Json): seq<Server> {
    var m := AsObject(raw);
    var url := AsString(Get(m, "url"));
    if !raw.Obj? || Blank(url) then [] else [Server(url, AsString(Get(m, "description")))]
  }

  function ImportServers(items: seq<Json>): seq<Server> {
    if items == [] then [] else ImportServer(items[0]) + ImportServers(items[1..])
  }

  function NonBlankOr(s: string, fallback: string): string {
    if Blank(s) then fallback else s
  }

  function ImportInfo(j: Json): Info {
    var m := AsObject(j);
    Info(NonBlankOr(AsString(Get(m, "title")), "Imported API"),
         NonBlankOr(AsString(Get(m, "version")), "0.1.0"),
         AsString(Get(m, "description")))
  }

  /** `ImportOpenAPI31`, apart from its diagnostics. */
  function ImportDocument(doc: Fields): Contract {
    var table := AsObject(Get(AsObject(Get(doc, "components")), "securitySchemes"));
    var paths := AsObject(Get(doc, "paths"));
    Contract(CURRENT_SCHEMA_VERSION, ImportInfo(Get(doc, "info")), ImportServers(AsArray(Get(doc, "servers"))),
             ImportPaths(paths, SortedKeys(paths.Keys), table))
  }
}
