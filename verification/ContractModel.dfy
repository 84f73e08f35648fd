/** The contract datatypes of internal/contracts/model.go, and validation. */
module ContractModel {
  import opened Collections
  import opened JsonTree
  import opened Text
  import opened Wrappers

  const CURRENT_SCHEMA_VERSION := "apix.contract/v1"

  datatype Info = Info(title: string, version: string, description: string)

  datatype Server = Server(url: string, description: string)

  datatype JsonType = JsonType(typ: string, format: string)

  datatype Parameter = Parameter(name: string, location: string, required: bool, description: string, schema: JsonType)

  /** An example with its omitted fields empty, nil values being `Null`. */
  datatype ExampleData = ExampleData(summary: string, value: Json)

  datatype Example = Example(name: string, description: string, request: Json, response: Json)

  /** A nil schema map is told apart from an empty one; nil and empty examples are not. */
  datatype MediaType = MediaType(
    contentType: string, schema: Option<map<string, Json>>, examples: map<string, ExampleData>)

  datatype Result = Result(description: string, body: Option<MediaType>)

  datatype Auth = Auth(typ: string, scheme: string, scopes: seq<string>)

  datatype Operation = Operation(
    summary: string,
    description: string,
    parameters: seq<Parameter>,
    requestBody: Option<MediaType>,
    responses: map<string, Result>,
    auth: seq<Auth>,
    examples: seq<Example>)

  datatype Endpoint = Endpoint(path: string, operations: map<string, Operation>)

  datatype Contract = Contract(schemaVersion: string, info: Info, servers: seq<Server>, endpoints: seq<Endpoint>)

  // ---------------------------------------------------------------- validity

  const VALID_METHODS := {"GET", "POST", "PUT", "PATCH", "DELETE", "HEAD", "OPTIONS"}
  const VALID_LOCATIONS := {"path", "query", "header", "cookie"}
  const VALID_JSON_TYPES := {"string", "integer", "number", "boolean", "object", "array"}
  const VALID_AUTH_TYPES := {"none", "apiKey", "http", "oauth2", "mtls"}

  /** Nothing but white space: what `strings.TrimSpace(s) == ""` tests. */
  predicate Blank(s: string) {
    forall i | 0 <= i < |s| :: IsSpace(s[i])
  }

  predicate IsNameChar(c: char) {
    'A' <= c <= 'Z' || 'a' <= c <= 'z' || '0' <= c <= '9' || c == '_'
  }

  /** The names that match `\{([A-Za-z0-9_]+)\}` in a path. */
  function PathParams(path: string): set<string> {
    set i, j | 0 <= i < j < |path| && i + 1 < j && path[i] == '{' && path[j] == '}'
               && (forall k | i < k < j :: IsNameChar(path[k])) :: path[i + 1..j]
  }

  predicate IsStatusCode(code: string) {
    code == "default"
    || (|code| == 3 && '1' <= code[0] <= '5' && '0' <= code[1] <= '9' && '0' <= code[2] <= '9')
  }

  predicate ValidParameter(p: Parameter) {
    && !Blank(p.name)
    && p.location in VALID_LOCATIONS
    && p.schema.typ in VALID_JSON_TYPES
    && (p.location == "path" ==> p.required)
  }

  /** The code's duplicate key "in:name". */
  function ParameterKey(p: Parameter): string {
    p.location + ":" + p.name
  }

  function ParameterKeys(params: seq<Parameter>): seq<string> {
    if params == [] then []
    else ParameterKeys(params[..|params| - 1]) + [ParameterKey(params[|params| - 1])]
  }

  /** The names defined as path parameters. */
  function PathDefinitions(params: seq<Parameter>): set<string> {
    set p | p in params && p.location == "path" :: p.name
  }

  predicate ValidParameters(params: seq<Parameter>) {
    Distinct(ParameterKeys(params)) && forall p | p in params :: ValidParameter(p)
  }

  predicate ValidResponses(responses: map<string, Result>) {
    responses != map[] && forall code | code in responses :: IsStatusCode(code) && !Blank(responses[code].description)
  }

  predicate ValidVerb(verb: string) {
    ToUpper(TrimSpace(verb)) in VALID_METHODS
  }

  predicate ValidOperation(path: string, verb: string, op: Operation) {
    && ValidVerb(verb)
    && ValidResponses(op.responses)
    && ValidParameters(op.parameters)
    && PathParams(path) <= PathDefinitions(op.parameters)
    && (forall i | 0 <= i < |op.auth| :: op.auth[i].typ in VALID_AUTH_TYPES)
  }

  predicate ValidOperations(path: string, ops: map<string, Operation>) {
    forall verb | verb in ops :: ValidOperation(path, verb, ops[verb])
  }

  predicate ValidEndpoint(e: Endpoint) {
    !Blank(e.path) && "/" <= e.path && e.operations != map[] && ValidOperations(e.path, e.operations)
  }

  ghost predicate UniquePaths(endpoints: seq<Endpoint>) {
    forall i, j | 0 <= i < j < |endpoints| :: endpoints[i].path != endpoints[j].path
  }

  /** What it takes for `Validate` to report no diagnostic. */
  ghost predicate IsValid(c: Contract) {
    && c.schemaVersion == CURRENT_SCHEMA_VERSION
    && !Blank(c.info.title)
    && !Blank(c.info.version)
    && c.endpoints != []
    && (forall i | 0 <= i < |c.endpoints| :: ValidEndpoint(c.endpoints[i]))
    && UniquePaths(c.endpoints)
  }
}
