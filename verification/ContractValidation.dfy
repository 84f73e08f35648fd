/** `Validate` of internal/contracts/validate.go: the loops that collect diagnostics. */
module ContractValidation {
  import opened Collections
  import opened ContractModel
  import opened Text
  import opened Wrappers

  datatype Diagnostic = Diagnostic(path: string, message: string)

  /** The problems found in the responses of one operation. */
  method CheckResponses(opPath: string, responses: map<string, Result>) returns (diags: seq<Diagnostic>)
    ensures diags == [] <==> ValidResponses(responses)
  {
    diags := [];
    if |responses| == 0 {
      diags := diags + [Diagnostic(opPath + ".responses", "at least one response is required")];
    }
    var todo := responses.Keys;
    while todo != {}
      invariant todo <= responses.Keys
      invariant diags == [] <==>
                responses != map[] && forall code | code in responses && code !in todo ::
                  IsStatusCode(code) && !Blank(responses[code].description)
    {
      var code :| code in todo;
      todo := todo - {code};
      var respPath := opPath + ".responses." + code;
      if !IsStatusCode(code) {
        diags := diags + [Diagnostic(respPath, "status code must be 3 digits (100-599) or 'default'")];
      }
      if Blank(responses[code].description) {
        diags := diags + [Diagnostic(respPath + ".description", "is required")];
      }
    }
  }

  /** The problems of one parameter on its own. */
  method CheckParameter(paramPath: string, p: Parameter) returns (diags: seq<Diagnostic>)
    ensures diags == [] <==> ValidParameter(p)
  {
    diags := [];
    if Blank(p.name) {
      diags := diags + [Diagnostic(paramPath + ".name", "is required")];
    }
    if p.location !in VALID_LOCATIONS {
      diags := diags + [Diagnostic(paramPath + ".in", "must be one of: path, query, header, cookie")];
    }
    if p.schema.typ !in VALID_JSON_TYPES {
      var message := "must be one of: string, integer, number, boolean, object, array";
      diags := diags + [Diagnostic(paramPath + ".schema.type", message)];
    }
    if p.location == "path" && !p.required {
      diags := diags + [Diagnostic(paramPath + ".required", "must be true for path parameters")];
    }
  }

  lemma DistinctSnoc(s: seq<string>, x: string)
    ensures Distinct(s + [x]) <==> Distinct(s) && x !in s
  {
    var all := s + [x];
    assert forall i | 0 <= i < |s| :: all[i] == s[i];
    if Distinct(all) {
      assert forall i | 0 <= i < |s| :: all[i] != all[|s|];
    }
  }

  lemma ParametersSnoc(params: seq<Parameter>, p: Parameter)
    ensures ValidParameters(params + [p]) <==>
            ValidParameters(params) && ValidParameter(p) && ParameterKey(p) !in ParameterKeys(params)
    ensures ParameterKeys(params + [p]) == ParameterKeys(params) + [ParameterKey(p)]
    ensures PathDefinitions(params + [p]) == PathDefinitions(params) + if p.location == "path" then {p.name} else {}
  {
    assert (params + [p])[..|params|] == params;
    DistinctSnoc(ParameterKeys(params), ParameterKey(p));
    assert forall q :: q in params + [p] <==> q in params || q == p;
  }

  /** The problems of a parameter list, and the names it defines for the path. */
  method CheckParameters(opPath: string, params: seq<Parameter>) returns (diags: seq<Diagnostic>, defined: set<string>)
    ensures diags == [] <==> ValidParameters(params)
    ensures defined == PathDefinitions(params)
  {
    diags, defined := [], {};
    var keys: set<string> := {};
    for k := 0 to |params|
      invariant forall key :: key in keys <==> key in ParameterKeys(params[..k])
      invariant defined == PathDefinitions(params[..k])
      invariant diags == [] <==> ValidParameters(params[..k])
    {
      var p := params[k];
      ParametersSnoc(params[..k], p);
      assert params[..k + 1] == params[..k] + [p];
      var paramPath := opPath + ".parameters[" + Decimal(k) + "]";
      var own := CheckParameter(paramPath, p);
      diags := diags + own;
      if ParameterKey(p) in keys {
        diags := diags + [Diagnostic(paramPath, "duplicate parameter")];
      }
      keys := keys + {ParameterKey(p)};
      if p.location == "path" {
        defined := defined + {p.name};
      }
    }
    assert params[..|params|] == params;
  }

  /** The path's own parameters that no definition covers. */
  method CheckPathParams(opPath: string, path: string, defined: set<string>) returns (diags: seq<Diagnostic>)
    ensures diags == [] <==> PathParams(path) <= defined
  {
    diags := [];
    var todo := PathParams(path);
    while todo != {}
      invariant todo <= PathParams(path)
      invariant diags == [] <==> PathParams(path) - todo <= defined
    {
      var name :| name in todo;
      todo := todo - {name};
      if name !in defined {
        diags := diags + [Diagnostic(opPath + ".parameters", "missing path parameter definition for {" + name + "}")];
      }
    }
  }

  method CheckAuth(opPath: string, auth: seq<Auth>) returns (diags: seq<Diagnostic>)
    ensures diags == [] <==> forall i | 0 <= i < |auth| :: auth[i].typ in VALID_AUTH_TYPES
  {
    diags := [];
    for k := 0 to |auth|
      invariant diags == [] <==> forall i | 0 <= i < k :: auth[i].typ in VALID_AUTH_TYPES
    {
      if auth[k].typ !in VALID_AUTH_TYPES {
        var message := "must be one of: none, apiKey, http, oauth2, mtls";
        diags := diags + [Diagnostic(opPath + ".auth[" + Decimal(k) + "].type", message)];
      }
    }
  }

  method CheckVerb(opPath: string, verb: string) returns (diags: seq<Diagnostic>)
    ensures diags == [] <==> ValidVerb(verb)
  {
    if !ValidVerb(verb) {
      var message := if TrimSpace(verb) == "" then "method key is required" else "unsupported HTTP method";
      return [Diagnostic(opPath, message)];
    }
    return [];
  }

  method CheckOperation(opPath: string, path: string, verb: string, op: Operation) returns (diags: seq<Diagnostic>)
    ensures diags == [] <==> ValidOperation(path, verb, op)
  {
    var own := CheckVerb(opPath, verb);
    var responses := CheckResponses(opPath, op.responses);
    var params, defined := CheckParameters(opPath, op.parameters);
    var missing := CheckPathParams(opPath, path, defined);
    var auth := CheckAuth(opPath, op.auth);
    diags := own + responses + params + missing + auth;
  }

  ghost predicate ValidAmong(path: string, ops: map<string, Operation>, verbs: set<string>) {
    forall verb | verb in ops && verb in verbs :: ValidOperation(path, verb, ops[verb])
  }

  lemma ValidAmongPlus(path: string, ops: map<string, Operation>, verbs: set<string>, verb: string)
    requires verb in ops
    ensures ValidAmong(path, ops, verbs + {verb}) <==>
            ValidAmong(path, ops, verbs) && ValidOperation(path, verb, ops[verb])
  {
  }

  /** `validateOperations`, visiting the methods in some order. */
  method CheckOperations(base: string, path: string, ops: map<string, Operation>) returns (diags: seq<Diagnostic>)
    ensures diags == [] <==> ValidOperations(path, ops)
  {
    diags := [];
    var todo := ops.Keys;
    ghost var done: set<string> := {};
    while todo != {}
      invariant done == ops.Keys - todo && todo <= ops.Keys
      invariant diags == [] <==> ValidAmong(path, ops, done)
    {
      var verb :| verb in todo;
      ValidAmongPlus(path, ops, done, verb);
      todo, done := todo - {verb}, done + {verb};
      var own := CheckOperation(base + ".operations." + verb, path, verb, ops[verb]);
      diags := diags + own;
    }
    assert ValidAmong(path, ops, ops.Keys) <==> ValidOperations(path, ops);
  }

  /** The problems of a path that is not blank. */
  method CheckPath(place: string, path: string, seen: set<string>) returns (diags: seq<Diagnostic>)
    ensures diags == [] <==> "/" <= path && path !in seen
  {
    diags := [];
    if !("/" <= path) {
      diags := diags + [Diagnostic(place, "must start with '/'")];
    }
    if path in seen {
      diags := diags + [Diagnostic(place, "duplicates an earlier path")];
    }
  }

  /** An endpoint's own problems, given the paths seen before it. */
  method CheckEndpoint(base: string, e: Endpoint, seen: set<string>) returns (diags: seq<Diagnostic>)
    ensures diags == [] <==> ValidEndpoint(e) && e.path !in seen
  {
    if Blank(e.path) {
      return [Diagnostic(base + ".path", "is required")];
    }
    diags := CheckPath(base + ".path", e.path, seen);
    if |e.operations| == 0 {
      diags := diags + [Diagnostic(base + ".operations", "at least one operation is required")];
      return;
    }
    var ops := CheckOperations(base, e.path, e.operations);
    diags := diags + ops;
  }

  lemma UniqueSnoc(endpoints: seq<Endpoint>, e: Endpoint)
    ensures UniquePaths(endpoints + [e]) <==>
            UniquePaths(endpoints) && forall i | 0 <= i < |endpoints| :: endpoints[i].path != e.path
  {
    var all := endpoints + [e];
    assert forall i | 0 <= i < |endpoints| :: all[i] == endpoints[i];
    if UniquePaths(all) {
      forall i | 0 <= i < |endpoints| ensures endpoints[i].path != e.path {
        assert all[i].path != all[|endpoints|].path;
      }
    }
  }

  ghost predicate AllValid(endpoints: seq<Endpoint>) {
    UniquePaths(endpoints) && forall i | 0 <= i < |endpoints| :: ValidEndpoint(endpoints[i])
  }

  ghost function PathsOf(endpoints: seq<Endpoint>): set<string> {
    set i | 0 <= i < |endpoints| :: endpoints[i].path
  }

  lemma AllValidSnoc(endpoints: seq<Endpoint>, e: Endpoint)
    ensures AllValid(endpoints + [e]) <==> AllValid(endpoints) && ValidEndpoint(e) && e.path !in PathsOf(endpoints)
    ensures PathsOf(endpoints + [e]) == PathsOf(endpoints) + {e.path}
  {
    UniqueSnoc(endpoints, e);
    var all := endpoints + [e];
    assert all[|endpoints|] == e && forall i | 0 <= i < |endpoints| :: all[i] == endpoints[i];
  }

  /** The loop over the endpoints, with the map of paths already seen. */
  method CheckEndpoints(endpoints: seq<Endpoint>) returns (diags: seq<Diagnostic>)
    ensures diags == [] <==> AllValid(endpoints)
  {
    diags := [];
    var seen: set<string> := {};
    for k := 0 to |endpoints|
      invariant diags == [] ==> seen == PathsOf(endpoints[..k])
      invariant diags == [] <==> AllValid(endpoints[..k])
    {
      var e := endpoints[k];
      AllValidSnoc(endpoints[..k], e);
      assert endpoints[..k + 1] == endpoints[..k] + [e];
      var own := CheckEndpoint("endpoints[" + Decimal(k) + "]", e, seen);
      if !Blank(e.path) {
        seen := seen + {e.path};
      }
      diags := diags + own;
    }
    assert endpoints[..|endpoints|] == endpoints;
  }

  /** The problems at the top of a contract. */
  method CheckHeader(c: Contract) returns (diags: seq<Diagnostic>)
    ensures diags == [] <==>
            && c.schemaVersion == CURRENT_SCHEMA_VERSION && !Blank(c.info.title) && !Blank(c.info.version)
            && c.endpoints != []
  {
    diags := [];
    if c.schemaVersion != CURRENT_SCHEMA_VERSION {
      var message := if Blank(c.schemaVersion) then "is required" else "must be the current version";
      diags := diags + [Diagnostic("schema_version", message)];
    }
    if Blank(c.info.title) {
      diags := diags + [Diagnostic("info.title", "is required")];
    }
    if Blank(c.info.version) {
      diags := diags + [Diagnostic("info.version", "is required")];
    }
    if |c.endpoints| == 0 {
      diags := diags + [Diagnostic("endpoints", "at least one endpoint is required")];
    }
  }

  /** `Validate` reports nothing exactly on the valid contracts; `None` is a nil contract. */
  method Validate(c: Option<Contract>) returns (diags: seq<Diagnostic>)
    ensures diags == [] <==> c.Some? && IsValid(c.value)
  {
    if c.None? {
      return [Diagnostic("contract", "contract is required")];
    }
    var header := CheckHeader(c.value);
    var endpoints := CheckEndpoints(c.value.endpoints);
    diags := header + endpoints;
  }
}
