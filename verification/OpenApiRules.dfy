/**
 The rules of OpenAPI 3.1.0 on a JSON document, and which contracts are exported to a
 document that obeys them.
 */
module OpenApiRules {
  import opened Collections
  import opened ContractModel
  import opened JsonTree
  import opened OpenApiDocument
  import opened OpenApiRoundTrip
  import opened Ordering
  import opened Text
  import opened Wrappers

  // ---------------------------------------------------------------- security (sections 4.8.27, 4.8.28 and 4.8.30)

  predicate HasText(m: Fields, k: string) {
    k in m && m[k].Str? && m[k].s != ""
  }

  predicate HasOneOf(m: Fields, k: string, options: set<string>) {
    k in m && m[k].Str? && m[k].s in options
  }

  /** A client-credentials flow names where tokens come from and lists its scopes. */
  predicate FlowOk(j: Json) {
    j.Obj? && HasText(j.fields, "tokenUrl") && "scopes" in j.fields && j.fields["scopes"].Obj?
  }

  /** A security scheme object of one of the four types in use. */
  predicate SchemeOk(j: Json) {
    && j.Obj?
    && HasOneOf(j.fields, "type", {"apiKey", "http", "oauth2", "mutualTLS"})
    && (j.fields["type"].s == "apiKey" ==>
          HasText(j.fields, "name") && HasOneOf(j.fields, "in", {"query", "header", "cookie"}))
    && (j.fields["type"].s == "http" ==> HasText(j.fields, "scheme"))
    && (j.fields["type"].s == "oauth2" ==>
          && "flows" in j.fields && j.fields["flows"].Obj?
          && "clientCredentials" in j.fields["flows"].fields
          && FlowOk(j.fields["flows"].fields["clientCredentials"]))
  }

  /** The credential that a scheme asks for. */
  datatype Credential =
    | ApiKey(place: string, name: string)
    | HttpAuth(scheme: string)
    | ClientToken(url: string)
    | ClientCertificate

  function CredentialOf(j: Json): Credential
    requires SchemeOk(j)
  {
    var m := j.fields;
    match m["type"].s
    case "apiKey" => ApiKey(m["in"].s, m["name"].s)
    case "http" => HttpAuth(m["scheme"].s)
    case "oauth2" => ClientToken(m["flows"].fields["clientCredentials"].fields["tokenUrl"].s)
    case _ => ClientCertificate
  }

  /** Every exported scheme is well-formed and asks for the credential that the requirement means. */
  lemma ExportedSchemeOk(a: Auth)
    requires ExportScheme(a).Some?
    ensures SchemeOk(ExportScheme(a).value)
    ensures CredentialOf(ExportScheme(a).value) ==
            match a.typ
            case "apiKey" => ApiKey("header", "X-API-Key")
            case "http" => HttpAuth(if a.scheme == "" then "bearer" else a.scheme)
            case "oauth2" => ClientToken("https://example.com/oauth/token")
            case _ => ClientCertificate
  {
    if a.typ == "apiKey" {
      KeySchemeOk(a);
    } else if a.typ == "http" {
      HttpSchemeOk(a);
    } else if a.typ == "oauth2" {
      TokenSchemeOk(a);
    } else {
      var m := ExportScheme(a).value.fields;
      assert m["type"] == Str("mutualTLS");
    }
  }

  lemma KeySchemeOk(a: Auth)
    requires a.typ == "apiKey"
    ensures ExportScheme(a).Some? && SchemeOk(ExportScheme(a).value)
    ensures CredentialOf(ExportScheme(a).value) == ApiKey("header", "X-API-Key")
  {
    var m := ExportScheme(a).value.fields;
    assert m["type"] == Str("apiKey") && m["name"] == Str("X-API-Key") && m["in"] == Str("header");
  }

  lemma HttpSchemeOk(a: Auth)
    requires a.typ == "http"
    ensures ExportScheme(a).Some? && SchemeOk(ExportScheme(a).value)
    ensures CredentialOf(ExportScheme(a).value) == HttpAuth(if a.scheme == "" then "bearer" else a.scheme)
  {
    var m := ExportScheme(a).value.fields;
    assert m["type"] == Str("http") && m["scheme"] == Str(if a.scheme == "" then "bearer" else a.scheme);
  }

  lemma TokenSchemeOk(a: Auth)
    requires a.typ == "oauth2"
    ensures ExportScheme(a).Some? && SchemeOk(ExportScheme(a).value)
    ensures CredentialOf(ExportScheme(a).value) == ClientToken("https://example.com/oauth/token")
  {
    var m := ExportScheme(a).value.fields;
    assert m["type"] == Str("oauth2") && m["flows"].Obj?;
    var flow := m["flows"].fields["clientCredentials"];
    assert flow.fields["tokenUrl"] == Str("https://example.com/oauth/token") && flow.fields["scopes"] == Obj(map[]);
  }

  /** Every scheme of the exported table is well-formed. */
  lemma TableOk(endpoints: seq<Endpoint>, name: string)
    requires name in SchemeTable(endpoints)
    ensures SchemeOk(SchemeTable(endpoints)[name])
  {
    var a, i := TableSound(endpoints, name);
    ExportedSchemeOk(a);
  }

  predicate TextItem(j: Json) {
    j.Str?
  }

  /** A security requirement uses schemes of the table, each with a list of scope names. */
  predicate RequirementOk(j: Json, table: Fields) {
    && j.Obj?
    && forall name | name in j.fields ::
         && name in table && j.fields[name].Arr?
         && forall i | 0 <= i < |j.fields[name].items| :: TextItem(j.fields[name].items[i])
  }

  lemma ExportedRequirementOk(a: Auth, i: nat, table: Fields)
    requires ExportScheme(a).Some? ==> SchemeName(i) in table
    ensures forall j | j in ExportRequirement(a, i) :: RequirementOk(j, table)
  {
  }

  lemma {:induction false} ExportedSecurityOk(auth: seq<Auth>, i: nat, table: Fields)
    requires i <= |auth| && forall k | i <= k < |auth| && ExportScheme(auth[k]).Some? :: SchemeName(k) in table
    ensures forall j | j in ExportSecurity(auth, i) :: RequirementOk(j, table)
    decreases |auth| - i
  {
    if i < |auth| {
      ExportedRequirementOk(auth[i], i, table);
      ExportedSecurityOk(auth, i + 1, table);
    }
  }

  /** Every name in a security requirement of the document is in its table, for every contract. */
  lemma SecurityResolves(endpoints: seq<Endpoint>, e: Endpoint, v: string)
    requires e in endpoints && v in e.operations
    ensures forall j | j in AsArray(Get(ExportOperation(e.operations[v]), "security")) ::
              RequirementOk(j, SchemeTable(endpoints))
  {
    var auth := e.operations[v].auth;
    OperationLists(e.operations[v]);
    forall k | 0 <= k < |auth| && ExportScheme(auth[k]).Some? ensures SchemeName(k) in SchemeTable(endpoints) {
      TableComplete(endpoints, e, v, k);
    }
    ExportedSecurityOk(auth, 0, SchemeTable(endpoints));
  }

  // ---------------------------------------------------------------- parameters (section 4.8.12)

  const JSON_TYPES := {"string", "integer", "number", "boolean", "object", "array"}

  /** A parameter object: a name, a place, a schema type, and required if it is part of the path. */
  predicate ParameterOk(j: Json) {
    && j.Obj?
    && "name" in j.fields && j.fields["name"].Str? && !Blank(j.fields["name"].s)
    && HasOneOf(j.fields, "in", {"query", "header", "path", "cookie"})
    && "required" in j.fields && j.fields["required"].Bool?
    && (j.fields["in"].s == "path" ==> j.fields["required"].b)
    && "schema" in j.fields && j.fields["schema"].Obj?
    && HasOneOf(j.fields["schema"].fields, "type", JSON_TYPES)
  }

  lemma ParameterFields(p: Parameter)
    ensures
      var m := ExportParameter(p).fields;
      && {"name", "in", "required", "schema"} <= m.Keys
      && m["name"] == Str(p.name) && m["in"] == Str(p.location) && m["required"] == Bool(p.required)
      && m["schema"].Obj? && "type" in m["schema"].fields && m["schema"].fields["type"] == Str(p.schema.typ)
  {
  }

  /** A parameter is valid exactly when its exported form obeys the rules. */
  lemma ParameterOkIff(p: Parameter)
    ensures ParameterOk(ExportParameter(p)) <==> ValidParameter(p)
  {
    ParameterFields(p);
    assert VALID_LOCATIONS == {"query", "header", "path", "cookie"};
    assert VALID_JSON_TYPES == JSON_TYPES;
  }

  /** Parameters of one place have different names. */
  ghost predicate PairsDiffer(params: seq<Parameter>) {
    forall i, j | 0 <= i < j < |params| :: params[i].location != params[j].location || params[i].name != params[j].name
  }

  lemma {:induction false} KeyAt(params: seq<Parameter>, i: nat)
    requires i < |params|
    ensures |ParameterKeys(params)| == |params| && ParameterKeys(params)[i] == ParameterKey(params[i])
  {
    var n := |params| - 1;
    if i < n {
      KeyAt(params[..n], i);
    } else if n > 0 {
      KeyAt(params[..n], 0);
    }
  }

  lemma SameKeyIff(p: Parameter, q: Parameter)
    requires p.location in VALID_LOCATIONS && q.location in VALID_LOCATIONS
    ensures ParameterKey(p) == ParameterKey(q) <==> p.location == q.location && p.name == q.name
  {
    if ParameterKey(p) == ParameterKey(q) {
      SplitAtSeparator(p.location, p.name, q.location, q.name, ':');
    }
  }

  /** The keys "in:name" tell valid parameters apart exactly when place and name do. */
  lemma KeysDifferIff(params: seq<Parameter>)
    requires forall p | p in params :: p.location in VALID_LOCATIONS
    ensures Distinct(ParameterKeys(params)) <==> PairsDiffer(params)
  {
    var keys := ParameterKeys(params);
    if params != [] {
      KeyAt(params, 0);
    }
    forall i, j | 0 <= i < j < |params|
      ensures keys[i] == keys[j] <==> params[i].location == params[j].location && params[i].name == params[j].name
    {
      KeyAt(params, i);
      KeyAt(params, j);
      assert params[i] in params && params[j] in params;
      SameKeyIff(params[i], params[j]);
    }
  }

  // ---------------------------------------------------------------- path templates (section 4.8.8.2)

  /** Digits, letters and the underscore, by their code. */
  predicate NameCode(n: int) {
    48 <= n <= 57 || 65 <= n <= 90 || n == 95 || 97 <= n <= 122
  }

  predicate NamesChars(name: string) {
    forall i | 0 <= i < |name| :: NameCode(name[i] as int)
  }

  lemma NameCharCode(c: char)
    ensures IsNameChar(c) <==> NameCode(c as int)
  {
  }

  /** `{name}` stands in the path, the name made of letters, digits and underscores. */
  ghost predicate IsTemplateName(path: string, name: string) {
    && name != ""
    && NamesChars(name)
    && exists a, b :: Splits(path, a, "{" + name + "}", b)
  }

  lemma BracedName(path: string, i: nat, j: nat)
    requires i + 1 < j < |path| && path[i] == '{' && path[j] == '}' && NamesChars(path[i + 1..j])
    ensures IsTemplateName(path, path[i + 1..j])
  {
    var name := path[i + 1..j];
    assert "{" + name + "}" == path[i..j + 1];
    assert Splits(path, path[..i], "{" + name + "}", path[j + 1..]);
  }

  lemma NameInBraces(path: string, a: string, name: string, b: string)
    requires Splits(path, a, "{" + name + "}", b)
    ensures |a| + 1 + |name| < |path| && path[|a|] == '{' && path[|a| + 1 + |name|] == '}'
    ensures path[|a| + 1..|a| + 1 + |name|] == name
  {
  }

  lemma ParamIsTemplate(path: string, name: string)
    requires name in PathParams(path)
    ensures IsTemplateName(path, name)
  {
    var i, j :| 0 <= i < j < |path| && i + 1 < j && path[i] == '{' && path[j] == '}'
                && (forall k | i < k < j :: IsNameChar(path[k])) && path[i + 1..j] == name;
    forall k | 0 <= k < |name| ensures NameCode(name[k] as int) {
      assert name[k] == path[i + 1 + k];
      NameCharCode(name[k]);
    }
    BracedName(path, i, j);
  }

  lemma TemplateIsParam(path: string, name: string)
    requires IsTemplateName(path, name)
    ensures name in PathParams(path)
  {
    var a, b :| Splits(path, a, "{" + name + "}", b);
    NameInBraces(path, a, name, b);
    var i, j := |a|, |a| + 1 + |name|;
    forall k | i < k < j ensures IsNameChar(path[k]) {
      assert path[k] == name[k - i - 1];
      NameCharCode(path[k]);
    }
    assert path[i + 1..j] in PathParams(path);
  }

  lemma PathParamsIff(path: string, name: string)
    ensures name in PathParams(path) <==> IsTemplateName(path, name)
  {
    if name in PathParams(path) {
      ParamIsTemplate(path, name);
    }
    if IsTemplateName(path, name) {
      TemplateIsParam(path, name);
    }
  }

  // ---------------------------------------------------------------- responses (section 4.8.16)

  /** A code from 100 to 599, or "default". */
  ghost predicate CodeOk(code: string) {
    code == "default" || exists n: nat :: IsCode(code, n)
  }

  ghost predicate IsCode(code: string, n: nat) {
    100 <= n <= 599 && code == Decimal(n)
  }

  lemma ThreeDigits(n: nat)
    requires 100 <= n <= 999
    ensures Decimal(n) == [DIGITS[n / 100], DIGITS[n / 10 % 10], DIGITS[n % 10]]
  {
    assert Decimal(n) == Decimal(n / 10) + [DIGITS[n % 10]];
    assert Decimal(n / 10) == Decimal(n / 100) + [DIGITS[n / 10 % 10]];
    assert n / 10 / 10 == n / 100 && Decimal(n / 100) == [DIGITS[n / 100]];
  }

  lemma DigitAt(n: nat)
    requires n < 10
    ensures DIGITS[n] == '0' + n as char
  {
  }

  predicate DigitsOk(code: string) {
    |code| == 3 && '1' <= code[0] <= '5' && '0' <= code[1] <= '9' && '0' <= code[2] <= '9'
  }

  lemma CodeOfDigits(code: string)
    requires DigitsOk(code)
    ensures CodeOk(code)
  {
    var a, b, c := (code[0] - '0') as int, (code[1] - '0') as int, (code[2] - '0') as int;
    var n := a * 100 + b * 10 + c;
    DigitAt(a);
    DigitAt(b);
    DigitAt(c);
    assert n / 10 == a * 10 + b && n % 10 == c;
    assert n / 100 == a && n / 10 % 10 == b;
    ThreeDigits(n);
    assert code == [code[0], code[1], code[2]];
    assert IsCode(code, n);
  }

  lemma DigitsOfCode(n: nat)
    requires 100 <= n <= 599
    ensures DigitsOk(Decimal(n))
  {
    ThreeDigits(n);
    DigitAt(n / 100);
    DigitAt(n / 10 % 10);
    DigitAt(n % 10);
  }

  /** The three-digit pattern is that of the numbers from 100 to 599. */
  lemma StatusCodeIff(code: string)
    ensures IsStatusCode(code) <==> CodeOk(code)
  {
    if DigitsOk(code) {
      CodeOfDigits(code);
    }
    if n: nat :| IsCode(code, n) {
      DigitsOfCode(n);
    }
  }

  predicate ContentOk(j: Json) {
    j.Obj? && j.fields != map[] && forall k | k in j.fields :: j.fields[k].Obj?
  }

  /** A response says what it is; its content, if any, is by media type. */
  predicate ResponseOk(j: Json) {
    && j.Obj?
    && "description" in j.fields && j.fields["description"].Str? && !Blank(j.fields["description"].s)
    && ("content" in j.fields ==> ContentOk(j.fields["content"]))
  }

  /** The content of a body is under its type, JSON if it names none. */
  lemma ExportedContentOk(b: MediaType)
    ensures ContentOk(Obj(ExportContent(b)))
    ensures ExportContent(b).Keys == {if b.contentType == "" then "application/json" else b.contentType}
  {
    assert ContentTypeOf(b) in ExportContent(b);
  }

  lemma ResponseOkIff(r: Result)
    ensures ResponseOk(ExportResult(r)) <==> !Blank(r.description)
  {
    var m := ExportResult(r).fields;
    assert m["description"] == Str(r.description);
    if r.body.Some? {
      ExportedContentOk(r.body.value);
      assert m["content"] == Obj(ExportContent(r.body.value));
    }
  }

  /** The request body is required, with content by media type (section 4.8.13). */
  predicate RequestBodyOk(j: Json) {
    && j.Obj?
    && "required" in j.fields && j.fields["required"] == Bool(true)
    && "content" in j.fields && ContentOk(j.fields["content"])
  }

  lemma ExportedRequestBodyOk(b: MediaType)
    ensures RequestBodyOk(ExportRequestBody(b))
  {
    ExportedContentOk(b);
  }

  // ---------------------------------------------------------------- operations (section 4.8.10)

  ghost predicate ResponsesOk(m: Fields) {
    m != map[] && forall code | code in m :: CodeOk(code) && ResponseOk(m[code])
  }

  lemma ResponsesOkIff(responses: map<string, Result>)
    ensures ResponsesOk(ExportResponses(responses)) <==> ValidResponses(responses)
  {
    var m := ExportResponses(responses);
    assert m.Keys == responses.Keys;
    forall code | code in responses
      ensures CodeOk(code) && ResponseOk(m[code]) <==> IsStatusCode(code) && !Blank(responses[code].description)
    {
      StatusCodeIff(code);
      ResponseOkIff(responses[code]);
    }
  }

  predicate IsParameter(j: Json, place: string, name: string) {
    j.Obj? && Get(j.fields, "in") == Str(place) && Get(j.fields, "name") == Str(name)
  }

  /** Parameters obey their rules, differ in place or name, and cover the path's template names. */
  ghost predicate ParametersOk(items: seq<Json>, path: string) {
    && (forall i | 0 <= i < |items| :: ParameterOk(items[i]))
    && (forall i, j, place, name | 0 <= i < j < |items| ::
          !(IsParameter(items[i], place, name) && IsParameter(items[j], place, name)))
    && (forall name | IsTemplateName(path, name) :: CoversName(items, name))
  }

  ghost predicate CoversName(items: seq<Json>, name: string) {
    exists i :: 0 <= i < |items| && IsParameter(items[i], "path", name)
  }

  lemma ExportedIsParameter(p: Parameter, place: string, name: string)
    ensures IsParameter(ExportParameter(p), place, name) <==> p.location == place && p.name == name
  {
    ParameterFields(p);
  }

  lemma PairsDifferIff(params: seq<Parameter>)
    ensures
      var items := MapSeq(ExportParameter, params);
      PairsDiffer(params) <==>
        forall i, j, place, name | 0 <= i < j < |items| ::
          !(IsParameter(items[i], place, name) && IsParameter(items[j], place, name))
  {
    var items := MapSeq(ExportParameter, params);
    forall i, place, name | 0 <= i < |items|
      ensures IsParameter(items[i], place, name) <==> params[i].location == place && params[i].name == name
    {
      ExportedIsParameter(params[i], place, name);
    }
    if i, j :| 0 <= i < j < |params| && params[i].location == params[j].location && params[i].name == params[j].name {
      assert IsParameter(items[i], params[i].location, params[i].name);
      assert IsParameter(items[j], params[i].location, params[i].name);
    }
  }

  lemma CoversIff(params: seq<Parameter>, name: string)
    ensures CoversName(MapSeq(ExportParameter, params), name) <==> name in PathDefinitions(params)
  {
    var items := MapSeq(ExportParameter, params);
    if CoversName(items, name) {
      var i :| 0 <= i < |items| && IsParameter(items[i], "path", name);
      ExportedIsParameter(params[i], "path", name);
      assert params[i] in params;
    }
    if name in PathDefinitions(params) {
      var p :| p in params && p.location == "path" && p.name == name;
      var i :| 0 <= i < |params| && params[i] == p;
      ExportedIsParameter(p, "path", name);
      assert IsParameter(items[i], "path", name);
    }
  }

  lemma EachParameterOk(params: seq<Parameter>)
    ensures (forall i | 0 <= i < |params| :: ParameterOk(MapSeq(ExportParameter, params)[i]))
            <==> forall p | p in params :: ValidParameter(p)
  {
    var items := MapSeq(ExportParameter, params);
    forall i | 0 <= i < |params| ensures ParameterOk(items[i]) <==> ValidParameter(params[i]) {
      ParameterOkIff(params[i]);
    }
    if forall i | 0 <= i < |params| :: ParameterOk(items[i]) {
      forall p | p in params ensures ValidParameter(p) {
        var i :| 0 <= i < |params| && params[i] == p;
        assert ParameterOk(items[i]);
      }
    }
    if forall p | p in params :: ValidParameter(p) {
      forall i | 0 <= i < |params| ensures ParameterOk(items[i]) {
        assert params[i] in params;
      }
    }
  }

  lemma TemplateCovered(params: seq<Parameter>, path: string)
    ensures PathParams(path) <= PathDefinitions(params) <==>
            forall name | IsTemplateName(path, name) :: CoversName(MapSeq(ExportParameter, params), name)
  {
    forall name ensures name in PathParams(path) <==> IsTemplateName(path, name) {
      PathParamsIff(path, name);
    }
    forall name ensures CoversName(MapSeq(ExportParameter, params), name) <==> name in PathDefinitions(params) {
      CoversIff(params, name);
    }
  }

  lemma ParametersOkIff(params: seq<Parameter>, path: string)
    ensures ParametersOk(MapSeq(ExportParameter, params), path) <==>
            ValidParameters(params) && PathParams(path) <= PathDefinitions(params)
  {
    EachParameterOk(params);
    PairsDifferIff(params);
    TemplateCovered(params, path);
    if forall p | p in params :: ValidParameter(p) {
      KeysDifferIff(params);
    }
  }

  /** An operation object under a path, with the document's security schemes. */
  ghost predicate OperationOk(m: Fields, path: string, table: Fields) {
    && ParametersOk(AsArray(Get(m, "parameters")), path)
    && "responses" in m && m["responses"].Obj? && ResponsesOk(m["responses"].fields)
    && ("requestBody" in m ==> RequestBodyOk(m["requestBody"]))
    && (forall j | j in AsArray(Get(m, "security")) :: RequirementOk(j, table))
  }

  lemma OperationFields(op: Operation)
    ensures Get(ExportOperation(op), "responses") == Obj(ExportResponses(op.responses))
    ensures Get(ExportOperation(op), "requestBody") ==
            if op.requestBody.Some? then ExportRequestBody(op.requestBody.value) else Null
    ensures "requestBody" in ExportOperation(op) ==> op.requestBody.Some?
  {
    var entries := OperationEntries(op, ExportSecurity(op.auth, 0));
    OperationKeysDistinct(op, ExportSecurity(op.auth, 0));
    BuiltField(entries, 3);
    BuiltField(entries, 4);
    assert entries[3].key == "requestBody" && entries[3].present == op.requestBody.Some?;
    if op.requestBody.None? {
      NotPresent(entries, 3);
    }
  }

  lemma {:induction false} NotPresent(entries: seq<OpenApiDocument.Entry>, i: nat)
    requires DistinctKeys(entries) && i < |entries| && !entries[i].present
    ensures entries[i].key !in Build(entries)
  {
    var n := |entries| - 1;
    if i < n {
      NotPresent(entries[..n], i);
    } else {
      NotBuilt(entries[..n], entries[n].key);
    }
  }

  /** An exported operation obeys the rules exactly when its parameters and responses are valid. */
  lemma OperationOkIff(endpoints: seq<Endpoint>, e: Endpoint, v: string)
    requires e in endpoints && v in e.operations
    ensures
      var op := e.operations[v];
      OperationOk(ExportOperation(op), e.path, SchemeTable(endpoints)) <==>
        && ValidParameters(op.parameters) && PathParams(e.path) <= PathDefinitions(op.parameters)
        && ValidResponses(op.responses)
  {
    var op := e.operations[v];
    OperationLists(op);
    OperationFields(op);
    SecurityResolves(endpoints, e, v);
    ParametersOkIff(op.parameters, e.path);
    ResponsesOkIff(op.responses);
    if op.requestBody.Some? {
      ExportedRequestBodyOk(op.requestBody.value);
    }
  }

  // ---------------------------------------------------------------- paths (sections 4.8.8 and 4.8.9)

  const METHOD_NAMES := {"get", "put", "post", "delete", "options", "head", "patch", "trace"}

  lemma TokenIsTrimmed(a: string, v: string, b: string)
    requires IsToken(v) && v != "" && Blank(a) && Blank(b)
    ensures TrimSpace(a + v + b) == v
  {
    TokenIsAscii(v[0]);
    TokenIsAscii(v[|v| - 1]);
    assert !IsSpace(v[0]) && !IsSpace(v[|v| - 1]);
    TrimSpaceTakesOff(a, v, b);
  }

  lemma UpperIffLower(v: string, lower: string, upper: string)
    requires IsToken(v) && IsToken(lower) && ToLower(lower) == lower && ToUpper(lower) == upper
    ensures ToUpper(v) == upper <==> ToLower(v) == lower
  {
    if |v| == |lower| {
      forall i | 0 <= i < |v|
        ensures UpperChar(v[i]) == UpperChar(lower[i]) <==> LowerChar(v[i]) == LowerChar(lower[i])
      {
        TokenIsAscii(v[i]);
        TokenIsAscii(lower[i]);
        AsciiCases(v[i], lower[i]);
      }
      assert ToUpper(v) == ToUpper(lower) <==> forall i | 0 <= i < |v| :: UpperChar(v[i]) == UpperChar(lower[i]);
      assert ToLower(v) == ToLower(lower) <==> forall i | 0 <= i < |v| :: LowerChar(v[i]) == LowerChar(lower[i]);
    }
  }

  /**
   A method key that is a token, with or without white space around it, is valid exactly
   when import knows the token in lower case.
   */
  lemma MethodKeyIff(a: string, v: string, b: string)
    requires IsToken(v) && v != "" && Blank(a) && Blank(b)
    ensures ValidVerb(a + v + b) <==> exists i :: 0 <= i < |VERBS| && VERBS[i].lower == ToLower(v)
  {
    TokenIsTrimmed(a, v, b);
    VerbsAreMethods();
    forall i | 0 <= i < |VERBS| ensures ToUpper(v) == VERBS[i].upper <==> ToLower(v) == VERBS[i].lower {
      VerbNames(i);
      UpperIffLower(v, VERBS[i].lower, VERBS[i].upper);
    }
    if ToUpper(v) in VALID_METHODS {
      var i :| 0 <= i < |VERBS| && VERBS[i].upper == ToUpper(v);
      assert VERBS[i].lower == ToLower(v);
    }
  }

  predicate SmallLetters(s: string) {
    forall i | 0 <= i < |s| :: 'a' <= s[i] <= 'z'
  }

  lemma SmallLettersStay(lower: string)
    requires SmallLetters(lower)
    ensures IsToken(lower) && ToLower(lower) == lower
  {
  }

  lemma VerbNames(i: nat)
    requires i < |VERBS|
    ensures IsToken(VERBS[i].lower)
    ensures ToLower(VERBS[i].lower) == VERBS[i].lower && ToUpper(VERBS[i].lower) == VERBS[i].upper
  {
    VerbLetters(i);
    SmallLettersStay(VERBS[i].lower);
  }

  lemma VerbLetters(i: nat)
    requires i < |VERBS|
    ensures SmallLetters(VERBS[i].lower) && ToUpper(VERBS[i].lower) == VERBS[i].upper
  {
  }

  lemma VerbsAreMethods()
    ensures forall m :: m in VALID_METHODS <==> exists i :: 0 <= i < |VERBS| && VERBS[i].upper == m
  {
    assert VERBS[0].upper == "GET" && VERBS[1].upper == "POST" && VERBS[2].upper == "PUT" && VERBS[3].upper == "PATCH";
    assert VERBS[4].upper == "DELETE" && VERBS[5].upper == "HEAD" && VERBS[6].upper == "OPTIONS";
  }

  /** A path item: its keys are methods in lower case, each with an operation. */
  ghost predicate PathItemOk(j: Json, path: string, table: Fields) {
    && j.Obj?
    && forall k | k in j.fields ::
         k in METHOD_NAMES && j.fields[k].Obj? && OperationOk(j.fields[k].fields, path, table)
  }

  ghost predicate PathsOk(m: Fields, table: Fields) {
    forall path | path in m :: "/" <= path && PathItemOk(m[path], path, table)
  }

  /** Method keys that name a method without more ado: no space around it. */
  ghost predicate CleanKeys(endpoints: seq<Endpoint>) {
    forall e | e in endpoints :: KeysClean(e.operations)
  }

  ghost predicate AllEndpointsValid(endpoints: seq<Endpoint>) {
    forall e | e in endpoints :: ValidEndpoint(e)
  }

  /** The operations of a valid endpoint's path item obey the rules. */
  lemma ItemOperationOk(endpoints: seq<Endpoint>, e: Endpoint, k: string)
    requires AllEndpointsValid(endpoints) && e in endpoints
    ensures
      var item := ExportPathItem(e.operations, SortedKeys(e.operations.Keys));
      k in item ==> item[k].Obj? && OperationOk(item[k].fields, e.path, SchemeTable(endpoints))
  {
    var keys := SortedKeys(e.operations.Keys);
    PathItemHolds(e.operations, keys, k);
    if k in ExportPathItem(e.operations, keys) {
      var v := LastWith(keys, k).value;
      assert ValidEndpoint(e) && ValidOperation(e.path, v, e.operations[v]);
      OperationOkIff(endpoints, e, v);
    }
  }

  /** The keys of a path item are the methods in lower case. */
  lemma ItemKey(ops: map<string, Operation>, k: string)
    ensures k in ExportPathItem(ops, SortedKeys(ops.Keys)) <==> exists v :: v in ops && ToLower(v) == k
  {
    var keys := SortedKeys(ops.Keys);
    PathItemHolds(ops, keys, k);
    if v :| v in ops && ToLower(v) == k {
      assert v in keys;
    }
  }

  ghost predicate KeysClean(ops: map<string, Operation>) {
    forall v | v in ops :: ToLower(v) in METHOD_NAMES
  }

  lemma ItemKeysClean(ops: map<string, Operation>)
    ensures (forall k | k in ExportPathItem(ops, SortedKeys(ops.Keys)) :: k in METHOD_NAMES) <==> KeysClean(ops)
  {
    var item := ExportPathItem(ops, SortedKeys(ops.Keys));
    forall k | k in item ensures exists v :: v in ops && ToLower(v) == k {
      ItemKey(ops, k);
    }
    forall v | v in ops ensures ToLower(v) in item {
      ItemKey(ops, ToLower(v));
    }
  }

  ghost predicate OperationsOk(item: Fields, path: string, table: Fields) {
    forall k | k in item :: item[k].Obj? && OperationOk(item[k].fields, path, table)
  }

  lemma ItemOkParts(item: Fields, path: string, table: Fields)
    ensures PathItemOk(Obj(item), path, table) <==>
            (forall k | k in item :: k in METHOD_NAMES) && OperationsOk(item, path, table)
  {
  }

  lemma ItemOperationsOk(endpoints: seq<Endpoint>, e: Endpoint)
    requires AllEndpointsValid(endpoints) && e in endpoints
    ensures OperationsOk(ExportPathItem(e.operations, SortedKeys(e.operations.Keys)), e.path, SchemeTable(endpoints))
  {
    var item := ExportPathItem(e.operations, SortedKeys(e.operations.Keys));
    forall k | k in item ensures item[k].Obj? && OperationOk(item[k].fields, e.path, SchemeTable(endpoints)) {
      ItemOperationOk(endpoints, e, k);
    }
  }

  lemma ItemOkIff(endpoints: seq<Endpoint>, e: Endpoint)
    requires AllEndpointsValid(endpoints) && e in endpoints
    ensures PathItemOk(Obj(ExportPathItem(e.operations, SortedKeys(e.operations.Keys))), e.path, SchemeTable(endpoints))
            <==> KeysClean(e.operations)
  {
    ItemKeysClean(e.operations);
    ItemOperationsOk(endpoints, e);
    ItemOkParts(ExportPathItem(e.operations, SortedKeys(e.operations.Keys)), e.path, SchemeTable(endpoints));
  }

  /** The paths of a contract with valid endpoints obey the rules exactly when its method keys are clean. */
  lemma PathsOkIff(endpoints: seq<Endpoint>)
    requires AllEndpointsValid(endpoints) && UniquePaths(endpoints)
    ensures PathsOk(ExportPaths(endpoints), SchemeTable(endpoints)) <==> CleanKeys(endpoints)
  {
    var paths, table := ExportPaths(endpoints), SchemeTable(endpoints);
    forall path ensures path in paths <==> path in PathSet(endpoints) {
      PathsHold(endpoints, path);
    }
    forall e | e in endpoints
      ensures e.path in paths && "/" <= e.path
      ensures PathItemOk(paths[e.path], e.path, table) <==> KeysClean(e.operations)
    {
      PathsHold(endpoints, e.path);
      OwnEndpoint(endpoints, e);
      ItemOkIff(endpoints, e);
      assert ValidEndpoint(e);
    }
    if CleanKeys(endpoints) {
      forall path | path in paths ensures "/" <= path && PathItemOk(paths[path], path, table) {
        var e := EndpointAt(endpoints, path);
        assert e in endpoints;
      }
    }
  }

  /** With distinct paths, the endpoint at an endpoint's path is that endpoint. */
  lemma OwnEndpoint(endpoints: seq<Endpoint>, e: Endpoint)
    requires UniquePaths(endpoints) && e in endpoints
    ensures e.path in PathSet(endpoints) && EndpointAt(endpoints, e.path) == e
  {
    var o := EndpointAt(endpoints, e.path);
    var i :| 0 <= i < |endpoints| && endpoints[i] == e;
    var j :| 0 <= j < |endpoints| && endpoints[j] == o;
    assert i < j ==> endpoints[i].path != endpoints[j].path;
    assert j < i ==> endpoints[j].path != endpoints[i].path;
  }

  // ---------------------------------------------------------------- documents (section 4.8.1)

  lemma {:induction false} PresentIff(entries: seq<OpenApiDocument.Entry>, i: nat)
    requires DistinctKeys(entries) && i < |entries|
    ensures entries[i].key in Build(entries) <==> entries[i].present
  {
    if entries[i].present {
      IsPresent(entries, i);
    } else {
      NotPresent(entries, i);
    }
  }

  lemma {:induction false} IsPresent(entries: seq<OpenApiDocument.Entry>, i: nat)
    requires i < |entries| && entries[i].present
    ensures entries[i].key in Build(entries)
  {
    if i < |entries| - 1 {
      IsPresent(entries[..|entries| - 1], i);
    }
  }

  /** Servers and components are written only when there are some. */
  lemma OptionalParts(c: Contract)
    ensures "servers" in ExportDocument(c) <==> c.servers != []
    ensures "components" in ExportDocument(c) <==> SchemeTable(c.endpoints) != map[]
  {
    DocumentKeysDistinct(c);
    assert EntriesOf(c)[3].key == "servers" && EntriesOf(c)[4].key == "components";
    PresentIff(EntriesOf(c), 3);
    PresentIff(EntriesOf(c), 4);
  }

  /** So are an operation's parameters, body, security, examples and texts. */
  lemma OptionalOperationParts(op: Operation)
    ensures "summary" in ExportOperation(op) <==> op.summary != ""
    ensures "description" in ExportOperation(op) <==> op.description != ""
    ensures "parameters" in ExportOperation(op) <==> op.parameters != []
    ensures "requestBody" in ExportOperation(op) <==> op.requestBody.Some?
    ensures "x-apix-examples" in ExportOperation(op) <==> op.examples != []
    ensures "security" in ExportOperation(op) <==> ExportSecurity(op.auth, 0) != []
  {
    var entries := OperationEntries(op, ExportSecurity(op.auth, 0));
    OperationKeysDistinct(op, ExportSecurity(op.auth, 0));
    PresentIff(entries, 0);
    PresentIff(entries, 1);
    PresentIff(entries, 2);
    PresentIff(entries, 3);
    PresentIff(entries, 5);
    PresentIff(entries, 6);
  }

  predicate InfoOk(j: Json) {
    && j.Obj?
    && "title" in j.fields && j.fields["title"].Str? && !Blank(j.fields["title"].s)
    && "version" in j.fields && j.fields["version"].Str? && !Blank(j.fields["version"].s)
  }

  predicate ServerOk(j: Json) {
    j.Obj? && "url" in j.fields && j.fields["url"].Str?
  }

  ghost predicate DocumentOk(doc: Fields) {
    var table := AsObject(Get(AsObject(Get(doc, "components")), "securitySchemes"));
    && "openapi" in doc && doc["openapi"].Str? && "3.1." <= doc["openapi"].s
    && "info" in doc && InfoOk(doc["info"])
    && "paths" in doc && doc["paths"].Obj? && PathsOk(doc["paths"].fields, table)
    && (forall i | 0 <= i < |AsArray(Get(doc, "servers"))| :: ServerOk(AsArray(Get(doc, "servers"))[i]))
    && (forall name | name in table :: SchemeOk(table[name]))
  }

  lemma ExportedHead(c: Contract)
    ensures Get(ExportDocument(c), "openapi") == Str("3.1.0")
    ensures Get(ExportDocument(c), "info") ==
            Obj(map["title" := Str(c.info.title), "version" := Str(c.info.version),
                    "description" := Str(c.info.description)])
    ensures Get(ExportDocument(c), "paths") == Obj(ExportPaths(c.endpoints))
  {
    DocumentKeysDistinct(c);
    BuiltField(EntriesOf(c), 0);
    BuiltField(EntriesOf(c), 1);
    BuiltField(EntriesOf(c), 2);
  }

  lemma InfoOkIff(info: Info)
    ensures InfoOk(Obj(map["title" := Str(info.title), "version" := Str(info.version),
                           "description" := Str(info.description)]))
            <==> !Blank(info.title) && !Blank(info.version)
  {
    var m: Fields := map["title" := Str(info.title), "version" := Str(info.version),
                         "description" := Str(info.description)];
    assert m["title"] == Str(info.title) && m["version"] == Str(info.version);
  }

  lemma ServersOk(servers: seq<Server>)
    ensures forall i | 0 <= i < |servers| :: ServerOk(MapSeq(ExportServer, servers)[i])
  {
  }

  /** A valid contract is exported to a document that obeys the rules exactly when its method keys are clean. */
  lemma DocumentOkIff(c: Contract)
    requires IsValid(c)
    ensures DocumentOk(ExportDocument(c)) <==> CleanKeys(c.endpoints)
  {
    ExportedHead(c);
    DocumentTable(c);
    DocumentFields(c);
    InfoOkIff(c.info);
    ServersOk(c.servers);
    forall e | e in c.endpoints ensures ValidEndpoint(e) {
      var i :| 0 <= i < |c.endpoints| && c.endpoints[i] == e;
    }
    PathsOkIff(c.endpoints);
    forall name | name in SchemeTable(c.endpoints) ensures SchemeOk(SchemeTable(c.endpoints)[name]) {
      TableOk(c.endpoints, name);
    }
  }
}
