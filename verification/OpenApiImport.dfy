/** What import makes of any document at all, well-formed or not. */
module OpenApiImport {
  import opened Collections
  import opened ContractModel
  import opened JsonTree
  import opened OpenApiDocument
  import opened OpenApiTheorems
  import opened Ordering
  import opened Text
  import opened Wrappers

  // ---------------------------------------------------------------- lists

  /** List items are read one by one, in order. */
  lemma {:induction false} ReadsInOrder<B>(f: Fields -> B, a: seq<Json>, b: seq<Json>)
    ensures ReadObjects(f, a + b) == ReadObjects(f, a) + ReadObjects(f, b)
  {
    if a == [] {
      assert a + b == b;
    } else {
      ConsAppend(a, b);
      ReadsInOrder(f, a[1..], b);
      Associative(if a[0].Obj? then [f(a[0].fields)] else [], ReadObjects(f, a[1..]), ReadObjects(f, b));
    }
  }

  /** An object is read, anything else skipped. */
  lemma ReadsOne<B>(f: Fields -> B, j: Json)
    ensures ReadObjects(f, [j]) == if j.Obj? then [f(j.fields)] else []
  {
    assert [j][1..] == [];
    assert ReadObjects(f, []) == [];
  }

  lemma {:induction false} ServersInOrder(a: seq<Json>, b: seq<Json>)
    ensures ImportServers(a + b) == ImportServers(a) + ImportServers(b)
  {
    if a == [] {
      assert a + b == b;
    } else {
      ConsAppend(a, b);
      ServersInOrder(a[1..], b);
      Associative(ImportServer(a[0]), ImportServers(a[1..]), ImportServers(b));
    }
  }

  predicate HasUrl(j: Json, url: string) {
    j.Obj? && "url" in j.fields && j.fields["url"] == Str(url)
  }

  /** A server is read exactly if it is an object with a URL that is not blank. */
  lemma ServerRead(j: Json)
    ensures (exists url :: HasUrl(j, url) && TrimSpace(url) != "") <==> ImportServer(j) != []
    ensures forall url | HasUrl(j, url) && ImportServer(j) != [] ::
              |ImportServer(j)| == 1 && ImportServer(j)[0].url == url
  {
    var url := AsString(Get(AsObject(j), "url"));
    BlankIffTrimmed(url);
    if ImportServer(j) != [] {
      assert HasUrl(j, url);
    }
  }

  lemma {:induction false} SolidHeadKept(t: string)
    requires t != "" && !IsSpace(t[0])
    ensures TrimRight(t) != ""
  {
    if IsSpace(t[|t| - 1]) {
      SolidHeadKept(t[..|t| - 1]);
    }
  }

  lemma BlankIffTrimmed(s: string)
    ensures Blank(s) <==> TrimSpace(s) == ""
  {
    var t := TrimLeft(s);
    if t == "" {
      assert forall i | 0 <= i < |s| :: IsSpace(s[i]);
    } else {
      SolidHeadKept(t);
      assert t[0] == s[|s| - |t|];
    }
  }

  // ---------------------------------------------------------------- bodies

  /** Of several media types the least one is read. */
  lemma LeastTypeRead(content: Json)
    ensures ImportContent(content).None? <==> !content.Obj? || content.fields == map[]
    ensures ImportContent(content).Some? ==>
              var t := ImportContent(content).value.contentType;
              t in content.fields && forall k | k in content.fields :: Leq(t, k)
  {
    if content.Obj? && content.fields != map[] {
      var types := SortedKeys(content.fields.Keys);
      var t := types[0];
      assert t in types;
      forall k | k in content.fields ensures Leq(t, k) {
        assert k in types;
        var i :| 0 <= i < |types| && types[i] == k;
        LeqReflexive(t);
      }
    }
  }

  /** Its schema is read if it is an object, its examples if they are objects. */
  lemma MediaRead(content: Json)
    requires ImportContent(content).Some?
    ensures
      var b := ImportContent(content).value;
      var m := AsObject(content.fields[b.contentType]);
      && (b.schema.Some? <==> "schema" in m && m["schema"].Obj?)
      && (b.schema.Some? ==> b.schema.value == m["schema"].fields)
      && (forall k :: k in b.examples <==>
            "examples" in m && m["examples"].Obj? && k in m["examples"].fields && m["examples"].fields[k].Obj?)
  {
  }

  // ---------------------------------------------------------------- parameters

  predicate TextAt(m: Fields, k: string, s: string) {
    if k in m && m[k].Str? then s == m[k].s else s == ""
  }

  /** Missing or ill-typed texts read as empty, and a parameter is required only if the document says true. */
  lemma ParameterRead(m: Fields)
    ensures TextAt(m, "name", ImportParameter(m).name) && TextAt(m, "in", ImportParameter(m).location)
    ensures TextAt(m, "description", ImportParameter(m).description)
    ensures ImportParameter(m).required <==> "required" in m && m["required"] == Bool(true)
    ensures TextAt(AsObject(Get(m, "schema")), "type", ImportParameter(m).schema.typ)
    ensures TextAt(AsObject(Get(m, "schema")), "format", ImportParameter(m).schema.format)
  {
  }

  // ---------------------------------------------------------------- security

  lemma SecurityUnfold(table: Fields, items: seq<Json>)
    requires items != []
    ensures ImportSecurity(table, items) == ImportItem(table, items[0]) + ImportSecurity(table, items[1..])
  {
  }

  /** Requirements are read one by one, in order. */
  lemma {:induction false} SecurityInOrder(table: Fields, a: seq<Json>, b: seq<Json>)
    ensures ImportSecurity(table, a + b) == ImportSecurity(table, a) + ImportSecurity(table, b)
  {
    if a == [] {
      assert a + b == b;
    } else {
      ConsAppend(a, b);
      SecurityUnfold(table, a);
      SecurityUnfold(table, a + b);
      SecurityInOrder(table, a[1..], b);
      Associative(ImportItem(table, a[0]), ImportSecurity(table, a[1..]), ImportSecurity(table, b));
    }
  }

  predicate IsType(table: Fields, name: string, typ: string) {
    name in table && table[name].Obj? && "type" in table[name].fields && table[name].fields["type"] == Str(typ)
  }

  /** A named requirement is read through the scheme's type, and only four types are known. */
  lemma RequirementRead(table: Fields, name: string, scopes: Json)
    ensures
      var a := ImportRequirement(table, name, scopes);
      && (a.Some? <==>
            IsType(table, name, "apiKey") || IsType(table, name, "http")
            || IsType(table, name, "oauth2") || IsType(table, name, "mutualTLS"))
      && (a.Some? ==>
            && (a.value.typ == "apiKey" <==> IsType(table, name, "apiKey"))
            && (a.value.typ == "http" <==> IsType(table, name, "http"))
            && (a.value.typ == "oauth2" <==> IsType(table, name, "oauth2"))
            && (a.value.typ == "mtls" <==> IsType(table, name, "mutualTLS"))
            && (a.value.typ != "http" ==> a.value.scheme == "")
            && (a.value.typ == "http" ==> TextAt(table[name].fields, "scheme", a.value.scheme)))
  {
    var typ := AsString(Get(AsObject(Get(table, name)), "type"));
    assert forall t :: t != "" ==> (IsType(table, name, t) <==> typ == t);
  }

  // ---------------------------------------------------------------- paths

  /** The verb of the list that an upper-case name belongs to, if the item has it. */
  ghost predicate Reads(item: Fields, verbs: seq<Verb>, upper: string, i: nat) {
    i < |verbs| && verbs[i].upper == upper && verbs[i].lower in item
  }

  lemma ReadsInit(item: Fields, verbs: seq<Verb>, upper: string)
    requires verbs != []
    ensures
      var n := |verbs| - 1;
      (exists i: nat :: Reads(item, verbs, upper, i)) <==>
        Reads(item, verbs, upper, n) || exists i: nat :: Reads(item, verbs[..n], upper, i)
  {
    var n := |verbs| - 1;
    if i: nat :| Reads(item, verbs[..n], upper, i) {
      assert Reads(item, verbs, upper, i);
    }
    if i: nat :| i < n && Reads(item, verbs, upper, i) {
      assert Reads(item, verbs[..n], upper, i);
    }
  }

  lemma {:induction false} VerbsRead(item: Fields, table: Fields, verbs: seq<Verb>, upper: string)
    ensures upper in ImportVerbs(item, table, verbs) <==> exists i: nat :: Reads(item, verbs, upper, i)
  {
    if verbs != [] {
      VerbsRead(item, table, verbs[..|verbs| - 1], upper);
      ReadsInit(item, verbs, upper);
    } else {
      assert forall i: nat :: !Reads(item, verbs, upper, i);
    }
  }

  lemma {:induction false} VerbReadAt(item: Fields, table: Fields, verbs: seq<Verb>, i: nat)
    requires DistinctUppers(verbs) && i < |verbs| && verbs[i].lower in item
    ensures verbs[i].upper in ImportVerbs(item, table, verbs)
    ensures ImportVerbs(item, table, verbs)[verbs[i].upper] == ImportOperation(item[verbs[i].lower], table)
  {
    var n := |verbs| - 1;
    if i < n {
      VerbReadAt(item, table, verbs[..n], i);
      assert verbs[i].upper != verbs[n].upper;
    }
  }

  /** Texts of an operation are read from their keys; what is no object reads as an empty operation. */
  lemma OperationRead(raw: Json, table: Fields)
    ensures TextAt(AsObject(raw), "summary", ImportOperation(raw, table).summary)
    ensures TextAt(AsObject(raw), "description", ImportOperation(raw, table).description)
    ensures !raw.Obj? ==>
              var op := ImportOperation(raw, table);
              && op.parameters == [] && op.requestBody == None && op.responses == map[]
              && op.auth == [] && op.examples == []
  {
  }

  /** Of the responses just the objects are read, each with its description. */
  lemma ResponsesRead(m: Fields, code: string)
    ensures code in ImportResponses(m) <==> code in m && m[code].Obj?
    ensures code in ImportResponses(m) ==> TextAt(m[code].fields, "description", ImportResponses(m)[code].description)
  {
  }

  /** A path item gives an operation for just the supported methods that it has, each from its own key. */
  lemma OperationsRead(item: Fields, table: Fields, i: nat)
    requires i < |VERBS|
    ensures VERBS[i].upper in ImportPathItem(item, table) <==> VERBS[i].lower in item
    ensures VERBS[i].lower in item ==>
              ImportPathItem(item, table)[VERBS[i].upper] == ImportOperation(item[VERBS[i].lower], table)
  {
    VerbsDistinct();
    OneOperation(item, table, VERBS, i);
  }

  lemma OneOperation(item: Fields, table: Fields, verbs: seq<Verb>, i: nat)
    requires DistinctUppers(verbs) && i < |verbs|
    ensures verbs[i].upper in ImportVerbs(item, table, verbs) <==> verbs[i].lower in item
    ensures verbs[i].lower in item ==>
              ImportVerbs(item, table, verbs)[verbs[i].upper] == ImportOperation(item[verbs[i].lower], table)
  {
    VerbsRead(item, table, verbs, verbs[i].upper);
    if verbs[i].lower in item {
      VerbReadAt(item, table, verbs, i);
    }
    if k: nat :| Reads(item, verbs, verbs[i].upper, k) {
      assert k == i;
    }
  }

  lemma NoOtherOperations(item: Fields, table: Fields, upper: string)
    requires upper in ImportPathItem(item, table)
    ensures exists i: nat :: Reads(item, VERBS, upper, i)
  {
    VerbsRead(item, table, VERBS, upper);
  }

  lemma {:induction false} PathsRead(paths: Fields, keys: seq<string>, table: Fields, e: Endpoint)
    requires forall k | k in keys :: k in paths
    ensures e in ImportPaths(paths, keys, table) <==>
            && e.path in keys && paths[e.path].Obj? && e.operations != map[]
            && e.operations == ImportPathItem(paths[e.path].fields, table)
  {
    if keys != [] {
      PathsRead(paths, keys[1..], table, e);
      assert e.path in keys <==> e.path == keys[0] || e.path in keys[1..];
    }
  }

  /** The endpoints are the paths whose items are objects with a supported method, with the operations found there. */
  lemma EndpointsRead(doc: Fields, e: Endpoint)
    ensures
      var table := AsObject(Get(AsObject(Get(doc, "components")), "securitySchemes"));
      var paths := AsObject(Get(doc, "paths"));
      e in ImportDocument(doc).endpoints <==>
        && e.path in paths && paths[e.path].Obj? && e.operations != map[]
        && e.operations == ImportPathItem(paths[e.path].fields, table)
  {
    var table := AsObject(Get(AsObject(Get(doc, "components")), "securitySchemes"));
    var paths := AsObject(Get(doc, "paths"));
    PathsRead(paths, SortedKeys(paths.Keys), table, e);
  }

  /** A text that is not blank is kept, any other replaced by one that is not blank. */
  lemma TextOr(j: Json, fallback: string)
    requires !Blank(fallback)
    ensures !Blank(NonBlankOr(AsString(j), fallback))
    ensures forall t | j == Str(t) && !Blank(t) :: NonBlankOr(AsString(j), fallback) == t
  {
  }

  /** Whatever the document, the contract has the current version and a title and version that are not blank. */
  lemma HeadRead(doc: Fields)
    ensures ImportDocument(doc).schemaVersion == "apix.contract/v1"
    ensures !Blank(ImportDocument(doc).info.title) && !Blank(ImportDocument(doc).info.version)
    ensures forall t | Get(AsObject(Get(doc, "info")), "title") == Str(t) && !Blank(t) ::
              ImportDocument(doc).info.title == t
    ensures forall t | Get(AsObject(Get(doc, "info")), "version") == Str(t) && !Blank(t) ::
              ImportDocument(doc).info.version == t
  {
    var info := AsObject(Get(doc, "info"));
    assert !IsSpace("Imported API"[0]) && !IsSpace("0.1.0"[0]);
    TextOr(Get(info, "title"), "Imported API");
    TextOr(Get(info, "version"), "0.1.0");
  }
}
