/**
 Schema inference of internal/learn/openapi.go: the loops of the code, and the
 set-based function they compute.
 */
module SchemaInference {
  import opened Collections
  import opened JsonTree
  import opened Ordering

  /** The four shapes of schema object that the code emits. */
  datatype Schema =
    | TypeOnly(typ: string)
    | OneOf(types: seq<string>)
    | ObjectSchema(properties: map<string, Schema>, required: seq<string>)
    | ArraySchema(element: Schema)

  const INT64_LIMIT: real := 9223372036854775808.0

  /** `v == float64(int64(v))`: conversions out of the int64 range do not give `v` back. */
  predicate IsInt64(n: real) {
    n.Floor as real == n && -INT64_LIMIT <= n < INT64_LIMIT
  }

  function ValueType(v: Json): string {
    match v
    case Obj(_) => "object"
    case Arr(_) => "array"
    case Str(_) => "string"
    case Bool(_) => "boolean"
    case Num(n) => if IsInt64(n) then "integer" else "number"
    case Null => "string"
  }

  /** An integer value that a signed 64-bit integer holds. */
  ghost predicate HoldsInteger(n: real, k: int) {
    n == k as real && -0x8000_0000_0000_0000 <= k < 0x8000_0000_0000_0000
  }

  /** What each type name stands for; nil is taken for a string. */
  lemma ValueTypeMeans(v: Json)
    ensures ValueType(v) == "integer" <==> v.Num? && exists k :: HoldsInteger(v.n, k)
    ensures ValueType(v) == "number" <==> v.Num? && !exists k :: HoldsInteger(v.n, k)
    ensures ValueType(v) == "string" <==> v.Str? || v == Null
    ensures ValueType(v) == "boolean" <==> v.Bool?
    ensures ValueType(v) == "object" <==> v.Obj?
    ensures ValueType(v) == "array" <==> v.Arr?
  {
    if v.Num? {
      if IsInt64(v.n) {
        assert HoldsInteger(v.n, v.n.Floor);
      }
      if k :| HoldsInteger(v.n, k) {
        assert v.n.Floor == k;
      }
    }
  }

  // ---------------------------------------------------------------- specification

  ghost function KeysOf(vs: set<Json>): set<string> {
    set v, k | v in vs && v.Obj? && k in v.fields :: k
  }

  /** The values found under key `k`. */
  ghost function ValuesAt(vs: set<Json>, k: string): set<Json> {
    set v | v in vs && v.Obj? && k in v.fields :: v.fields[k]
  }

  /** The keys that every object has. */
  ghost function CommonKeys(vs: set<Json>): set<string> {
    set k | k in KeysOf(vs) && forall v | v in vs :: v.Obj? && k in v.fields
  }

  /** The elements of all arrays together. */
  ghost function Pool(vs: set<Json>): set<Json> {
    set v, x | v in vs && v.Arr? && x in v.items :: x
  }

  ghost function TypesOf(vs: set<Json>): set<string> {
    set v | v in vs :: ValueType(v)
  }

  ghost predicate AllObjects(vs: set<Json>) {
    forall v | v in vs :: v.Obj?
  }

  ghost predicate AllArrays(vs: set<Json>) {
    forall v | v in vs :: v.Arr?
  }

  lemma ValuesAtShallower(vs: set<Json>, k: string)
    requires vs != {} && AllObjects(vs)
    ensures DepthOfAll(ValuesAt(vs, k)) < DepthOfAll(vs)
  {
  }

  lemma PoolShallower(vs: set<Json>)
    requires vs != {} && AllArrays(vs)
    ensures DepthOfAll(Pool(vs)) < DepthOfAll(vs)
  {
  }

  /** The schema of a set of samples: neither order nor repetition is an input. */
  ghost function SchemaOf(vs: set<Json>): Schema
    decreases DepthOfAll(vs), 1
  {
    if vs == {} then TypeOnly("string")
    else if AllObjects(vs) then ObjectSchema(PropertySchemas(vs), SortedKeys(CommonKeys(vs)))
    else if AllArrays(vs) then
      PoolShallower(vs);
      ArraySchema(SchemaOf(Pool(vs)))
    else
      var types := SortedKeys(TypesOf(vs));
      if |types| == 1 then TypeOnly(types[0]) else OneOf(types)
  }

  ghost function PropertySchemas(vs: set<Json>): (props: map<string, Schema>)
    requires vs != {} && AllObjects(vs)
    ensures props.Keys == KeysOf(vs)
    ensures forall k | k in props :: props[k] == SchemaOf(ValuesAt(vs, k))
    decreases DepthOfAll(vs), 0
  {
    map k | k in KeysOf(vs) :: (ValuesAtShallower(vs, k); SchemaOf(ValuesAt(vs, k)))
  }

  /**
   Conformance, with types judged by `ValueType` and `oneOf` meaning exactly one.
   Stricter than JSON Schema in that every key of an object must be described.
   */
  ghost predicate Conforms(v: Json, s: Schema)
    decreases s
  {
    match s
    case TypeOnly(t) => ValueType(v) == t
    case OneOf(ts) =>
      exists i :: 0 <= i < |ts| && ts[i] == ValueType(v)
        && forall j | 0 <= j < |ts| && ts[j] == ValueType(v) :: j == i
    case ObjectSchema(properties, required) =>
      && v.Obj?
      && (forall k | k in required :: k in v.fields)
      && v.fields.Keys <= properties.Keys
      && (forall k | k in v.fields :: Conforms(v.fields[k], properties[k]))
    case ArraySchema(element) =>
      && v.Arr?
      && forall i | 0 <= i < |v.items| :: Conforms(v.items[i], element)
  }

  lemma ObjectConforms(vs: set<Json>, v: Json)
    requires v in vs && AllObjects(vs)
    requires forall k | k in v.fields :: Conforms(v.fields[k], SchemaOf(ValuesAt(vs, k)))
    ensures Conforms(v, SchemaOf(vs))
  {
    assert forall k | k in v.fields :: k in KeysOf(vs);
    assert forall k | k in CommonKeys(vs) :: k in v.fields;
  }

  lemma OneOfMembers(types: seq<string>, v: Json)
    requires Ascending(types) && ValueType(v) in types
    ensures Conforms(v, OneOf(types)) && (|types| == 1 ==> Conforms(v, TypeOnly(types[0])))
  {
    var i :| 0 <= i < |types| && types[i] == ValueType(v);
    assert forall j | 0 <= j < |types| && j != i :: types[j] != types[i];
  }

  lemma ScalarConforms(vs: set<Json>, v: Json)
    requires v in vs && !AllObjects(vs) && !AllArrays(vs)
    ensures Conforms(v, SchemaOf(vs))
  {
    var types := SortedKeys(TypesOf(vs));
    assert ValueType(v) in TypesOf(vs);
    OneOfMembers(types, v);
  }

  /** Soundness: every sample conforms, at every depth, to the schema inferred from it. */
  lemma {:induction false} InferredSchemaIsSound(vs: set<Json>, v: Json)
    requires v in vs
    ensures Conforms(v, SchemaOf(vs))
    decreases DepthOfAll(vs)
  {
    if AllObjects(vs) {
      forall k | k in v.fields ensures Conforms(v.fields[k], SchemaOf(ValuesAt(vs, k))) {
        ValuesAtShallower(vs, k);
        InferredSchemaIsSound(ValuesAt(vs, k), v.fields[k]);
      }
      ObjectConforms(vs, v);
    } else if AllArrays(vs) {
      PoolShallower(vs);
      forall i | 0 <= i < |v.items| ensures Conforms(v.items[i], SchemaOf(Pool(vs))) {
        assert v.items[i] in v.items;
        InferredSchemaIsSound(Pool(vs), v.items[i]);
      }
    } else {
      ScalarConforms(vs, v);
    }
  }

  /** Tightness of one level: `required`, `properties` and `oneOf` say no more than the samples do. */
  lemma InferredSchemaIsTight(vs: set<Json>)
    requires vs != {}
    ensures SchemaOf(vs).ObjectSchema? <==> AllObjects(vs)
    ensures SchemaOf(vs).ArraySchema? <==> AllArrays(vs)
    ensures SchemaOf(vs).ObjectSchema? ==>
              && (forall k :: k in SchemaOf(vs).required <==> forall v | v in vs :: k in v.fields)
              && (forall k :: k in SchemaOf(vs).properties <==> exists v :: v in vs && k in v.fields)
              && (forall k | k in SchemaOf(vs).properties :: SchemaOf(vs).properties[k] == SchemaOf(ValuesAt(vs, k)))
    ensures SchemaOf(vs).ArraySchema? ==> SchemaOf(vs).element == SchemaOf(Pool(vs))
    ensures SchemaOf(vs).TypeOnly? ==> forall v | v in vs :: ValueType(v) == SchemaOf(vs).typ
    ensures SchemaOf(vs).OneOf? ==>
              && |SchemaOf(vs).types| >= 2
              && forall t :: t in SchemaOf(vs).types <==> exists v :: v in vs && ValueType(v) == t
  {
    var v :| v in vs;
    if AllObjects(vs) {
      assert v.Obj?;
      forall k | forall w | w in vs :: k in w.fields
        ensures k in CommonKeys(vs)
      {
        assert k in v.fields;
      }
    } else if !AllArrays(vs) {
      var types := SortedKeys(TypesOf(vs));
      assert ValueType(v) in TypesOf(vs);
      assert ValueType(v) in types;
      forall w | w in vs && |types| == 1 ensures ValueType(w) == types[0] {
        assert ValueType(w) in TypesOf(vs);
        assert ValueType(w) in types;
      }
    }
  }

  // ---------------------------------------------------------------- leastness

  ghost predicate AllConform(vs: set<Json>, s: Schema) {
    forall v | v in vs :: Conforms(v, s)
  }

  /** Whatever the schema of the samples accepts, every schema that accepts the samples accepts too. */
  ghost predicate IsLeastFor(vs: set<Json>) {
    forall w, s | Conforms(w, SchemaOf(vs)) && AllConform(vs, s) :: Conforms(w, s)
  }

  /** There is a sample wherever the schema speaks: no array is without elements in all samples, at any depth. */
  ghost predicate Determined(vs: set<Json>)
    decreases DepthOfAll(vs)
  {
    && vs != {}
    && (AllObjects(vs) ==> forall k | k in KeysOf(vs) :: (ValuesAtShallower(vs, k); Determined(ValuesAt(vs, k))))
    && (AllArrays(vs) ==> (PoolShallower(vs); Determined(Pool(vs))))
  }

  /** Schemas without structure see nothing but the type. */
  lemma SameTypeConforms(v: Json, w: Json, s: Schema)
    requires (s.TypeOnly? || s.OneOf?) && ValueType(v) == ValueType(w)
    ensures Conforms(v, s) <==> Conforms(w, s)
  {
  }

  lemma ValuesConform(vs: set<Json>, k: string, s: Schema)
    requires AllObjects(vs) && s.ObjectSchema? && AllConform(vs, s) && k in KeysOf(vs)
    ensures k in s.properties && AllConform(ValuesAt(vs, k), s.properties[k])
  {
  }

  lemma PoolConforms(vs: set<Json>, s: Schema)
    requires AllArrays(vs) && s.ArraySchema? && AllConform(vs, s)
    ensures AllConform(Pool(vs), s.element)
  {
  }

  lemma {:induction false} LeastWhenDetermined(vs: set<Json>, w: Json, s: Schema)
    requires Determined(vs) && Conforms(w, SchemaOf(vs)) && AllConform(vs, s)
    ensures Conforms(w, s)
    decreases DepthOfAll(vs)
  {
    InferredSchemaIsTight(vs);
    var v :| v in vs;
    assert Conforms(v, s);
    if s.TypeOnly? || s.OneOf? {
      var u := SampleOfType(vs, w);
      SameTypeConforms(u, w, s);
    } else if s.ObjectSchema? {
      assert AllObjects(vs);
      LeastObject(vs, w, s);
      forall k | k in w.fields ensures Conforms(w.fields[k], s.properties[k]) {
        ValuesAtShallower(vs, k);
        LeastWhenDetermined(ValuesAt(vs, k), w.fields[k], s.properties[k]);
      }
    } else {
      assert AllArrays(vs);
      PoolConforms(vs, s);
      PoolShallower(vs);
      forall i | 0 <= i < |w.items| ensures Conforms(w.items[i], s.element) {
        LeastWhenDetermined(Pool(vs), w.items[i], s.element);
      }
    }
  }

  /** An accepted value has the type of some sample. */
  lemma SampleOfType(vs: set<Json>, w: Json) returns (v: Json)
    requires vs != {} && Conforms(w, SchemaOf(vs))
    ensures v in vs && ValueType(v) == ValueType(w)
  {
    InferredSchemaIsTight(vs);
    if SchemaOf(vs).OneOf? {
      assert ValueType(w) in SchemaOf(vs).types;
      v :| v in vs && ValueType(v) == ValueType(w);
    } else {
      v :| v in vs;
    }
  }

  lemma LeastObject(vs: set<Json>, w: Json, s: Schema)
    requires vs != {} && AllObjects(vs) && Conforms(w, SchemaOf(vs)) && s.ObjectSchema? && AllConform(vs, s)
    ensures w.Obj? && (forall k | k in s.required :: k in w.fields)
    ensures forall k | k in w.fields :: k in KeysOf(vs) && k in s.properties
    ensures forall k | k in w.fields :: Conforms(w.fields[k], SchemaOf(ValuesAt(vs, k)))
    ensures forall k | k in w.fields :: AllConform(ValuesAt(vs, k), s.properties[k])
  {
    InferredSchemaIsTight(vs);
    forall k | k in s.required ensures k in w.fields {
      assert forall v | v in vs :: Conforms(v, s) && k in v.fields;
    }
    forall k | k in w.fields ensures k in s.properties && AllConform(ValuesAt(vs, k), s.properties[k]) {
      ValuesConform(vs, k, s);
    }
  }

  /** The schema of the objects, except that one property has another schema. */
  ghost function WithProperty(vs: set<Json>, k: string, s: Schema): Schema
    requires vs != {} && AllObjects(vs)
  {
    ObjectSchema(PropertySchemas(vs)[k := s], SortedKeys(CommonKeys(vs)))
  }

  lemma WithPropertyAccepts(vs: set<Json>, k: string, s: Schema)
    requires vs != {} && AllObjects(vs) && AllConform(ValuesAt(vs, k), s)
    ensures AllConform(vs, WithProperty(vs, k, s))
  {
    forall v | v in vs ensures Conforms(v, WithProperty(vs, k, s)) {
      InferredSchemaIsSound(vs, v);
    }
  }

  lemma ReplacedFieldConforms(vs: set<Json>, v: Json, k: string, w: Json)
    requires vs != {} && AllObjects(vs) && v in vs && k in v.fields && Conforms(w, SchemaOf(ValuesAt(vs, k)))
    ensures Conforms(Obj(v.fields[k := w]), SchemaOf(vs))
  {
    InferredSchemaIsSound(vs, v);
  }

  /** A value that the inferred schema accepts and another schema of the samples rejects. */
  ghost predicate Separates(vs: set<Json>, w: Json, s: Schema) {
    Conforms(w, SchemaOf(vs)) && AllConform(vs, s) && !Conforms(w, s)
  }

  lemma SeparatesObjects(vs: set<Json>, v: Json, k: string, w: Json, s: Schema)
    requires AllObjects(vs) && v in vs && k in v.fields && Separates(ValuesAt(vs, k), w, s)
    ensures Separates(vs, Obj(v.fields[k := w]), WithProperty(vs, k, s))
  {
    ReplacedFieldConforms(vs, v, k, w);
    WithPropertyAccepts(vs, k, s);
    var fields := v.fields[k := w];
    assert fields[k] == w && WithProperty(vs, k, s).properties[k] == s;
  }

  lemma PoolAccepts(vs: set<Json>, s: Schema)
    requires AllArrays(vs) && AllConform(Pool(vs), s)
    ensures AllConform(vs, ArraySchema(s))
  {
    forall v, i | v in vs && 0 <= i < |v.items| ensures Conforms(v.items[i], s) {
      assert v.items[i] in v.items;
      assert v.items[i] in Pool(vs);
    }
  }

  lemma OneElement(w: Json, s: Schema)
    ensures Conforms(Arr([w]), ArraySchema(s)) <==> Conforms(w, s)
  {
    var items := [w];
    assert items[0] == w;
  }

  lemma SeparatesArrays(vs: set<Json>, w: Json, s: Schema)
    requires vs != {} && AllArrays(vs) && !AllObjects(vs) && Separates(Pool(vs), w, s)
    ensures Separates(vs, Arr([w]), ArraySchema(s))
  {
    PoolAccepts(vs, s);
    OneElement(w, s);
    OneElement(w, SchemaOf(Pool(vs)));
  }

  /** Without a sample somewhere, the schema accepts a value that another schema of the samples rejects. */
  lemma {:induction false} UndeterminedIsNotLeast(vs: set<Json>) returns (w: Json, s: Schema)
    requires !Determined(vs)
    ensures Separates(vs, w, s)
    decreases DepthOfAll(vs)
  {
    if vs == {} {
      w, s := Str(""), TypeOnly("object");
    } else if AllObjects(vs) {
      var k :| k in KeysOf(vs) && !Determined(ValuesAt(vs, k));
      ValuesAtShallower(vs, k);
      var w', s' := UndeterminedIsNotLeast(ValuesAt(vs, k));
      var v :| v in vs && k in v.fields;
      SeparatesObjects(vs, v, k, w', s');
      w, s := Obj(v.fields[k := w']), WithProperty(vs, k, s');
    } else {
      PoolShallower(vs);
      var w', s' := UndeterminedIsNotLeast(Pool(vs));
      SeparatesArrays(vs, w', s');
      w, s := Arr([w']), ArraySchema(s');
    }
  }

  /**
   The inferred schema is the least one that accepts the samples exactly when the samples
   determine it; arrays that are empty in all samples infer elements of type "string".
   */
  lemma LeastIffDetermined(vs: set<Json>)
    ensures IsLeastFor(vs) <==> Determined(vs)
  {
    if Determined(vs) {
      forall w, s | Conforms(w, SchemaOf(vs)) && AllConform(vs, s) ensures Conforms(w, s) {
        LeastWhenDetermined(vs, w, s);
      }
    } else {
      var w, s := UndeterminedIsNotLeast(vs);
    }
  }

  // ---------------------------------------------------------------- the code's loops

  lemma KeysOfAdd(vs: set<Json>, v: Json)
    requires v.Obj?
    ensures KeysOf(vs + {v}) == KeysOf(vs) + v.fields.Keys
  {
  }

  lemma ValuesAtAdd(vs: set<Json>, v: Json, k: string)
    requires v.Obj?
    ensures ValuesAt(vs + {v}, k) == ValuesAt(vs, k) + if k in v.fields then {v.fields[k]} else {}
  {
  }

  lemma PoolAdd(vs: set<Json>, v: Json)
    requires v.Arr?
    ensures Pool(vs + {v}) == Pool(vs) + Elements(v.items)
  {
  }

  /** What the two maps hold after the objects `values`. */
  ghost predicate Collected(values: seq<Json>, samples: map<string, seq<Json>>, counts: map<string, nat>)
    requires forall v | v in values :: v.Obj?
  {
    && samples.Keys == counts.Keys == KeysOf(Elements(values))
    && (forall k | k in samples :: Elements(samples[k]) == ValuesAt(Elements(values), k))
    && (forall k | k in counts ::
          counts[k] <= |values| && (counts[k] == |values| <==> forall v | v in values :: k in v.fields))
  }

  /** The contract of one round of the field loop. */
  ghost predicate Added(samples: map<string, seq<Json>>, counts: map<string, nat>, fields: map<string, Json>,
                        samples': map<string, seq<Json>>, counts': map<string, nat>)
    requires samples.Keys == counts.Keys
  {
    && samples'.Keys == counts'.Keys == samples.Keys + fields.Keys
    && (forall k | k in fields :: samples'[k] == (if k in samples then samples[k] else []) + [fields[k]])
    && (forall k | k in fields :: counts'[k] == (if k in counts then counts[k] else 0) + 1)
    && (forall k | k in samples && k !in fields :: samples'[k] == samples[k] && counts'[k] == counts[k])
  }

  /** The count reaches the number of objects exactly when each of them has the key. */
  lemma CountSnoc(values: seq<Json>, v: Json, k: string, count: nat, count': nat)
    requires v.Obj? && forall w | w in values :: w.Obj?
    requires count <= |values| && (count == |values| <==> forall w | w in values :: k in w.fields)
    requires count' == if k in v.fields then count + 1 else count
    ensures count' <= |values| + 1
    ensures count' == |values| + 1 <==> forall w | w in values + [v] :: k in w.fields
  {
    assert forall w :: w in values + [v] <==> w in values || w == v;
  }

  lemma SamplesSnoc(values: seq<Json>, v: Json, k: string, samples: seq<Json>)
    requires v.Obj? && Elements(samples) == ValuesAt(Elements(values), k)
    ensures Elements(if k in v.fields then samples + [v.fields[k]] else samples) == ValuesAt(Elements(values + [v]), k)
  {
    assert Elements(values + [v]) == Elements(values) + {v};
    ValuesAtAdd(Elements(values), v, k);
    if k in v.fields {
      assert Elements(samples + [v.fields[k]]) == Elements(samples) + {v.fields[k]};
    }
  }

  lemma NotCollected(values: seq<Json>, k: string)
    requires forall v | v in values :: v.Obj?
    requires k !in KeysOf(Elements(values))
    ensures ValuesAt(Elements(values), k) == {}
    ensures 0 == |values| <==> forall v | v in values :: k in v.fields
  {
    assert forall v | v in values :: v in Elements(values) && k !in v.fields;
    if values != [] { assert values[0] in values; }
  }

  lemma CollectedSnoc(values: seq<Json>, v: Json, samples: map<string, seq<Json>>, counts: map<string, nat>,
                      samples': map<string, seq<Json>>, counts': map<string, nat>)
    requires v.Obj? && forall w | w in values :: w.Obj?
    requires Collected(values, samples, counts)
    requires Added(samples, counts, v.fields, samples', counts')
    ensures Collected(values + [v], samples', counts')
  {
    assert Elements(values + [v]) == Elements(values) + {v};
    KeysOfAdd(Elements(values), v);
    forall k | k in samples'
      ensures Elements(samples'[k]) == ValuesAt(Elements(values + [v]), k)
      ensures counts'[k] <= |values| + 1
      ensures counts'[k] == |values| + 1 <==> forall w | w in values + [v] :: k in w.fields
    {
      if k !in samples { NotCollected(values, k); }
      SamplesSnoc(values, v, k, if k in samples then samples[k] else []);
      CountSnoc(values, v, k, if k in counts then counts[k] else 0, counts'[k]);
    }
  }

  /** `uniqueTypes`: collect the types in a set, list it, sort the list. */
  method UniqueTypes(values: seq<Json>) returns (types: seq<string>)
    ensures types == SortedKeys(TypesOf(Elements(values)))
  {
    var seen: set<string> := {};
    for i := 0 to |values|
      invariant seen == TypesOf(Elements(values[..i]))
    {
      seen := seen + {ValueType(values[i])};
      TakeSnoc(values, i);
      ElementsPlus(values[..i], values[i]);
    }
    assert values[..|values|] == values;
    types := SortedKeys(seen);
  }

  /** One pass of the loop over an object's fields (any iteration order). */
  method AddObject(samples: map<string, seq<Json>>, counts: map<string, nat>, fields: map<string, Json>)
    returns (samples': map<string, seq<Json>>, counts': map<string, nat>)
    requires samples.Keys == counts.Keys
    ensures Added(samples, counts, fields, samples', counts')
  {
    samples', counts' := samples, counts;
    var todo := fields.Keys;
    while todo != {}
      invariant todo <= fields.Keys
      invariant samples'.Keys == counts'.Keys == samples.Keys + (fields.Keys - todo)
      invariant forall k | k in fields && k !in todo ::
                  && samples'[k] == (if k in samples then samples[k] else []) + [fields[k]]
                  && counts'[k] == (if k in counts then counts[k] else 0) + 1
      invariant forall k | k in samples && (k !in fields || k in todo) ::
                  samples'[k] == samples[k] && counts'[k] == counts[k]
    {
      var key :| key in todo;
      todo := todo - {key};
      samples' := samples'[key := (if key in samples' then samples'[key] else []) + [fields[key]]];
      counts' := counts'[key := (if key in counts' then counts'[key] else 0) + 1];
    }
  }

  /** Both maps that `inferObjectSchema` fills: samples by key, and how many objects had the key. */
  method CollectProperties(values: seq<Json>)
    returns (samples: map<string, seq<Json>>, counts: map<string, nat>)
    requires forall v | v in values :: v.Obj?
    ensures Collected(values, samples, counts)
  {
    samples, counts := map[], map[];
    for i := 0 to |values|
      invariant Collected(values[..i], samples, counts)
    {
      var samples', counts' := AddObject(samples, counts, values[i].fields);
      TakeSnoc(values, i);
      ElementsPlus(values[..i], values[i]);
      CollectedSnoc(values[..i], values[i], samples, counts, samples', counts');
      samples, counts := samples', counts';
    }
    assert values[..|values|] == values;
  }

  /** Whether all samples are objects, and whether all are arrays. */
  method Kinds(values: seq<Json>) returns (allObjects: bool, allArrays: bool)
    ensures allObjects <==> AllObjects(Elements(values))
    ensures allArrays <==> AllArrays(Elements(values))
  {
    allObjects, allArrays := true, true;
    for i := 0 to |values|
      invariant allObjects == forall j | 0 <= j < i :: values[j].Obj?
      invariant allArrays == forall j | 0 <= j < i :: values[j].Arr?
    {
      if !values[i].Obj? { allObjects := false; }
      if !values[i].Arr? { allArrays := false; }
    }
    assert forall j | 0 <= j < |values| :: values[j] in Elements(values);
  }

  method InferSchemaValue(values: seq<Json>) returns (s: Schema)
    ensures s == SchemaOf(Elements(values))
    decreases DepthOfAll(Elements(values)), 1
  {
    if |values| == 0 {
      return TypeOnly("string");
    }
    assert values[0] in Elements(values);
    var allObjects, allArrays := Kinds(values);
    if allObjects {
      s := InferObjectSchema(values);
    } else if allArrays {
      s := InferArraySchema(values);
    } else {
      var types := UniqueTypes(values);
      if |types| == 1 {
        s := TypeOnly(types[0]);
      } else {
        s := OneOf(types);
      }
    }
  }

  method InferObjectSchema(values: seq<Json>) returns (s: Schema)
    requires values != [] && forall v | v in values :: v.Obj?
    ensures s == SchemaOf(Elements(values))
    decreases DepthOfAll(Elements(values)), 0
  {
    ghost var vs := Elements(values);
    assert values[0] in vs;
    var samples, counts := CollectProperties(values);
    var keys := SortedKeys(samples.Keys);
    var props: map<string, Schema> := map[];
    var required: seq<string> := [];
    for i := 0 to |keys|
      invariant PropertiesOf(vs, keys[..i], props)
      invariant RequiredAmong(keys[..i], counts, |values|, required)
    {
      var key := keys[i];
      assert key in keys;
      ValuesAtShallower(vs, key);
      var prop := InferSchemaValue(samples[key]);
      PropertiesOfSnoc(vs, keys, i, props);
      RequiredSnoc(keys, i, counts, |values|, required);
      props := props[key := prop];
      if counts[key] == |values| {
        required := required + [key];
      }
    }
    assert keys[..|keys|] == keys;
    RequiredIsCommon(values, samples, counts, required);
    PropertiesAreSchemas(vs, props);
    s := ObjectSchema(props, required);
  }

  ghost predicate PropertiesOf(vs: set<Json>, keys: seq<string>, props: map<string, Schema>) {
    && (forall k :: k in props <==> k in keys)
    && forall k | k in props :: props[k] == SchemaOf(ValuesAt(vs, k))
  }

  lemma PropertiesOfSnoc(vs: set<Json>, keys: seq<string>, i: nat, props: map<string, Schema>)
    requires i < |keys| && PropertiesOf(vs, keys[..i], props)
    ensures PropertiesOf(vs, keys[..i + 1], props[keys[i] := SchemaOf(ValuesAt(vs, keys[i]))])
  {
    assert keys[..i + 1] == keys[..i] + [keys[i]];
  }

  ghost predicate RequiredAmong(keys: seq<string>, counts: map<string, nat>, n: nat, required: seq<string>) {
    && Ascending(required)
    && forall k :: k in required <==> k in keys && k in counts && counts[k] == n
  }

  /** Picking an ascending list's members in order leaves them ascending. */
  lemma RequiredSnoc(keys: seq<string>, i: nat, counts: map<string, nat>, n: nat, required: seq<string>)
    requires Ascending(keys) && i < |keys| && keys[i] in counts
    requires RequiredAmong(keys[..i], counts, n, required)
    ensures RequiredAmong(keys[..i + 1], counts, n, if counts[keys[i]] == n then required + [keys[i]] else required)
  {
    assert keys[..i + 1] == keys[..i] + [keys[i]];
    var r := required + [keys[i]];
    forall a, b | 0 <= a < b < |r| ensures Leq(r[a], r[b]) && r[a] != r[b] {
      if b == |required| { assert required[a] in required; }
    }
  }

  lemma RequiredIsCommon(values: seq<Json>, samples: map<string, seq<Json>>, counts: map<string, nat>,
                         required: seq<string>)
    requires forall v | v in values :: v.Obj?
    requires Collected(values, samples, counts)
    requires RequiredAmong(SortedKeys(samples.Keys), counts, |values|, required)
    ensures required == SortedKeys(CommonKeys(Elements(values)))
  {
    forall k ensures k in required <==> k in CommonKeys(Elements(values)) {
      assert forall v :: v in values <==> v in Elements(values);
    }
    AscendingUnique(required, SortedKeys(CommonKeys(Elements(values))));
  }

  lemma {:induction false} PropertiesAreSchemas(vs: set<Json>, props: map<string, Schema>)
    requires vs != {} && AllObjects(vs)
    requires PropertiesOf(vs, SortedKeys(KeysOf(vs)), props)
    ensures props == PropertySchemas(vs)
  {
    var expected := PropertySchemas(vs);
    assert props.Keys == expected.Keys;
    MapsEqual(props, expected);
  }

  method InferArraySchema(values: seq<Json>) returns (s: Schema)
    requires values != [] && forall v | v in values :: v.Arr?
    ensures s == SchemaOf(Elements(values))
    decreases DepthOfAll(Elements(values)), 0
  {
    assert values[0] in Elements(values);
    var allItems: seq<Json> := [];
    for i := 0 to |values|
      invariant Elements(allItems) == Pool(Elements(values[..i]))
    {
      assert values[i] in Elements(values);
      TakeSnoc(values, i);
      ElementsPlus(values[..i], values[i]);
      PoolAdd(Elements(values[..i]), values[i]);
      assert Elements(allItems + values[i].items) == Elements(allItems) + Elements(values[i].items);
      allItems := allItems + values[i].items;
    }
    assert values[..|values|] == values;
    PoolShallower(Elements(values));
    if |allItems| == 0 {
      s := ArraySchema(TypeOnly("string"));
    } else {
      var element := InferSchemaValue(allItems);
      s := ArraySchema(element);
    }
  }

  /** `inferSchemaFromSamples`: drop nil samples first; a plain object when none is left. */
  method InferSchemaFromSamples(samples: seq<Json>) returns (s: Schema)
    ensures s == BodySchema(Elements(samples))
  {
    var nonNil: seq<Json> := [];
    for i := 0 to |samples|
      invariant Elements(nonNil) == Elements(samples[..i]) - {Null}
    {
      TakeSnoc(samples, i);
      ElementsPlus(samples[..i], samples[i]);
      assert Elements(nonNil + [samples[i]]) == Elements(nonNil) + {samples[i]};
      if samples[i] != Null {
        nonNil := nonNil + [samples[i]];
      }
    }
    assert samples[..|samples|] == samples;
    if |nonNil| == 0 {
      s := TypeOnly("object");
    } else {
      assert nonNil[0] in Elements(nonNil);
      s := InferSchemaValue(nonNil);
    }
  }

  ghost function BodySchema(vs: set<Json>): Schema {
    if vs - {Null} == {} then TypeOnly("object") else SchemaOf(vs - {Null})
  }
}
