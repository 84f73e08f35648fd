/**
 Assembly of the learned specification (internal/learn/openapi.go): observations
 are grouped under the key "method path", and each group yields one operation.
 */
module LearnedSpec {
  import opened Collections
  import opened JsonTree
  import opened Ordering
  import opened SchemaInference
  import opened Text
  import opened Wrappers

  /**
   One observed transaction. `verb` is its method trimmed and in lower case, `path`
   the template that `NormalizePath` gives for its URL, `authorized` the result of
   `hasAuthorizationHeader`, and each body the result of `parseJSONBody`, with
   `Null` for nil.
   */
  datatype Observation = Observation(
    verb: string,
    path: string,
    authorized: bool,
    request: Json,
    rawStatus: int,
    response: Json)
  {
    predicate Counted() { verb != "" }
    function Key(): string { verb + " " + path }
    function Status(): int { if rawStatus <= 0 then 200 else rawStatus }
  }

  datatype Aggregate = Aggregate(
    verb: string,
    path: string,
    observed: nat,
    authObserved: bool,
    requests: seq<Json>,
    responses: map<int, seq<Json>>)

  /** An operation; an empty `responses` stands for the lone "default" entry. */
  datatype Operation = Operation(
    observed: nat,
    secured: bool,
    request: Option<Schema>,
    responses: map<int, Option<Schema>>)

  datatype Spec = Spec(paths: map<string, map<string, Operation>>, securityUsed: bool)

  // ---------------------------------------------------------------- specification

  ghost predicate InGroup(o: Observation, key: string) {
    o.Counted() && o.Key() == key
  }

  /** The observation that created the group. */
  ghost function FirstOf(obs: seq<Observation>, key: string): (r: Option<Observation>)
    ensures r.Some? ==> r.value in obs && InGroup(r.value, key)
    ensures r.None? ==> forall o | o in obs :: !InGroup(o, key)
  {
    if obs == [] then None
    else
      var n := |obs| - 1;
      assert obs == obs[..n] + [obs[n]];
      var before := FirstOf(obs[..n], key);
      if before.Some? then before
      else if InGroup(obs[n], key) then Some(obs[n]) else None
  }

  ghost function GroupSize(obs: seq<Observation>, key: string): nat {
    if obs == [] then 0
    else GroupSize(obs[..|obs| - 1], key) + if InGroup(obs[|obs| - 1], key) then 1 else 0
  }

  ghost function RequestBodies(obs: seq<Observation>, key: string): set<Json> {
    set o | o in obs && InGroup(o, key) && o.request != Null :: o.request
  }

  ghost function Statuses(obs: seq<Observation>, key: string): set<int> {
    set o | o in obs && InGroup(o, key) && o.response != Null :: o.Status()
  }

  ghost function ResponseBodies(obs: seq<Observation>, key: string, status: int): set<Json> {
    set o | o in obs && InGroup(o, key) && o.response != Null && o.Status() == status :: o.response
  }

  ghost predicate AnyAuthorized(obs: seq<Observation>, key: string) {
    exists o :: o in obs && InGroup(o, key) && o.authorized
  }

  /** The key under which an operation at `path` and `verb` is filed. */
  ghost function KeyFor(path: string, verb: string): string {
    verb + " " + path
  }

  /** The group filed under the pair's key was created by that very pair. */
  ghost predicate HasOperation(obs: seq<Observation>, path: string, verb: string) {
    var first := FirstOf(obs, KeyFor(path, verb));
    first.Some? && first.value.path == path && first.value.verb == verb
  }

  /** `op` is the operation of the group `key`. */
  ghost predicate IsOperationOf(op: Operation, obs: seq<Observation>, key: string) {
    && op.observed == GroupSize(obs, key)
    && op.secured == AnyAuthorized(obs, key)
    && op.request == (if RequestBodies(obs, key) == {} then None else Some(SchemaOf(RequestBodies(obs, key))))
    && op.responses.Keys == Statuses(obs, key)
    && forall st | st in op.responses :: op.responses[st] == Some(SchemaOf(ResponseBodies(obs, key, st)))
  }

  /** What `BuildOpenAPISpec` returns, for every list of observations. */
  ghost predicate Describes(spec: Spec, obs: seq<Observation>) {
    && (forall p, m :: p in spec.paths && m in spec.paths[p] <==> HasOperation(obs, p, m))
    && (forall p, m | p in spec.paths && m in spec.paths[p] ::
          IsOperationOf(spec.paths[p][m], obs, KeyFor(p, m)))
    && (spec.securityUsed <==> exists o :: o in obs && o.Counted() && o.authorized)
  }

  // ---------------------------------------------------------------- soundness

  predicate SharesKey(a: Observation, b: Observation) {
    a.verb != "" && b.verb != "" && a.verb + " " + a.path == b.verb + " " + b.path
  }

  /** Observations with a method agree on method and path whenever "method path" agrees. */
  ghost predicate NoKeyClash(obs: seq<Observation>) {
    forall a, b | a in obs && b in obs && SharesKey(a, b) :: a.verb == b.verb && a.path == b.path
  }

  /** The status recorded for a response, or 200 when none was recorded. */
  predicate BelongsAt(o: Observation, code: int) {
    if o.rawStatus > 0 then code == o.rawStatus else code == 200
  }

  /** The observation's own place in the specification describes its bodies, the response at its recorded status. */
  ghost predicate Covered(spec: Spec, o: Observation) {
    && o.path in spec.paths
    && o.verb in spec.paths[o.path]
    && var op := spec.paths[o.path][o.verb];
       && (o.request != Null ==> op.request.Some? && Conforms(o.request, op.request.value))
       && (o.response != Null ==>
             forall code | BelongsAt(o, code) :: DescribedAt(op, code, o.response))
  }

  ghost predicate DescribedAt(op: Operation, code: int, body: Json) {
    code in op.responses && op.responses[code].Some? && Conforms(body, op.responses[code].value)
  }

  /**
   Learned-spec soundness, with its exact condition: every observation with a method is
   covered if and only if no two of them clash on the "method path" key.
   */
  lemma LearnedSpecSound(spec: Spec, obs: seq<Observation>)
    requires Describes(spec, obs)
    ensures NoKeyClash(obs) <==> forall o | o in obs && o.verb != "" :: Covered(spec, o)
  {
    if NoKeyClash(obs) {
      forall o | o in obs && o.verb != "" ensures Covered(spec, o) {
        CoveredWhenFirst(spec, obs, o);
      }
    }
    if forall o | o in obs && o.verb != "" :: Covered(spec, o) {
      forall a, b | a in obs && b in obs && SharesKey(a, b)
        ensures a.verb == b.verb && a.path == b.path
      {
        assert Covered(spec, a) && Covered(spec, b);
        assert HasOperation(obs, a.path, a.verb) && HasOperation(obs, b.path, b.verb);
      }
    }
  }

  lemma CoveredWhenFirst(spec: Spec, obs: seq<Observation>, o: Observation)
    requires Describes(spec, obs) && NoKeyClash(obs) && o in obs && o.verb != ""
    ensures Covered(spec, o)
  {
    var key := KeyFor(o.path, o.verb);
    assert InGroup(o, key);
    var first := FirstOf(obs, key).value;
    assert first.verb == o.verb && first.path == o.path;
    assert HasOperation(obs, o.path, o.verb);
    var op := spec.paths[o.path][o.verb];
    assert IsOperationOf(op, obs, key);
    if o.request != Null {
      assert o.request in RequestBodies(obs, key);
      InferredSchemaIsSound(RequestBodies(obs, key), o.request);
    }
    if o.response != Null {
      assert o.Status() in Statuses(obs, key);
      InferredSchemaIsSound(ResponseBodies(obs, key, o.Status()), o.response);
    }
  }

  /** Of two observations with one key, the second is filed under the first one's method and path. */
  lemma SecondIsLost(spec: Spec, a: Observation, b: Observation)
    requires Describes(spec, [a, b]) && SharesKey(a, b) && (a.verb != b.verb || a.path != b.path)
    ensures !Covered(spec, b)
  {
    var key := KeyFor(b.path, b.verb);
    assert InGroup(a, key);
    FirstOfTwo(a, b, key);
    assert !HasOperation([a, b], b.path, b.verb);
  }

  /** Such observations exist: a space in the method can stand for the one after it. */
  lemma KeysCanClash(spec: Spec, request: Json)
    requires Describes(spec, [Clashing("x /y", "/z", request), Clashing("x", "/y /z", request)])
    ensures !Covered(spec, Clashing("x", "/y /z", request))
  {
    var a, b := Clashing("x /y", "/z", request), Clashing("x", "/y /z", request);
    assert a.verb + " " + a.path == "x /y /z" == b.verb + " " + b.path;
    SecondIsLost(spec, a, b);
  }

  lemma FirstOfTwo(a: Observation, b: Observation, key: string)
    requires InGroup(a, key)
    ensures FirstOf([a, b], key) == Some(a)
  {
    assert [a, b][..1] == [a] && [a][..0] == [];
    assert FirstOf([], key) == None;
  }

  function Clashing(verb: string, path: string, request: Json): Observation {
    Observation(verb, path, false, request, 0, Null)
  }

  /** Methods without a space, as every HTTP token is, never clash. */
  lemma SpacelessMethodsDoNotClash(obs: seq<Observation>)
    requires forall o | o in obs :: ' ' !in o.verb
    ensures NoKeyClash(obs)
  {
    forall a, b | a in obs && b in obs && SharesKey(a, b)
      ensures a.verb == b.verb && a.path == b.path
    {
      SplitAtSeparator(a.verb, a.path, b.verb, b.path, ' ');
    }
  }

  // ---------------------------------------------------------------- no more than observed

  ghost predicate IsAt(o: Observation, path: string, verb: string) {
    o.verb == verb != "" && o.path == path
  }

  ghost function RequestsAt(obs: seq<Observation>, path: string, verb: string): set<Json> {
    set o | o in obs && IsAt(o, path, verb) && o.request != Null :: o.request
  }

  ghost function ResponsesAt(obs: seq<Observation>, path: string, verb: string, code: int): set<Json> {
    set o | o in obs && IsAt(o, path, verb) && o.response != Null && BelongsAt(o, code) :: o.response
  }

  ghost function CountAt(obs: seq<Observation>, path: string, verb: string): nat {
    if obs == [] then 0
    else CountAt(obs[..|obs| - 1], path, verb) + if IsAt(obs[|obs| - 1], path, verb) then 1 else 0
  }

  /** Without clashes a group is what was observed at its method and path. */
  lemma GroupIsPair(obs: seq<Observation>, o: Observation, path: string, verb: string)
    requires NoKeyClash(obs) && HasOperation(obs, path, verb) && o in obs
    ensures InGroup(o, KeyFor(path, verb)) <==> IsAt(o, path, verb)
  {
    var first := FirstOf(obs, KeyFor(path, verb)).value;
    assert first in obs && first.verb == verb && first.path == path && first.Counted();
  }

  lemma {:induction false} CountsAgree(obs: seq<Observation>, path: string, verb: string)
    requires forall o | o in obs :: InGroup(o, KeyFor(path, verb)) <==> IsAt(o, path, verb)
    ensures GroupSize(obs, KeyFor(path, verb)) == CountAt(obs, path, verb)
  {
    if obs != [] {
      CountsAgree(obs[..|obs| - 1], path, verb);
    }
  }

  lemma HasOperationIff(obs: seq<Observation>, path: string, verb: string)
    requires NoKeyClash(obs)
    ensures HasOperation(obs, path, verb) <==> exists o :: o in obs && IsAt(o, path, verb)
  {
    var first := FirstOf(obs, KeyFor(path, verb));
    if HasOperation(obs, path, verb) {
      assert first.value in obs && IsAt(first.value, path, verb);
    }
    if o :| o in obs && IsAt(o, path, verb) {
      assert InGroup(o, KeyFor(path, verb));
      assert first.value in obs && first.value.verb != "";
    }
  }

  /**
   The specification says no more than was observed: an operation is there exactly if its
   method and path were observed, and its counts, security and schemas are those of just
   these observations, a response schema being that of the bodies recorded with its status.
   */
  lemma OperationsAreObserved(spec: Spec, obs: seq<Observation>, path: string, verb: string)
    requires Describes(spec, obs) && NoKeyClash(obs)
    ensures (path in spec.paths && verb in spec.paths[path]) <==> exists o :: o in obs && IsAt(o, path, verb)
    ensures path in spec.paths && verb in spec.paths[path] ==>
              var op := spec.paths[path][verb];
              && op.observed == CountAt(obs, path, verb)
              && (op.secured <==> exists o :: o in obs && IsAt(o, path, verb) && o.authorized)
              && op.request == (if RequestsAt(obs, path, verb) == {} then None
                                else Some(SchemaOf(RequestsAt(obs, path, verb))))
  {
    HasOperationIff(obs, path, verb);
    if HasOperation(obs, path, verb) {
      var key := KeyFor(path, verb);
      assert IsOperationOf(spec.paths[path][verb], obs, key);
      forall o | o in obs ensures InGroup(o, key) <==> IsAt(o, path, verb) {
        GroupIsPair(obs, o, path, verb);
      }
      CountsAgree(obs, path, verb);
      assert RequestBodies(obs, key) == RequestsAt(obs, path, verb);
    }
  }

  lemma ResponsesAreObserved(spec: Spec, obs: seq<Observation>, path: string, verb: string, code: int)
    requires Describes(spec, obs) && NoKeyClash(obs) && path in spec.paths && verb in spec.paths[path]
    ensures code in spec.paths[path][verb].responses <==> ResponsesAt(obs, path, verb, code) != {}
    ensures code in spec.paths[path][verb].responses ==>
              spec.paths[path][verb].responses[code] == Some(SchemaOf(ResponsesAt(obs, path, verb, code)))
  {
    var key := KeyFor(path, verb);
    assert IsOperationOf(spec.paths[path][verb], obs, key);
    forall o | o in obs ensures InGroup(o, key) <==> IsAt(o, path, verb) {
      GroupIsPair(obs, o, path, verb);
    }
    assert ResponseBodies(obs, key, code) == ResponsesAt(obs, path, verb, code);
    if code in Statuses(obs, key) {
      var o :| o in obs && InGroup(o, key) && o.response != Null && o.Status() == code;
      assert o.response in ResponsesAt(obs, path, verb, code);
    }
    if ResponsesAt(obs, path, verb, code) != {} {
      var body :| body in ResponsesAt(obs, path, verb, code);
    }
  }

  // ---------------------------------------------------------------- the code's loops

  ghost predicate IsAggregateOf(agg: Aggregate, obs: seq<Observation>, key: string) {
    && FirstOf(obs, key).Some?
    && agg.verb == FirstOf(obs, key).value.verb
    && agg.path == FirstOf(obs, key).value.path
    && Collects(agg, obs, key)
  }

  /** The counts and samples are those of the group, which may still be empty. */
  ghost predicate Collects(agg: Aggregate, obs: seq<Observation>, key: string) {
    && agg.observed == GroupSize(obs, key)
    && agg.authObserved == AnyAuthorized(obs, key)
    && Elements(agg.requests) == RequestBodies(obs, key)
    && agg.responses.Keys == Statuses(obs, key)
    && forall st | st in agg.responses ::
         agg.responses[st] != [] && Elements(agg.responses[st]) == ResponseBodies(obs, key, st)
  }

  ghost predicate AreAggregatesOf(aggs: map<string, Aggregate>, obs: seq<Observation>) {
    && (forall key :: key in aggs <==> FirstOf(obs, key).Some?)
    && forall key | key in aggs :: IsAggregateOf(aggs[key], obs, key)
  }

  /** How the loop body updates the aggregate of the observation's key. */
  function Extend(agg: Aggregate, o: Observation): Aggregate {
    agg.(
      observed := agg.observed + 1,
      authObserved := agg.authObserved || o.authorized,
      requests := if o.request != Null then agg.requests + [o.request] else agg.requests,
      responses :=
        if o.response != Null then
          var st := o.Status();
          agg.responses[st := (if st in agg.responses then agg.responses[st] else []) + [o.response]]
        else agg.responses)
  }

  function NewAggregate(o: Observation): Aggregate {
    Aggregate(o.verb, o.path, 0, false, [], map[])
  }

  lemma GroupSnoc(obs: seq<Observation>, o: Observation, key: string)
    ensures FirstOf(obs + [o], key) ==
            if FirstOf(obs, key).Some? || !InGroup(o, key) then FirstOf(obs, key) else Some(o)
    ensures GroupSize(obs + [o], key) == GroupSize(obs, key) + if InGroup(o, key) then 1 else 0
    ensures AnyAuthorized(obs + [o], key) <==> AnyAuthorized(obs, key) || (InGroup(o, key) && o.authorized)
  {
    assert (obs + [o])[..|obs|] == obs;
    if AnyAuthorized(obs, key) {
      var a :| a in obs && InGroup(a, key) && a.authorized;
      assert a in obs + [o];
    }
    assert o in obs + [o];
  }

  lemma RequestsSnoc(obs: seq<Observation>, o: Observation, key: string)
    ensures RequestBodies(obs + [o], key) ==
            RequestBodies(obs, key) + if InGroup(o, key) && o.request != Null then {o.request} else {}
  {
    assert forall a :: a in obs + [o] <==> a in obs || a == o;
  }

  lemma StatusesSnoc(obs: seq<Observation>, o: Observation, key: string)
    ensures Statuses(obs + [o], key) ==
            Statuses(obs, key) + if InGroup(o, key) && o.response != Null then {o.Status()} else {}
  {
    assert forall a :: a in obs + [o] <==> a in obs || a == o;
  }

  lemma ResponsesSnoc(obs: seq<Observation>, o: Observation, key: string, st: int)
    ensures ResponseBodies(obs + [o], key, st) == ResponseBodies(obs, key, st) +
              if InGroup(o, key) && o.response != Null && o.Status() == st then {o.response} else {}
  {
    assert forall a :: a in obs + [o] <==> a in obs || a == o;
  }

  lemma ExtendResponses(obs: seq<Observation>, o: Observation, key: string, samples: map<int, seq<Json>>, st: int)
    requires InGroup(o, key) && samples.Keys == Statuses(obs, key)
    requires forall x | x in samples :: samples[x] != [] && Elements(samples[x]) == ResponseBodies(obs, key, x)
    requires st in Extend(NewAggregate(o).(responses := samples), o).responses
    ensures var samples' := Extend(NewAggregate(o).(responses := samples), o).responses;
            samples'[st] != [] && Elements(samples'[st]) == ResponseBodies(obs + [o], key, st)
  {
    ResponsesSnoc(obs, o, key, st);
    var before := if st in samples then samples[st] else [];
    assert Elements(before) == ResponseBodies(obs, key, st);
    ElementsPlus(before, o.response);
  }

  lemma ExtendCollects(obs: seq<Observation>, o: Observation, agg: Aggregate)
    requires o.Counted() && Collects(agg, obs, o.Key())
    ensures Collects(Extend(agg, o), obs + [o], o.Key())
  {
    var key := o.Key();
    var agg' := Extend(agg, o);
    assert agg'.observed == GroupSize(obs + [o], key) && agg'.authObserved == AnyAuthorized(obs + [o], key) by {
      GroupSnoc(obs, o, key);
    }
    assert Elements(agg'.requests) == RequestBodies(obs + [o], key) by {
      RequestsSnoc(obs, o, key);
      ElementsPlus(agg.requests, o.request);
    }
    assert agg'.responses.Keys == Statuses(obs + [o], key) by {
      StatusesSnoc(obs, o, key);
    }
    forall st | st in agg'.responses
      ensures agg'.responses[st] != [] && Elements(agg'.responses[st]) == ResponseBodies(obs + [o], key, st)
    {
      ExtendResponses(obs, o, key, agg.responses, st);
    }
  }

  /** The aggregate of the observation's own key, created on demand, stays in step. */
  lemma ExtendSnoc(obs: seq<Observation>, o: Observation, agg: Aggregate)
    requires o.Counted()
    requires if FirstOf(obs, o.Key()).Some? then IsAggregateOf(agg, obs, o.Key()) else agg == NewAggregate(o)
    ensures IsAggregateOf(Extend(agg, o), obs + [o], o.Key())
  {
    if FirstOf(obs, o.Key()).None? {
      EmptyGroup(obs, o.Key());
    }
    ExtendCollects(obs, o, agg);
    GroupSnoc(obs, o, o.Key());
  }

  /** An observation of another group changes nothing. */
  lemma OtherGroup(obs: seq<Observation>, o: Observation, key: string, agg: Aggregate)
    requires !InGroup(o, key) && IsAggregateOf(agg, obs, key)
    ensures IsAggregateOf(agg, obs + [o], key)
  {
    GroupSnoc(obs, o, key);
    RequestsSnoc(obs, o, key);
    StatusesSnoc(obs, o, key);
    forall st | st in agg.responses ensures Elements(agg.responses[st]) == ResponseBodies(obs + [o], key, st) {
      ResponsesSnoc(obs, o, key, st);
    }
  }

  lemma AggregatesSnoc(obs: seq<Observation>, o: Observation, aggs: map<string, Aggregate>)
    requires AreAggregatesOf(aggs, obs)
    ensures !o.Counted() ==> AreAggregatesOf(aggs, obs + [o])
    ensures o.Counted() ==>
              var agg := if o.Key() in aggs then aggs[o.Key()] else NewAggregate(o);
              AreAggregatesOf(aggs[o.Key() := Extend(agg, o)], obs + [o])
  {
    forall key
      ensures FirstOf(obs + [o], key).Some? <==> key in aggs || InGroup(o, key)
      ensures key in aggs && !InGroup(o, key) ==> IsAggregateOf(aggs[key], obs + [o], key)
    {
      GroupSnoc(obs, o, key);
      if key in aggs && !InGroup(o, key) { OtherGroup(obs, o, key, aggs[key]); }
    }
    if o.Counted() {
      ExtendSnoc(obs, o, if o.Key() in aggs then aggs[o.Key()] else NewAggregate(o));
    }
  }

  lemma {:induction false} EmptyGroup(obs: seq<Observation>, key: string)
    requires FirstOf(obs, key).None?
    ensures GroupSize(obs, key) == 0 && !AnyAuthorized(obs, key)
    ensures RequestBodies(obs, key) == {} && Statuses(obs, key) == {}
  {
    if obs != [] {
      var n := |obs| - 1;
      assert obs == obs[..n] + [obs[n]];
      EmptyGroup(obs[..n], key);
    }
  }

  lemma NoAggregates()
    ensures AreAggregatesOf(map[], [])
  {
  }

  /** The first loop: each counted observation goes to the aggregate of its key. */
  method Aggregated(obs: seq<Observation>) returns (aggs: map<string, Aggregate>)
    ensures AreAggregatesOf(aggs, obs)
  {
    aggs := map[];
    NoAggregates();
    assert obs[..0] == [];
    for i := 0 to |obs|
      invariant AreAggregatesOf(aggs, obs[..i])
    {
      var o := obs[i];
      AggregatesSnoc(obs[..i], o, aggs);
      TakeSnoc(obs, i);
      if o.Counted() {
        var agg := if o.Key() in aggs then aggs[o.Key()] else NewAggregate(o);
        aggs := aggs[o.Key() := Extend(agg, o)];
      }
    }
    TakeAll(obs);
  }

  lemma EmptyOrInhabited(s: set<int>)
    ensures s == {} || exists x :: x in s
  {
    if forall x :: x !in s { assert s == {}; }
  }

  /** The content of a response: none without samples. */
  ghost function ContentSchema(samples: seq<Json>): Option<Schema> {
    if samples == [] then None else Some(BodySchema(Elements(samples)))
  }

  /** `buildResponses`, with statuses visited in some order. */
  method BuildResponses(samples: map<int, seq<Json>>) returns (out: map<int, Option<Schema>>)
    ensures out.Keys == samples.Keys
    ensures forall st | st in out :: out[st] == ContentSchema(samples[st])
  {
    out := map[];
    var todo := samples.Keys;
    while todo != {}
      invariant todo <= samples.Keys
      invariant out.Keys == samples.Keys - todo
      invariant forall st | st in out :: out[st] == ContentSchema(samples[st])
    {
      EmptyOrInhabited(todo);
      var st :| st in todo;
      todo := todo - {st};
      var content: Option<Schema> := None;
      if |samples[st]| > 0 {
        var schema := InferSchemaFromSamples(samples[st]);
        content := Some(schema);
      }
      out := out[st := content];
    }
  }

  lemma NonNullBodies(samples: seq<Json>)
    requires samples != [] && Null !in samples
    ensures BodySchema(Elements(samples)) == SchemaOf(Elements(samples))
  {
    assert samples[0] in Elements(samples);
    assert Elements(samples) - {Null} == Elements(samples);
  }

  method BuildOperation(agg: Aggregate, ghost obs: seq<Observation>, ghost key: string) returns (op: Operation)
    requires IsAggregateOf(agg, obs, key)
    ensures IsOperationOf(op, obs, key)
  {
    var request: Option<Schema> := None;
    if |agg.requests| > 0 {
      assert agg.requests[0] in Elements(agg.requests);
      assert Null !in Elements(agg.requests);
      var schema := InferSchemaFromSamples(agg.requests);
      NonNullBodies(agg.requests);
      request := Some(schema);
    }
    forall st | st in agg.responses
      ensures ContentSchema(agg.responses[st]) == Some(SchemaOf(Elements(agg.responses[st])))
    {
      assert Null !in Elements(agg.responses[st]);
      NonNullBodies(agg.responses[st]);
    }
    var responses := BuildResponses(agg.responses);
    op := Operation(agg.observed, agg.authObserved, request, responses);
  }

  /** The second loop's table, once the groups `done` have been written to it. */
  ghost predicate Assembled(paths: map<string, map<string, Operation>>, obs: seq<Observation>,
                            done: seq<string>)
  {
    && (forall p, m :: p in paths && m in paths[p] <==> HasOperation(obs, p, m) && KeyFor(p, m) in done)
    && (forall p, m | p in paths && m in paths[p] :: IsOperationOf(paths[p][m], obs, KeyFor(p, m)))
  }

  /** Writing one group's operation leaves all others alone, since its key fixes its place. */
  lemma AssembledSnoc(paths: map<string, map<string, Operation>>, obs: seq<Observation>,
                      aggs: map<string, Aggregate>, done: seq<string>, key: string, op: Operation)
    requires AreAggregatesOf(aggs, obs) && key in aggs
    requires Assembled(paths, obs, done)
    requires IsOperationOf(op, obs, key)
    ensures var agg := aggs[key];
            var item := if agg.path in paths then paths[agg.path] else map[];
            Assembled(paths[agg.path := item[agg.verb := op]], obs, done + [key])
  {
    var agg := aggs[key];
    assert IsAggregateOf(agg, obs, key);
    assert KeyFor(agg.path, agg.verb) == key && HasOperation(obs, agg.path, agg.verb);
    var item := if agg.path in paths then paths[agg.path] else map[];
    var paths' := paths[agg.path := item[agg.verb := op]];
    forall p, m
      ensures p in paths' && m in paths'[p] <==> HasOperation(obs, p, m) && KeyFor(p, m) in done + [key]
      ensures p in paths' && m in paths'[p] ==> IsOperationOf(paths'[p][m], obs, KeyFor(p, m))
    {
      if p == agg.path && m == agg.verb {
      } else {
        assert p in paths' && m in paths'[p] <==> p in paths && m in paths[p];
        assert HasOperation(obs, p, m) ==> KeyFor(p, m) != key;
      }
    }
  }

  /** One round of the second loop. */
  method WriteOperation(paths: map<string, map<string, Operation>>, agg: Aggregate,
                        ghost obs: seq<Observation>, ghost aggs: map<string, Aggregate>,
                        ghost done: seq<string>, ghost key: string)
    returns (paths': map<string, map<string, Operation>>)
    requires AreAggregatesOf(aggs, obs) && key in aggs && agg == aggs[key]
    requires Assembled(paths, obs, done)
    ensures Assembled(paths', obs, done + [key])
  {
    var op := BuildOperation(agg, obs, key);
    AssembledSnoc(paths, obs, aggs, done, key, op);
    var item := if agg.path in paths then paths[agg.path] else map[];
    paths' := paths[agg.path := item[agg.verb := op]];
  }

  ghost predicate AnySecured(aggs: map<string, Aggregate>, keys: seq<string>) {
    exists key :: key in keys && key in aggs && aggs[key].authObserved
  }

  lemma AnySecuredSnoc(aggs: map<string, Aggregate>, keys: seq<string>, key: string)
    requires key in aggs
    ensures AnySecured(aggs, keys + [key]) <==> AnySecured(aggs, keys) || aggs[key].authObserved
  {
    assert forall k :: k in keys + [key] <==> k in keys || k == key;
  }

  lemma NothingAssembled(obs: seq<Observation>)
    ensures Assembled(map[], obs, [])
  {
  }

  /** The second loop: one operation per group, in the order of the keys. */
  method Assemble(aggs: map<string, Aggregate>, keys: seq<string>, ghost obs: seq<Observation>)
    returns (paths: map<string, map<string, Operation>>, securityUsed: bool)
    requires AreAggregatesOf(aggs, obs) && forall k | k in keys :: k in aggs
    ensures Assembled(paths, obs, keys)
    ensures securityUsed <==> AnySecured(aggs, keys)
  {
    paths, securityUsed := map[], false;
    NothingAssembled(obs);
    assert keys[..0] == [];
    for i := 0 to |keys|
      invariant Assembled(paths, obs, keys[..i])
      invariant securityUsed <==> AnySecured(aggs, keys[..i])
    {
      assert keys[i] in keys;
      paths := WriteOperation(paths, aggs[keys[i]], obs, aggs, keys[..i], keys[i]);
      TakeSnoc(keys, i);
      AnySecuredSnoc(aggs, keys[..i], keys[i]);
      securityUsed := securityUsed || aggs[keys[i]].authObserved;
    }
    TakeAll(keys);
  }

  /** `BuildOpenAPISpec`: group the observations, then emit one operation per group. */
  method BuildOpenAPISpec(obs: seq<Observation>) returns (spec: Spec)
    ensures Describes(spec, obs)
  {
    var aggs := Aggregated(obs);
    var keys := SortedKeys(aggs.Keys);
    var paths, securityUsed := Assemble(aggs, keys, obs);
    spec := Spec(paths, securityUsed);
    AssembledDescribes(spec, obs, aggs, keys);
  }

  lemma AssembledDescribes(spec: Spec, obs: seq<Observation>, aggs: map<string, Aggregate>, keys: seq<string>)
    requires AreAggregatesOf(aggs, obs) && (forall k :: k in keys <==> k in aggs)
    requires Assembled(spec.paths, obs, keys)
    requires spec.securityUsed <==> AnySecured(aggs, keys)
    ensures Describes(spec, obs)
  {
    SecuredIsAuthorized(obs, aggs, keys);
    forall p, m | HasOperation(obs, p, m) ensures KeyFor(p, m) in keys {}
  }

  lemma SecuredIsAuthorized(obs: seq<Observation>, aggs: map<string, Aggregate>, keys: seq<string>)
    requires AreAggregatesOf(aggs, obs) && (forall k :: k in keys <==> k in aggs)
    ensures AnySecured(aggs, keys) <==> exists o :: o in obs && o.Counted() && o.authorized
  {
    if AnySecured(aggs, keys) {
      var key :| key in keys && key in aggs && aggs[key].authObserved;
      assert AnyAuthorized(obs, key);
    }
    if o :| o in obs && o.Counted() && o.authorized {
      assert InGroup(o, o.Key());
      assert FirstOf(obs, o.Key()).Some?;
      assert AnyAuthorized(obs, o.Key()) && IsAggregateOf(aggs[o.Key()], obs, o.Key());
    }
  }
}
