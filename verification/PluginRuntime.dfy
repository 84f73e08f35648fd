/**
 The plugin runtime of internal/pluginrt/runtime.go: the tables changed under its
 mutex, and the drain protocol of concurrent hook runs and unregistrations.
 */
module PluginRuntime {
  import opened Wrappers

  datatype Entry = Entry(inFlight: int, draining: bool)

  /** The tables. Entries are heap cells numbered in the order of registration. */
  datatype Tables = Tables(heap: seq<Entry>, plugins: map<string, nat>, order: seq<string>)
  {
    /** Every name points at a cell. */
    ghost predicate Closed() {
      forall n | n in plugins :: plugins[n] < |heap|
    }

    predicate Has(name: string) {
      name in plugins && plugins[name] < |heap|
    }

    function At(name: string): Entry
      requires Has(name)
    {
      heap[plugins[name]]
    }
  }

  function Registered(t: Tables, name: string): Tables {
    Tables(t.heap + [Entry(0, false)], t.plugins[name := |t.heap|], t.order + [name])
  }

  function WithoutFirst(order: seq<string>, name: string): seq<string> {
    if order == [] then []
    else if order[0] == name then order[1..]
    else [order[0]] + WithoutFirst(order[1..], name)
  }

  lemma KeptFirst(order: seq<string>, name: string, i: nat)
    requires i < |order| && order[i] != name
    ensures order[..i] + WithoutFirst(order[i..], name) == order[..i + 1] + WithoutFirst(order[i + 1..], name)
  {
    assert order[i..][0] == order[i] && order[i..][1..] == order[i + 1..];
    assert order[..i + 1] == order[..i] + [order[i]];
  }

  lemma FoundFirst(order: seq<string>, name: string, i: nat)
    requires i < |order| && order[i] == name
    ensures order[..i] + WithoutFirst(order[i..], name) == order[..i] + order[i + 1..]
  {
    assert order[i..][1..] == order[i + 1..];
  }

  function Draining(t: Tables, name: string): Tables
    requires t.Has(name)
  {
    t.(heap := t.heap[t.plugins[name] := t.At(name).(draining := true)], order := WithoutFirst(t.order, name))
  }

  function Deleted(t: Tables, name: string): Tables {
    t.(plugins := t.plugins - {name})
  }

  predicate Usable(t: Tables, name: string) {
    t.Has(name) && !t.At(name).draining
  }

  function Counted(t: Tables, name: string, delta: int): Tables
    requires t.Has(name)
  {
    t.(heap := t.heap[t.plugins[name] := t.At(name).(inFlight := t.At(name).inFlight + delta)])
  }

  /** The runtime object: each method is one section under the mutex. */
  class Runtime {
    var heap: seq<Entry>
    var plugins: map<string, nat>
    var order: seq<string>

    constructor ()
      ensures State() == Tables([], map[], [])
    {
      heap, plugins, order := [], map[], [];
    }

    function State(): Tables
      reads this
    {
      Tables(heap, plugins, order)
    }

    method Register(name: string) returns (ok: bool)
      modifies this
      ensures ok <==> name !in old(plugins)
      ensures State() == if ok then Registered(old(State()), name) else old(State())
    {
      if name in plugins {
        return false;
      }
      heap, plugins, order := heap + [Entry(0, false)], plugins[name := |heap|], order + [name];
      return true;
    }

    /** The first half of `Unregister`: mark the entry and take the name off the list. */
    method StartDrain(name: string) returns (entry: Option<nat>)
      requires State().Closed()
      modifies this
      ensures entry.Some? <==> name in old(plugins)
      ensures entry.Some? ==> entry.value == old(plugins)[name] && State() == Draining(old(State()), name)
      ensures entry.None? ==> State() == old(State())
    {
      if name !in plugins {
        return None;
      }
      var e := plugins[name];
      heap := heap[e := heap[e].(draining := true)];
      var i := 0;
      ghost var marked := State();
      while i < |order| && order[i] != name
        invariant i <= |order| && State() == marked
        invariant WithoutFirst(order, name) == order[..i] + WithoutFirst(order[i..], name)
      {
        KeptFirst(order, name, i);
        i := i + 1;
      }
      if i < |order| {
        FoundFirst(order, name, i);
        order := order[..i] + order[i + 1..];
      } else {
        assert order[i..] == [] && order[..i] + [] == order;
      }
      assert order == WithoutFirst(old(order), name);
      return Some(e);
    }

    /** One check of the wait loop: delete the name once nothing is in flight. */
    method TryFinish(name: string, entry: nat) returns (finished: bool)
      requires entry < |heap|
      modifies this
      ensures finished <==> old(heap)[entry].inFlight <= 0
      ensures State() == if finished then Deleted(old(State()), name) else old(State())
    {
      if heap[entry].inFlight > 0 {
        return false;
      }
      plugins := plugins - {name};
      return true;
    }

    method BeginUse(name: string) returns (entry: Option<nat>)
      requires State().Closed()
      modifies this
      ensures entry.Some? <==> Usable(old(State()), name)
      ensures entry.Some? ==> entry.value == old(plugins)[name] && State() == Counted(old(State()), name, 1)
      ensures entry.None? ==> State() == old(State())
    {
      if name !in plugins || heap[plugins[name]].draining {
        return None;
      }
      var e := plugins[name];
      heap := heap[e := heap[e].(inFlight := heap[e].inFlight + 1)];
      return Some(e);
    }

    /** The `done` closure: it looks the entry up by name again. */
    method EndUse(name: string) returns (broadcast: bool)
      requires State().Closed()
      modifies this
      ensures name !in old(plugins) ==> !broadcast && State() == old(State())
      ensures name in old(plugins) ==>
                && State() == Counted(old(State()), name, -1)
                && broadcast == (State().At(name).draining && State().At(name).inFlight == 0)
    {
      if name !in plugins {
        return false;
      }
      var e := plugins[name];
      heap := heap[e := heap[e].(inFlight := heap[e].inFlight - 1)];
      return heap[e].draining && heap[e].inFlight == 0;
    }
  }

  /** A hook in progress: the name it was begun under and the cell it counts in. */
  datatype Use = Use(name: string, entry: nat)

  /** A `RunRequest` or `RunResponse`: the names still to visit, the hook it is in, and whether a hook failed. */
  datatype HookRun = HookRun(rest: seq<string>, use: Option<Use>, failed: bool)

  /** An `Unregister` inside its wait loop. */
  datatype Waiter = Waiter(name: string, entry: nat, asleep: bool)

  /** `finished` holds the entries whose `Unregister` has returned. */
  datatype System = System(t: Tables, runs: map<nat, HookRun>, waiters: map<nat, Waiter>, finished: set<nat>)

  const INITIAL := System(Tables([], map[], []), map[], map[], {})

  /** Each action is one section under the mutex. */
  datatype Action =
    | Register(name: string)
    | Unregister(waiter: nat, name: string)
    | Wake(waiter: nat)
    | Snapshot(run: nat)
    | Begin(run: nat)
    | Done(run: nat, failed: bool)
    | Return(run: nat)

  /** When an action can happen. */
  predicate Enabled(s: System, a: Action) {
    match a
    case Register(_) => true
    case Unregister(w, _) => w !in s.waiters
    case Wake(w) => w in s.waiters && !s.waiters[w].asleep
    case Snapshot(r) => r !in s.runs
    case Begin(r) => r in s.runs && s.runs[r].use.None? && s.runs[r].rest != [] && !s.runs[r].failed
    case Done(r, _) => r in s.runs && s.runs[r].use.Some?
    case Return(r) => r in s.runs && s.runs[r].use.None? && (s.runs[r].rest == [] || s.runs[r].failed)
  }

  /** The callers' side condition: at most one pending `Unregister` per name. */
  ghost predicate Serialized(s: System, a: Action) {
    a.Unregister? ==> !Awaited(s.waiters, a.name)
  }

  function Awake(waiters: map<nat, Waiter>): map<nat, Waiter> {
    map w | w in waiters :: waiters[w].(asleep := false)
  }

  function Started(s: System, w: nat, name: string): System
    requires s.t.Has(name)
  {
    var e := s.t.plugins[name];
    var t := Draining(s.t, name);
    if t.heap[e].inFlight > 0 then s.(t := t, waiters := s.waiters[w := Waiter(name, e, true)])
    else s.(t := Deleted(t, name), finished := s.finished + {e})
  }

  function Woken(s: System, w: nat): System
    requires w in s.waiters && s.waiters[w].entry < |s.t.heap|
  {
    var v := s.waiters[w];
    if s.t.heap[v.entry].inFlight > 0 then s.(waiters := s.waiters[w := v.(asleep := true)])
    else s.(t := Deleted(s.t, v.name), waiters := s.waiters - {w}, finished := s.finished + {v.entry})
  }

  function Begun(s: System, r: nat): System
    requires r in s.runs && s.runs[r].rest != []
  {
    var name, rest := s.runs[r].rest[0], s.runs[r].rest[1..];
    if Usable(s.t, name) then
      s.(t := Counted(s.t, name, 1), runs := s.runs[r := HookRun(rest, Some(Use(name, s.t.plugins[name])), false)])
    else s.(runs := s.runs[r := HookRun(rest, None, false)])
  }

  function Ended(s: System, r: nat, failed: bool): System
    requires r in s.runs && s.runs[r].use.Some?
  {
    var name := s.runs[r].use.value.name;
    var runs := s.runs[r := HookRun(s.runs[r].rest, None, failed)];
    if !s.t.Has(name) then s.(runs := runs)
    else
      var t := Counted(s.t, name, -1);
      var waiters := if t.At(name).draining && t.At(name).inFlight == 0 then Awake(s.waiters) else s.waiters;
      s.(t := t, runs := runs, waiters := waiters)
  }

  function Apply(s: System, a: Action): System
    requires Enabled(s, a)
  {
    match a
    case Register(name) => if name in s.t.plugins then s else s.(t := Registered(s.t, name))
    case Unregister(w, name) => if s.t.Has(name) then Started(s, w, name) else s
    case Wake(w) => if s.waiters[w].entry < |s.t.heap| then Woken(s, w) else s
    case Snapshot(r) => s.(runs := s.runs[r := HookRun(s.t.order, None, false)])
    case Begin(r) => Begun(s, r)
    case Done(r, failed) => Ended(s, r, failed)
    case Return(r) => s.(runs := s.runs - {r})
  }

  // What holds in every reachable state.

  predicate InUse(run: HookRun, e: nat) {
    run.use.Some? && run.use.value.entry == e
  }

  /** The runs inside a hook of entry `e`. */
  function Users(runs: map<nat, HookRun>, e: nat): set<nat> {
    set r | r in runs && InUse(runs[r], e)
  }

  ghost predicate Counts(heap: seq<Entry>, runs: map<nat, HookRun>) {
    forall e | 0 <= e < |heap| :: heap[e].inFlight == |Users(runs, e)|
  }

  ghost predicate PluginsOk(t: Tables) {
    t.Closed() && forall m, n | m in t.plugins && n in t.plugins && t.plugins[m] == t.plugins[n] :: m == n
  }

  /** The list is free of duplicates and follows the order of registration. */
  ghost predicate Rising(plugins: map<string, nat>, order: seq<string>) {
    && (forall n | n in order :: n in plugins)
    && (forall i, j | 0 <= i < j < |order| :: plugins[order[i]] < plugins[order[j]])
  }

  /** The list holds exactly the plugins that are not draining, in the order of registration. */
  ghost predicate OrderOk(t: Tables) {
    && (forall n :: n in t.order <==> Usable(t, n))
    && Rising(t.plugins, t.order)
  }

  ghost predicate UsesOk(plugins: map<string, nat>, runs: map<nat, HookRun>) {
    forall r | r in runs && runs[r].use.Some? :: UseOk(plugins, runs[r].use.value)
  }

  predicate UseOk(plugins: map<string, nat>, u: Use) {
    u.name in plugins && plugins[u.name] == u.entry
  }

  /** A waiter's entry is still in the table, draining, and busy if the waiter sleeps. */
  predicate WaiterOk(t: Tables, w: Waiter) {
    && t.Has(w.name) && t.plugins[w.name] == w.entry
    && t.heap[w.entry].draining
    && (w.asleep ==> t.heap[w.entry].inFlight > 0)
  }

  ghost predicate WaitersOk(t: Tables, waiters: map<nat, Waiter>) {
    && (forall w | w in waiters :: WaiterOk(t, waiters[w]))
    && (forall v, w | v in waiters && w in waiters && waiters[v].name == waiters[w].name :: v == w)
  }

  ghost predicate Awaited(waiters: map<nat, Waiter>, name: string) {
    exists w :: w in waiters && waiters[w].name == name
  }

  ghost predicate DrainsAwaited(t: Tables, waiters: map<nat, Waiter>) {
    forall n | t.Has(n) && t.At(n).draining :: Awaited(waiters, n)
  }

  ghost predicate FinishedOk(t: Tables, finished: set<nat>) {
    forall e | e in finished :: e < |t.heap| && forall n | n in t.plugins :: t.plugins[n] != e
  }

  ghost predicate Safe(s: System) {
    && PluginsOk(s.t)
    && OrderOk(s.t)
    && Counts(s.t.heap, s.runs)
    && UsesOk(s.t.plugins, s.runs)
    && WaitersOk(s.t, s.waiters)
    && DrainsAwaited(s.t, s.waiters)
    && FinishedOk(s.t, s.finished)
  }

  lemma FreshEntryUnused(s: System)
    requires Safe(s)
    ensures Users(s.runs, |s.t.heap|) == {}
  {
  }

  lemma {:induction false} WithoutFirstOf(order: seq<string>, name: string)
    requires forall i, j | 0 <= i < j < |order| :: order[i] != order[j]
    ensures forall n :: n in WithoutFirst(order, name) <==> n in order && n != name
  {
    if order != [] && order[0] != name {
      WithoutFirstOf(order[1..], name);
    }
  }

  lemma RisingTail(plugins: map<string, nat>, order: seq<string>)
    requires Rising(plugins, order) && order != []
    ensures Rising(plugins, order[1..])
    ensures forall n | n in order[1..] :: plugins[order[0]] < plugins[n]
  {
  }

  lemma RisingCons(plugins: map<string, nat>, name: string, order: seq<string>)
    requires Rising(plugins, order) && name in plugins && forall n | n in order :: plugins[name] < plugins[n]
    ensures Rising(plugins, [name] + order)
  {
  }

  lemma {:induction false} WithoutFirstRising(plugins: map<string, nat>, order: seq<string>, name: string)
    requires Rising(plugins, order)
    ensures Rising(plugins, WithoutFirst(order, name))
    ensures forall n | n in WithoutFirst(order, name) :: n in order
  {
    if order != [] {
      RisingTail(plugins, order);
      if order[0] != name {
        WithoutFirstRising(plugins, order[1..], name);
        RisingCons(plugins, order[0], WithoutFirst(order[1..], name));
      }
    }
  }

  lemma DrainingKeepsOrder(t: Tables, name: string)
    requires PluginsOk(t) && OrderOk(t) && t.Has(name)
    ensures PluginsOk(Draining(t, name)) && OrderOk(Draining(t, name))
  {
    var d := Draining(t, name);
    WithoutFirstRising(t.plugins, t.order, name);
    WithoutFirstOf(t.order, name);
    assert forall n | n != name && t.Has(n) :: d.Has(n) && d.At(n) == t.At(n);
  }

  lemma DeletedKeepsOrder(t: Tables, name: string)
    requires PluginsOk(t) && OrderOk(t) && t.Has(name) && t.At(name).draining
    ensures PluginsOk(Deleted(t, name)) && OrderOk(Deleted(t, name))
  {
    var d := Deleted(t, name);
    assert forall n :: d.Has(n) <==> t.Has(n) && n != name;
    assert forall n | d.Has(n) :: d.At(n) == t.At(n);
    assert forall n | n in t.order :: n != name;
  }

  // One lemma for each action.

  lemma RegisteredOrder(t: Tables, name: string)
    requires PluginsOk(t) && OrderOk(t) && name !in t.plugins
    ensures PluginsOk(Registered(t, name)) && OrderOk(Registered(t, name))
  {
    var d := Registered(t, name);
    assert forall n | t.Has(n) :: d.Has(n) && d.At(n) == t.At(n);
    assert d.Has(name) && d.At(name) == Entry(0, false);
    assert forall n :: n in d.order <==> n in t.order || n == name;
    assert forall n | n in t.order :: n != name && d.plugins[n] < |t.heap|;
  }

  lemma RegisterKeepsSafe(s: System, name: string)
    requires Safe(s) && name !in s.t.plugins
    ensures Safe(s.(t := Registered(s.t, name)))
  {
    var t := Registered(s.t, name);
    RegisteredOrder(s.t, name);
    FreshEntryUnused(s);
    assert forall n | s.t.Has(n) :: t.Has(n) && t.At(n) == s.t.At(n);
  }

  lemma DeleteKeepsSafe(s: System, name: string, e: nat, waiters: map<nat, Waiter>)
    requires PluginsOk(s.t) && OrderOk(s.t) && Counts(s.t.heap, s.runs) && UsesOk(s.t.plugins, s.runs)
    requires FinishedOk(s.t, s.finished)
    requires s.t.Has(name) && s.t.plugins[name] == e && s.t.At(name) == Entry(0, true)
    requires WaitersOk(s.t, waiters) && !Awaited(waiters, name)
    requires forall n | s.t.Has(n) && s.t.At(n).draining && n != name :: Awaited(waiters, n)
    ensures Safe(System(Deleted(s.t, name), s.runs, waiters, s.finished + {e}))
  {
    DeletedKeepsOrder(s.t, name);
    assert Users(s.runs, e) == {};
    var d := Deleted(s.t, name);
    assert forall n :: d.Has(n) <==> s.t.Has(n) && n != name;
    forall r | r in s.runs && s.runs[r].use.Some? ensures UseOk(d.plugins, s.runs[r].use.value) {
      assert r !in Users(s.runs, e);
    }
  }

  lemma CountNotNegative(heap: seq<Entry>, runs: map<nat, HookRun>, e: nat)
    requires Counts(heap, runs) && e < |heap|
    ensures heap[e].inFlight >= 0
    ensures heap[e].inFlight == 0 <==> Users(runs, e) == {}
  {
  }

  lemma DrainingKeepsRest(s: System, name: string)
    requires Safe(s) && !Awaited(s.waiters, name) && s.t.Has(name)
    ensures Counts(Draining(s.t, name).heap, s.runs) && FinishedOk(Draining(s.t, name), s.finished)
    ensures WaitersOk(Draining(s.t, name), s.waiters)
    ensures forall n | Draining(s.t, name).Has(n) && Draining(s.t, name).At(n).draining && n != name ::
            Awaited(s.waiters, n)
  {
    var t := Draining(s.t, name);
    assert forall n :: t.Has(n) <==> s.t.Has(n);
    assert forall n | s.t.Has(n) && n != name :: t.At(n) == s.t.At(n);
    forall w | w in s.waiters ensures WaiterOk(t, s.waiters[w]) {
      assert WaiterOk(s.t, s.waiters[w]);
    }
  }

  lemma UnregisterKeepsSafe(s: System, w: nat, name: string)
    requires Safe(s) && w !in s.waiters && !Awaited(s.waiters, name) && s.t.Has(name)
    ensures Safe(Started(s, w, name))
  {
    var e := s.t.plugins[name];
    var t := Draining(s.t, name);
    DrainingKeepsOrder(s.t, name);
    DrainingKeepsRest(s, name);
    CountNotNegative(s.t.heap, s.runs, e);
    if t.heap[e].inFlight > 0 {
      AwaitedAfter(s.waiters, w, Waiter(name, e, true));
    } else {
      DeleteKeepsSafe(s.(t := t), name, e, s.waiters);
    }
  }

  lemma AwaitedAfter(waiters: map<nat, Waiter>, w: nat, v: Waiter)
    requires w in waiters ==> waiters[w].name == v.name
    ensures forall n :: Awaited(waiters[w := v], n) <==> Awaited(waiters, n) || n == v.name
  {
    var after := waiters[w := v];
    forall n ensures Awaited(after, n) <==> Awaited(waiters, n) || n == v.name {
      assert w in after && after[w].name == v.name;
      if Awaited(waiters, n) {
        var u :| u in waiters && waiters[u].name == n;
        assert u in after && after[u].name == n;
      }
    }
  }

  lemma WakeKeepsSafe(s: System, w: nat)
    requires Safe(s) && Enabled(s, Wake(w))
    ensures s.waiters[w].entry < |s.t.heap| && Safe(Woken(s, w))
  {
    var v := s.waiters[w];
    assert WaiterOk(s.t, v);
    CountNotNegative(s.t.heap, s.runs, v.entry);
    if s.t.heap[v.entry].inFlight > 0 {
      AwaitedAfter(s.waiters, w, v.(asleep := true));
    } else {
      var waiters := s.waiters - {w};
      forall n | n != v.name && Awaited(s.waiters, n) ensures Awaited(waiters, n) {
        var u :| u in s.waiters && s.waiters[u].name == n;
        assert u in waiters;
      }
      DeleteKeepsSafe(s, v.name, v.entry, waiters);
    }
  }

  lemma UsersAfter(runs: map<nat, HookRun>, r: nat, run: HookRun, e: nat)
    ensures Users(runs[r := run], e) == Users(runs, e) - {r} + if InUse(run, e) then {r} else {}
  {
  }

  /** A run that is in no hook before or after leaves every count alone. */
  lemma IdleKeepsSafe(s: System, r: nat, run: HookRun)
    requires Safe(s) && (r in s.runs ==> s.runs[r].use.None?) && run.use.None?
    ensures Safe(s.(runs := s.runs[r := run]))
  {
    forall e | 0 <= e < |s.t.heap| ensures Users(s.runs[r := run], e) == Users(s.runs, e) {
      UsersAfter(s.runs, r, run, e);
    }
  }

  lemma ReturnKeepsSafe(s: System, r: nat)
    requires Safe(s) && Enabled(s, Return(r))
    ensures Safe(s.(runs := s.runs - {r}))
  {
    assert forall e :: Users(s.runs - {r}, e) == Users(s.runs, e);
  }

  lemma CountedOrder(t: Tables, name: string, delta: int)
    requires PluginsOk(t) && OrderOk(t) && t.Has(name)
    ensures PluginsOk(Counted(t, name, delta)) && OrderOk(Counted(t, name, delta))
  {
    var d := Counted(t, name, delta);
    assert forall n :: d.Has(n) <==> t.Has(n);
    assert forall n | t.Has(n) :: d.At(n).draining == t.At(n).draining;
  }

  /** Changing one count keeps the waiters if that entry stays busy, drains nothing, or all are woken. */
  lemma CountedWaiters(t: Tables, name: string, delta: int, waiters: map<nat, Waiter>)
    requires PluginsOk(t) && t.Has(name) && WaitersOk(t, waiters)
    requires t.At(name).draining ==> t.At(name).inFlight + delta > 0
    ensures WaitersOk(Counted(t, name, delta), waiters)
  {
    var d := Counted(t, name, delta);
    forall w | w in waiters ensures WaiterOk(d, waiters[w]) {
      assert WaiterOk(t, waiters[w]);
    }
  }

  lemma CountedAwake(t: Tables, name: string, delta: int, waiters: map<nat, Waiter>)
    requires PluginsOk(t) && t.Has(name) && WaitersOk(t, waiters)
    ensures WaitersOk(Counted(t, name, delta), Awake(waiters))
  {
    var d := Counted(t, name, delta);
    forall w | w in waiters ensures WaiterOk(d, Awake(waiters)[w]) {
      assert WaiterOk(t, waiters[w]);
    }
  }

  lemma AwakeAwaited(waiters: map<nat, Waiter>, n: string)
    requires Awaited(waiters, n)
    ensures Awaited(Awake(waiters), n)
  {
    var w :| w in waiters && waiters[w].name == n;
    assert w in Awake(waiters) && Awake(waiters)[w].name == n;
  }

  lemma CountedDrains(t: Tables, name: string, delta: int, waiters: map<nat, Waiter>)
    requires t.Has(name) && DrainsAwaited(t, waiters)
    ensures DrainsAwaited(Counted(t, name, delta), waiters)
  {
    var d := Counted(t, name, delta);
    forall n | d.Has(n) && d.At(n).draining ensures Awaited(waiters, n) {
      assert t.Has(n) && t.At(n).draining;
    }
  }

  lemma BeginCounts(s: System, r: nat, run: HookRun, name: string)
    requires Safe(s) && s.t.Has(name)
    requires r in s.runs && s.runs[r].use.None? && run.use == Some(Use(name, s.t.plugins[name]))
    ensures Counts(Counted(s.t, name, 1).heap, s.runs[r := run])
  {
    var heap := Counted(s.t, name, 1).heap;
    forall e | 0 <= e < |heap| ensures heap[e].inFlight == |Users(s.runs[r := run], e)| {
      UsersAfter(s.runs, r, run, e);
      assert r !in Users(s.runs, e);
      assert s.t.heap[e].inFlight == |Users(s.runs, e)|;
    }
  }

  lemma BeginKeepsSafe(s: System, r: nat)
    requires Safe(s) && Enabled(s, Begin(r))
    ensures Safe(Begun(s, r))
  {
    var name, rest := s.runs[r].rest[0], s.runs[r].rest[1..];
    if Usable(s.t, name) {
      var run := HookRun(rest, Some(Use(name, s.t.plugins[name])), false);
      CountedOrder(s.t, name, 1);
      CountedWaiters(s.t, name, 1, s.waiters);
      CountedDrains(s.t, name, 1, s.waiters);
      BeginCounts(s, r, run, name);
    } else {
      IdleKeepsSafe(s, r, HookRun(rest, None, false));
    }
  }

  lemma EndCounts(s: System, r: nat, run: HookRun, name: string)
    requires Safe(s) && s.t.Has(name)
    requires r in s.runs && s.runs[r].use == Some(Use(name, s.t.plugins[name])) && run.use.None?
    ensures Counts(Counted(s.t, name, -1).heap, s.runs[r := run])
  {
    var heap := Counted(s.t, name, -1).heap;
    forall e | 0 <= e < |heap| ensures heap[e].inFlight == |Users(s.runs[r := run], e)| {
      UsersAfter(s.runs, r, run, e);
      assert r in Users(s.runs, e) <==> e == s.t.plugins[name];
      assert s.t.heap[e].inFlight == |Users(s.runs, e)|;
    }
  }

  lemma DoneKeepsSafe(s: System, r: nat, failed: bool)
    requires Safe(s) && Enabled(s, Done(r, failed))
    ensures Safe(Ended(s, r, failed))
  {
    var u := s.runs[r].use.value;
    var run := HookRun(s.runs[r].rest, None, failed);
    assert UseOk(s.t.plugins, u) && s.t.Has(u.name);
    EndCounts(s, r, run, u.name);
    CountedOrder(s.t, u.name, -1);
    CountedDrains(s.t, u.name, -1, s.waiters);
    assert r in Users(s.runs, u.entry);
    if s.t.At(u.name).draining && s.t.At(u.name).inFlight == 1 {
      CountedAwake(s.t, u.name, -1, s.waiters);
      forall n | Awaited(s.waiters, n) ensures Awaited(Awake(s.waiters), n) {
        AwakeAwaited(s.waiters, n);
      }
    } else {
      CountNotNegative(s.t.heap, s.runs, u.entry);
      CountedWaiters(s.t, u.name, -1, s.waiters);
    }
  }

  /** Every action of serialized callers keeps the system safe. */
  lemma StepKeepsSafe(s: System, a: Action)
    requires Safe(s) && Enabled(s, a) && Serialized(s, a)
    ensures Safe(Apply(s, a))
  {
    match a
    case Register(name) => if name !in s.t.plugins { RegisterKeepsSafe(s, name); }
    case Unregister(w, name) => if s.t.Has(name) { UnregisterKeepsSafe(s, w, name); }
    case Wake(w) => WakeKeepsSafe(s, w);
    case Snapshot(r) => IdleKeepsSafe(s, r, HookRun(s.t.order, None, false));
    case Begin(r) => BeginKeepsSafe(s, r);
    case Done(r, failed) => DoneKeepsSafe(s, r, failed);
    case Return(r) => ReturnKeepsSafe(s, r);
  }

  // Whole runs of the system, in any interleaving.

  ghost predicate Allowed(s: System, actions: seq<Action>)
    decreases |actions|
  {
    || actions == []
    || (Enabled(s, actions[0]) && Serialized(s, actions[0]) && Allowed(Apply(s, actions[0]), actions[1..]))
  }

  ghost function After(s: System, actions: seq<Action>): System
    requires Allowed(s, actions)
    decreases |actions|
  {
    if actions == [] then s else After(Apply(s, actions[0]), actions[1..])
  }

  /** Safety of every run: counts, listing, waiters, and entries that are gone. */
  lemma {:induction false} RunKeepsSafe(s: System, actions: seq<Action>)
    requires Safe(s) && Allowed(s, actions)
    ensures Safe(After(s, actions))
    decreases |actions|
  {
    if actions != [] {
      StepKeepsSafe(s, actions[0]);
      RunKeepsSafe(Apply(s, actions[0]), actions[1..]);
    }
  }

  // Why one pending `Unregister` per name is needed: any overlap can lose a plugin.

  /** What callers rely on, with no word on how many calls wait for a name. */
  ghost predicate Promised(s: System) {
    && OrderOk(s.t)
    && Counts(s.t.heap, s.runs)
    && (forall e | e in s.finished :: Users(s.runs, e) == {})
    && (forall w | w in s.waiters && s.waiters[w].asleep :: Users(s.runs, s.waiters[w].entry) != {})
  }

  ghost predicate StaysPromised(s: System) {
    forall actions | Allowed(s, actions) :: Promised(After(s, actions))
  }

  /** The list names a plugin that the table has lost. */
  predicate Lost(s: System, p: string) {
    p in s.t.order && p !in s.t.plugins
  }

  /** Two calls wait for the same draining entry, which its users still find under its name. */
  ghost predicate Doomed(s: System, v: nat, w: nat, p: string, e: nat) {
    && v != w && v in s.waiters && w in s.waiters
    && s.waiters[v].name == s.waiters[w].name == p && s.waiters[v].entry == s.waiters[w].entry == e
    && s.t.Has(p) && s.t.plugins[p] == e && s.t.heap[e].draining
    && s.t.heap[e].inFlight == |Users(s.runs, e)|
    && (forall r | r in Users(s.runs, e) :: s.runs[r].use.value.name == p)
    && (s.t.heap[e].inFlight == 0 ==> !s.waiters[v].asleep && !s.waiters[w].asleep)
  }

  lemma EmptyOrInhabited(s: set<nat>)
    ensures s == {} || exists x :: x in s
  {
    if forall x :: x !in s { assert s == {}; }
  }

  lemma AllowedCons(s: System, a: Action, rest: seq<Action>)
    requires Enabled(s, a) && Serialized(s, a) && Allowed(Apply(s, a), rest)
    ensures Allowed(s, [a] + rest) && After(s, [a] + rest) == After(Apply(s, a), rest)
  {
    assert ([a] + rest)[0] == a && ([a] + rest)[1..] == rest;
  }

  lemma DoneStaysDoomed(s: System, v: nat, w: nat, p: string, e: nat, r: nat)
    requires Doomed(s, v, w, p, e) && r in Users(s.runs, e)
    ensures Enabled(s, Done(r, false)) && Doomed(Ended(s, r, false), v, w, p, e)
    ensures Users(Ended(s, r, false).runs, e) == Users(s.runs, e) - {r}
  {
    UsersAfter(s.runs, r, HookRun(s.runs[r].rest, None, false), e);
  }

  /** A call that awakes to an idle entry after the name was taken again deletes the new plugin. */
  lemma LateWakeLoses(s: System, w: nat, p: string)
    requires w in s.waiters && s.waiters[w].name == p && !s.waiters[w].asleep
    requires s.waiters[w].entry < |s.t.heap| && s.t.heap[s.waiters[w].entry].inFlight <= 0 && p !in s.t.plugins
    ensures Allowed(s, [Register(p), Wake(w)]) && Lost(After(s, [Register(p), Wake(w)]), p)
  {
    var s1 := Apply(s, Register(p));
    assert Allowed(Apply(s1, Wake(w)), []);
    AllowedCons(s1, Wake(w), []);
    AllowedCons(s, Register(p), [Wake(w)]);
    assert [Register(p)] + [Wake(w)] == [Register(p), Wake(w)] && [Wake(w)] + [] == [Wake(w)];
    assert p in s1.t.order;
  }

  lemma {:induction false} DoomedLoses(s: System, v: nat, w: nat, p: string, e: nat) returns (actions: seq<Action>)
    requires Doomed(s, v, w, p, e)
    ensures Allowed(s, actions) && Lost(After(s, actions), p)
    decreases |Users(s.runs, e)|
  {
    EmptyOrInhabited(Users(s.runs, e));
    if r :| r in Users(s.runs, e) {
      DoneStaysDoomed(s, v, w, p, e, r);
      var rest := DoomedLoses(Ended(s, r, false), v, w, p, e);
      AllowedCons(s, Done(r, false), rest);
      actions := [Done(r, false)] + rest;
    } else {
      assert Users(s.runs, e) == {};
      LateWakeLoses(Woken(s, v), w, p);
      AllowedCons(s, Wake(v), [Register(p), Wake(w)]);
      actions := [Wake(v)] + [Register(p), Wake(w)];
    }
  }

  /**
   From every safe state: after a second `Unregister` for a pending name, the running hooks,
   the waiting calls and one new registration can lose the new plugin.
   */
  lemma OverlapLosesAPlugin(s: System, w: nat, p: string) returns (actions: seq<Action>)
    requires Safe(s) && Enabled(s, Unregister(w, p)) && Awaited(s.waiters, p)
    ensures Allowed(Apply(s, Unregister(w, p)), actions)
    ensures Lost(After(Apply(s, Unregister(w, p)), actions), p)
  {
    var v :| v in s.waiters && s.waiters[v].name == p;
    assert WaiterOk(s.t, s.waiters[v]);
    var e := s.t.plugins[p];
    var after := Started(s, w, p);
    CountNotNegative(s.t.heap, s.runs, e);
    if s.t.heap[e].inFlight > 0 {
      assert forall r | r in Users(s.runs, e) :: UseOk(s.t.plugins, s.runs[r].use.value);
      actions := DoomedLoses(after, v, w, p, e);
    } else {
      LateWakeLoses(after, v, p);
      actions := [Register(p), Wake(v)];
    }
  }

  /** One plugin whose hook is running. */
  function Busy(p: string): System {
    Apply(Apply(Apply(INITIAL, Register(p)), Snapshot(0)), Begin(0))
  }

  lemma BusyIsSafe(p: string)
    ensures Safe(Busy(p)) && Busy(p).t.Has(p) && Busy(p).t.At(p).inFlight == 1 && Busy(p).waiters == map[]
  {
    var s1 := Apply(INITIAL, Register(p));
    StepKeepsSafe(INITIAL, Register(p));
    var s2 := Apply(s1, Snapshot(0));
    StepKeepsSafe(s1, Snapshot(0));
    StepKeepsSafe(s2, Begin(0));
  }

  /** A first overlap is close at hand: one running hook and two calls. */
  lemma OverlappingUnregistersLoseAPlugin(p: string) returns (actions: seq<Action>)
    ensures
      var overlap := Apply(Apply(Busy(p), Unregister(1, p)), Unregister(2, p));
      Allowed(overlap, actions) && Lost(After(overlap, actions), p)
  {
    BusyIsSafe(p);
    var s := Apply(Busy(p), Unregister(1, p));
    StepKeepsSafe(Busy(p), Unregister(1, p));
    assert s.waiters[1].name == p && Awaited(s.waiters, p);
    actions := OverlapLosesAPlugin(s, 2, p);
  }

  lemma SafeIsPromised(s: System)
    requires Safe(s)
    ensures Promised(s)
  {
    forall e | e in s.finished ensures Users(s.runs, e) == {} {
      assert forall r | r in s.runs && s.runs[r].use.Some? :: UseOk(s.t.plugins, s.runs[r].use.value);
    }
    forall w | w in s.waiters && s.waiters[w].asleep ensures Users(s.runs, s.waiters[w].entry) != {} {
      assert WaiterOk(s.t, s.waiters[w]);
      CountNotNegative(s.t.heap, s.runs, s.waiters[w].entry);
    }
  }

  /** What callers rely on outlives an action exactly when it does not overlap a pending `Unregister` of its name. */
  lemma PromisedIffSerialized(s: System, a: Action)
    requires Safe(s) && Enabled(s, a)
    ensures StaysPromised(Apply(s, a)) <==> Serialized(s, a)
  {
    if Serialized(s, a) {
      StepKeepsSafe(s, a);
      forall actions | Allowed(Apply(s, a), actions) ensures Promised(After(Apply(s, a), actions)) {
        RunKeepsSafe(Apply(s, a), actions);
        SafeIsPromised(After(Apply(s, a), actions));
      }
    } else {
      var actions := OverlapLosesAPlugin(s, a.waiter, a.name);
      assert !Promised(After(Apply(s, a), actions));
    }
  }

  lemma ReachableIsSafe(actions: seq<Action>)
    requires Allowed(INITIAL, actions)
    ensures Safe(After(INITIAL, actions))
  {
    RunKeepsSafe(INITIAL, actions);
  }

  lemma {:induction false} FinishedStays(s: System, actions: seq<Action>)
    requires Allowed(s, actions)
    ensures s.finished <= After(s, actions).finished
    decreases |actions|
  {
    if actions != [] {
      FinishedStays(Apply(s, actions[0]), actions[1..]);
    }
  }

  /** An `Unregister` that leaves the wait loop has finished its entry, which nobody uses. */
  lemma UnregisterReturns(s: System, w: nat, a: Action)
    requires Safe(s) && w in s.waiters && Enabled(s, a) && w !in Apply(s, a).waiters
    ensures s.waiters[w].entry in Apply(s, a).finished && Users(s.runs, s.waiters[w].entry) == {}
  {
    assert WaiterOk(s.t, s.waiters[w]);
    CountNotNegative(s.t.heap, s.runs, s.waiters[w].entry);
  }

  /** An `Unregister` that need not wait finishes at once. */
  lemma UnregisterReturnsAtOnce(s: System, w: nat, name: string)
    requires Safe(s) && Enabled(s, Unregister(w, name)) && name in s.t.plugins
    ensures w !in Apply(s, Unregister(w, name)).waiters <==> Users(s.runs, s.t.plugins[name]) == {}
    ensures w !in Apply(s, Unregister(w, name)).waiters ==> s.t.plugins[name] in Apply(s, Unregister(w, name)).finished
  {
    CountNotNegative(s.t.heap, s.runs, s.t.plugins[name]);
  }

  /** Once an `Unregister` has returned, no run is ever again inside a hook of its entry. */
  lemma NoHookAfterUnregister(s: System, actions: seq<Action>, e: nat)
    requires Safe(s) && Allowed(s, actions) && e in s.finished
    ensures Users(After(s, actions).runs, e) == {}
  {
    RunKeepsSafe(s, actions);
    FinishedStays(s, actions);
    var end := After(s, actions);
    assert forall r | r in end.runs && end.runs[r].use.Some? :: UseOk(end.t.plugins, end.runs[r].use.value);
  }

  lemma DrainingRefusesUse(s: System, r: nat, e: nat)
    requires Safe(s) && Enabled(s, Begin(r)) && e < |s.t.heap| && s.t.heap[e].draining
    ensures Users(Begun(s, r).runs, e) == Users(s.runs, e)
    ensures e < |Begun(s, r).t.heap| && Begun(s, r).t.heap[e].draining
  {
    UsersAfter(s.runs, r, Begun(s, r).runs[r], e);
  }

  lemma DoneShrinks(s: System, r: nat, failed: bool, e: nat)
    requires Safe(s) && Enabled(s, Done(r, failed)) && e < |s.t.heap| && s.t.heap[e].draining
    ensures Users(Ended(s, r, failed).runs, e) == Users(s.runs, e) - {r}
    ensures e < |Ended(s, r, failed).t.heap| && Ended(s, r, failed).t.heap[e].draining
  {
    UsersAfter(s.runs, r, Ended(s, r, failed).runs[r], e);
  }

  /** While an entry drains, its set of users only shrinks. */
  lemma DrainOnlyShrinks(s: System, a: Action, e: nat)
    requires Safe(s) && Enabled(s, a) && e < |s.t.heap| && s.t.heap[e].draining
    ensures e < |Apply(s, a).t.heap| && Apply(s, a).t.heap[e].draining
    ensures Users(Apply(s, a).runs, e) <= Users(s.runs, e)
    ensures a.Done? && InUse(s.runs[a.run], e) ==> Users(Apply(s, a).runs, e) == Users(s.runs, e) - {a.run}
  {
    if a.Begin? {
      DrainingRefusesUse(s, a.run, e);
    } else if a.Done? {
      DoneShrinks(s, a.run, a.failed, e);
    }
  }

  /** A waiter whose entry is idle is awake, and its next step returns. */
  lemma IdleWaiterReturns(s: System, w: nat)
    requires Safe(s) && w in s.waiters && Users(s.runs, s.waiters[w].entry) == {}
    ensures Enabled(s, Wake(w)) && w !in Apply(s, Wake(w)).waiters
  {
    assert WaiterOk(s.t, s.waiters[w]);
    CountNotNegative(s.t.heap, s.runs, s.waiters[w].entry);
  }

  // What a run visits.

  ghost predicate StaysIn(actions: seq<Action>, r: nat) {
    Return(r) !in actions
  }

  /** How many turns a run has taken. */
  function Begins(actions: seq<Action>, r: nat): nat {
    if actions == [] then 0 else (if actions[0] == Begin(r) then 1 else 0) + Begins(actions[1..], r)
  }

  ghost predicate Enters(before: System, after: System, r: nat) {
    r in before.runs && r in after.runs && before.runs[r].use.None? && after.runs[r].use.Some?
  }

  /** The hooks that a run is seen to enter, in order. */
  ghost function Entered(s: System, actions: seq<Action>, r: nat): seq<Use>
    requires Allowed(s, actions)
    decreases |actions|
  {
    if actions == [] then []
    else
      var next := Apply(s, actions[0]);
      (if Enters(s, next, r) then [next.runs[r].use.value] else []) + Entered(next, actions[1..], r)
  }

  /** The hook of a name that is registered and not draining; none otherwise. */
  function HookOf(t: Tables, name: string): seq<Use> {
    if name in t.plugins && t.plugins[name] < |t.heap| && !t.heap[t.plugins[name]].draining
    then [Use(name, t.plugins[name])]
    else []
  }

  /** The hooks of the listed names, each looked up when its turn comes. */
  ghost function Turns(s: System, actions: seq<Action>, r: nat, order: seq<string>): seq<Use>
    requires Allowed(s, actions)
    decreases |actions|
  {
    if actions == [] then []
    else if actions[0] == Begin(r) && order != [] then
      HookOf(s.t, order[0]) + Turns(Apply(s, actions[0]), actions[1..], r, order[1..])
    else Turns(Apply(s, actions[0]), actions[1..], r, order)
  }

  /** A failed run is in no hook. */
  predicate Sound(run: HookRun) {
    run.failed ==> run.use.None?
  }

  lemma StepVisits(s: System, a: Action, r: nat)
    requires Enabled(s, a) && r in s.runs && a != Return(r) && Sound(s.runs[r])
    ensures r in Apply(s, a).runs && Sound(Apply(s, a).runs[r])
    ensures a == Begin(r) ==>
              && s.runs[r].rest != [] && Apply(s, a).runs[r].rest == s.runs[r].rest[1..]
              && (if Enters(s, Apply(s, a), r) then [Apply(s, a).runs[r].use.value] else [])
                 == HookOf(s.t, s.runs[r].rest[0])
    ensures a != Begin(r) ==> Apply(s, a).runs[r].rest == s.runs[r].rest && !Enters(s, Apply(s, a), r)
    ensures Apply(s, a).runs[r].failed <==> (s.runs[r].failed || a == Done(r, true))
  {
  }

  /**
   A run visits its list: after `k` turns the names from position `k` on are left, and the
   hooks entered are, in order, those of the visited names that were there at their turn.
   */
  lemma {:induction false} VisitsList(s: System, actions: seq<Action>, r: nat)
    requires Allowed(s, actions) && StaysIn(actions, r) && r in s.runs && Sound(s.runs[r])
    ensures r in After(s, actions).runs && Begins(actions, r) <= |s.runs[r].rest|
    ensures After(s, actions).runs[r].rest == s.runs[r].rest[Begins(actions, r)..]
    ensures Entered(s, actions, r) == Turns(s, actions, r, s.runs[r].rest)
    ensures After(s, actions).runs[r].failed <==> (s.runs[r].failed || Done(r, true) in actions)
    decreases |actions|
  {
    if actions != [] {
      StepVisits(s, actions[0], r);
      VisitsList(Apply(s, actions[0]), actions[1..], r);
    }
  }

  /** A run goes through the list as it was at its snapshot. */
  lemma VisitsSnapshot(s: System, actions: seq<Action>, r: nat)
    requires Enabled(s, Snapshot(r)) && Allowed(Apply(s, Snapshot(r)), actions) && StaysIn(actions, r)
    ensures
      var start := Apply(s, Snapshot(r));
      && r in After(start, actions).runs
      && Begins(actions, r) <= |s.t.order|
      && After(start, actions).runs[r].rest == s.t.order[Begins(actions, r)..]
      && Entered(start, actions, r) == Turns(start, actions, r, s.t.order)
  {
    VisitsList(Apply(s, Snapshot(r)), actions, r);
  }

  /** It returns only when it has visited every name or a hook has failed, and goes on otherwise. */
  lemma ReturnsWhenVisited(s: System, actions: seq<Action>, r: nat)
    requires Enabled(s, Snapshot(r)) && Allowed(Apply(s, Snapshot(r)), actions) && StaysIn(actions, r)
    ensures
      var now := After(Apply(s, Snapshot(r)), actions);
      && (Enabled(now, Return(r)) ==> Begins(actions, r) == |s.t.order| || Done(r, true) in actions)
      && (Enabled(now, Begin(r)) || Enabled(now, Done(r, false)) || Enabled(now, Return(r)))
  {
    VisitsList(Apply(s, Snapshot(r)), actions, r);
  }
}
