/**
 The rate-limiter plugin of internal/pluginrt/builtins/rate_limiter.go: an ordered
 list of rules, each with its own bucket per derived key.
 */
module RateLimiter {
  import opened Collections
  import opened Text
  import opened TokenBucket
  import opened Wrappers

  datatype Rule = Rule(keySource: string, matchPath: string, rate: real, burst: int, rejectWith: int)

  /**
   What the rules look at. `remoteHost` is the host part of the remote address when
   there is one, and `header` is `Headers.Get`, empty for a missing header.
   */
  datatype Request = Request(remoteHost: Option<string>, header: string -> string, path: string)

  const HEADER_PREFIX := "header:"

  function ExtractKey(rule: Rule, req: Request): string {
    if rule.keySource == "global" then "global"
    else if rule.keySource == "ip" then
      if req.remoteHost.Some? then req.remoteHost.value else "unknown"
    else if HEADER_PREFIX <= rule.keySource then
      var v := req.header(rule.keySource[|HEADER_PREFIX|..]);
      if v == "" then "unknown" else v
    else if rule.keySource == "path" then req.path
    else "unknown"
  }

  predicate Applies(rule: Rule, req: Request) {
    rule.matchPath == "" || Contains(req.path, rule.matchPath)
  }

  function LimitOf(rule: Rule): Limit {
    ByRate(rule.burst as real, rule.rate)
  }

  // ---------------------------------------------------------------- bucket keys

  /** The code's "index:key". */
  function BucketKey(i: nat, key: string): string {
    Decimal(i) + ":" + key
  }

  lemma BucketKeyInjective(i: nat, key: string, i': nat, key': string)
    requires BucketKey(i, key) == BucketKey(i', key')
    ensures i == i' && key == key'
  {
    assert forall k | 0 <= k < |Decimal(i)| :: Decimal(i)[k] in DIGITS;
    assert ':' !in Decimal(i) && ':' !in Decimal(i');
    SplitAtSeparator(Decimal(i), key, Decimal(i'), key', ':');
    DecimalInjective(i, i');
  }

  // ---------------------------------------------------------------- one request

  type View = map<string, Level>

  function LevelFor(rule: Rule, view: View, bkey: string, now: real): Level {
    if bkey in view then view[bkey] else Full(LimitOf(rule), now)
  }

  /** The buckets after rules i, i+1, ... and the rule that rejected, if any. */
  function Run(rules: seq<Rule>, i: nat, view: View, req: Request, now: real): (r: (View, Option<nat>))
    requires i <= |rules|
    ensures r.1.Some? ==> i <= r.1.value < |rules|
    decreases |rules| - i
  {
    if i == |rules| then (view, None)
    else if !Applies(rules[i], req) then Run(rules, i + 1, view, req, now)
    else
      var bkey := BucketKey(i, ExtractKey(rules[i], req));
      var level := LevelFor(rules[i], view, bkey, now);
      var view' := view[bkey := Next(LimitOf(rules[i]), level, now)];
      if Admits(LimitOf(rules[i]), level, now) then Run(rules, i + 1, view', req, now)
      else (view', Some(i))
  }

  lemma RejectedAt(rules: seq<Rule>, i: nat, view: View, req: Request, now: real)
    requires i < |rules| && Applies(rules[i], req)
    requires var bkey := BucketKey(i, ExtractKey(rules[i], req));
             !Admits(LimitOf(rules[i]), LevelFor(rules[i], view, bkey, now), now)
    ensures var bkey := BucketKey(i, ExtractKey(rules[i], req));
            var view' := view[bkey := Next(LimitOf(rules[i]), LevelFor(rules[i], view, bkey, now), now)];
            Run(rules, i, view, req, now) == (view', Some(i))
  {
  }

  ghost predicate HasLimit(b: Bucket, rule: Rule) {
    b.capacity == rule.burst as real && b.rate == rule.rate
  }

  datatype Rejection = Rejection(status: int, retryAfter: string, body: string)

  function RejectionOf(rule: Rule): Rejection {
    Rejection(if rule.rejectWith == 0 then 429 else rule.rejectWith, "1", "rate limit exceeded")
  }

  class Limiter {
    const rules: seq<Rule>
    var buckets: map<string, Bucket>

    constructor (rules: seq<Rule>)
      ensures this.rules == rules && Valid() && View() == map[]
    {
      this.rules := rules;
      buckets := map[];
    }

    /** Buckets are not shared between keys, and each carries the limit of its rule. */
    ghost predicate Valid()
      reads this
    {
      && (forall a, b | a in buckets && b in buckets && a != b :: buckets[a] != buckets[b])
      && (forall i, key | 0 <= i < |rules| && BucketKey(i, key) in buckets ::
            HasLimit(buckets[BucketKey(i, key)], rules[i]))
    }

    ghost function View(): View
      reads this, buckets.Values
    {
      map k | k in buckets :: buckets[k].State()
    }

    method GetBucket(i: nat, key: string, now: real) returns (b: Bucket)
      requires Valid() && i < |rules|
      modifies this
      ensures Valid() && BucketKey(i, key) in buckets && b == buckets[BucketKey(i, key)]
      ensures HasLimit(b, rules[i])
      ensures forall k | k in buckets :: buckets[k] in old(buckets).Values || fresh(buckets[k])
      ensures View() == old(View())[BucketKey(i, key) := LevelFor(rules[i], old(View()), BucketKey(i, key), now)]
    {
      var bkey := BucketKey(i, key);
      if bkey in buckets {
        b := buckets[bkey];
      } else {
        b := new Bucket(rules[i].burst as real, rules[i].rate, now);
        forall i', key' | 0 <= i' < |rules| && BucketKey(i', key') == bkey ensures i' == i && key' == key {
          BucketKeyInjective(i', key', i, key);
        }
        buckets := buckets[bkey := b];
      }
    }

    /** If only one bucket differs from an earlier view, the view is that one updated. */
    lemma ViewChanged(before: View, bkey: string)
      requires bkey in buckets && buckets.Keys == before.Keys
      requires forall k | k in buckets && k != bkey :: buckets[k].State() == before[k]
      ensures View() == before[bkey := buckets[bkey].State()]
    {
      MapsEqual(View(), before[bkey := buckets[bkey].State()]);
    }

    /** The body of the loop for a rule that applies: find the bucket and ask it. */
    method Ask(i: nat, key: string, now: real) returns (ok: bool)
      requires Valid() && i < |rules|
      modifies this, buckets.Values
      ensures Valid()
      ensures forall k | k in buckets :: buckets[k] in old(buckets).Values || fresh(buckets[k])
      ensures var level := LevelFor(rules[i], old(View()), BucketKey(i, key), now);
              && ok == Admits(LimitOf(rules[i]), level, now)
              && View() == old(View())[BucketKey(i, key) := Next(LimitOf(rules[i]), level, now)]
    {
      var b := GetBucket(i, key, now);
      ghost var bkey, created, kept := BucketKey(i, key), View(), buckets;
      assert b.State() == created[bkey];
      ok := b.Allow(now);
      assert buckets == kept;
      ViewChanged(created, bkey);
      LastUpdateWins(old(View()), bkey, created[bkey], b.State());
    }

    /** `OnRequest`: the synthetic rejection, or none when the request passes every rule. */
    method OnRequest(req: Request, now: real) returns (rejected: Option<Rejection>)
      requires Valid()
      modifies this, buckets.Values
      ensures Valid()
      ensures View() == Run(rules, 0, old(View()), req, now).0
      ensures rejected.Some? <==> Run(rules, 0, old(View()), req, now).1.Some?
      ensures rejected.Some? ==>
                var rule := rules[Run(rules, 0, old(View()), req, now).1.value];
                rejected.value == RejectionOf(rule)
    {
      for i := 0 to |rules|
        invariant Valid()
        invariant forall k | k in buckets :: buckets[k] in old(buckets).Values || fresh(buckets[k])
        invariant Run(rules, i, View(), req, now) == Run(rules, 0, old(View()), req, now)
      {
        var rule := rules[i];
        if Applies(rule, req) {
          ghost var before := View();
          var ok := Ask(i, ExtractKey(rule, req), now);
          if !ok {
            RejectedAt(rules, i, before, req, now);
            var status := if rule.rejectWith == 0 then 429 else rule.rejectWith;
            return Some(Rejection(status, "1", "rate limit exceeded"));
          }
        }
      }
      return None;
    }
  }

  // ---------------------------------------------------------------- runs

  /** A request and the time at which it arrives. */
  datatype Arrival = Arrival(req: Request, time: real)

  ghost predicate Chronological(arrivals: seq<Arrival>) {
    forall i, j | 0 <= i <= j < |arrivals| :: arrivals[i].time <= arrivals[j].time
  }

  /** The buckets after the first n arrivals at a fresh limiter. */
  ghost function ViewAfter(rules: seq<Rule>, arrivals: seq<Arrival>, n: nat): View
    requires n <= |arrivals|
    decreases n, 0
  {
    if n == 0 then map[] else Step(rules, arrivals, n - 1).0
  }

  ghost function Step(rules: seq<Rule>, arrivals: seq<Arrival>, n: nat): (View, Option<nat>)
    requires n < |arrivals|
    decreases n, 1
  {
    Run(rules, 0, ViewAfter(rules, arrivals, n), arrivals[n].req, arrivals[n].time)
  }

  ghost predicate Forwarded(rules: seq<Rule>, arrivals: seq<Arrival>, n: nat)
    requires n < |arrivals|
  {
    Step(rules, arrivals, n).1.None?
  }

  ghost predicate Concerns(rule: Rule, key: string, req: Request) {
    Applies(rule, req) && ExtractKey(rule, req) == key
  }

  /** How many of the arrivals i, ..., j-1 that concern the rule and key were forwarded. */
  ghost function ForwardedCount(rules: seq<Rule>, arrivals: seq<Arrival>, r: nat, key: string, i: nat, j: nat): nat
    requires r < |rules| && i <= j <= |arrivals|
  {
    if i == j then 0
    else
      ForwardedCount(rules, arrivals, r, key, i, j - 1)
      + if Concerns(rules[r], key, arrivals[j - 1].req) && Forwarded(rules, arrivals, j - 1) then 1 else 0
  }

  /** The walk reaches rule r: no earlier rule rejects. */
  ghost predicate Reaches(outcome: Option<nat>, r: nat) {
    outcome.None? || outcome.value >= r
  }

  /** What one request has done to one bucket: a single call of `allow`, or nothing. */
  ghost predicate Effect(
    rule: Rule, r: nat, key: string, req: Request, now: real, asked: bool,
    view: View, view': View, outcome: Option<nat>)
  {
    var b := BucketKey(r, key);
    if asked && Concerns(rule, key, req) && Reaches(outcome, r) then
      && b in view'
      && view'[b] == Next(LimitOf(rule), LevelFor(rule, view, b, now), now)
      && (Reaches(outcome, r + 1) <==> Admits(LimitOf(rule), LevelFor(rule, view, b, now), now))
    else
      (b in view' <==> b in view) && (b in view ==> view'[b] == view[b])
  }

  ghost predicate SameAt(view: View, view1: View, b: string) {
    (b in view1 <==> b in view) && (b in view ==> view1[b] == view[b])
  }

  /** A bucket of another rule or key is left alone. */
  lemma OtherBucket(view: View, i: nat, key_i: string, level: Level, r: nat, key: string)
    requires i != r || key_i != key
    ensures SameAt(view, view[BucketKey(i, key_i) := level], BucketKey(r, key))
  {
    if BucketKey(i, key_i) == BucketKey(r, key) {
      BucketKeyInjective(i, key_i, r, key);
    }
  }

  lemma EffectFromSame(
    rule: Rule, r: nat, key: string, req: Request, now: real, asked: bool,
    view: View, view1: View, view': View, outcome: Option<nat>)
    requires SameAt(view, view1, BucketKey(r, key))
    requires Effect(rule, r, key, req, now, asked, view1, view', outcome)
    ensures Effect(rule, r, key, req, now, asked, view, view', outcome)
  {
  }

  /** A later rule does not touch the bucket, so the step of its own rule is all that happens to it. */
  lemma EffectOfOwnRule(rules: seq<Rule>, r: nat, key: string, req: Request, now: real, view: View)
    requires r < |rules| && Concerns(rules[r], key, req)
    requires
      var b := BucketKey(r, key);
      var view1 := view[b := Next(LimitOf(rules[r]), LevelFor(rules[r], view, b, now), now)];
      var (view', outcome) := Run(rules, r + 1, view1, req, now);
      Effect(rules[r], r, key, req, now, false, view1, view', outcome)
    ensures
      var (view', outcome) := Run(rules, r, view, req, now);
      Effect(rules[r], r, key, req, now, true, view, view', outcome)
  {
  }

  /** Effect of one request on one bucket: a single call of `allow`, or nothing. */
  lemma {:induction false} RunEffect(rules: seq<Rule>, i: nat, view: View, req: Request, now: real, r: nat, key: string)
    requires i <= |rules| && r < |rules|
    ensures
      var (view', outcome) := Run(rules, i, view, req, now);
      Effect(rules[r], r, key, req, now, i <= r, view, view', outcome)
    decreases |rules| - i
  {
    if i < |rules| {
      if Applies(rules[i], req) {
        var key_i := ExtractKey(rules[i], req);
        var level := Next(LimitOf(rules[i]), LevelFor(rules[i], view, BucketKey(i, key_i), now), now);
        var view1 := view[BucketKey(i, key_i) := level];
        RunEffect(rules, i + 1, view1, req, now, r, key);
        if i == r && key_i == key {
          EffectOfOwnRule(rules, r, key, req, now, view);
        } else {
          OtherBucket(view, i, key_i, level, r, key);
          var (view', outcome) := Run(rules, i + 1, view1, req, now);
          EffectFromSame(rules[r], r, key, req, now, i + 1 <= r, view, view1, view', outcome);
        }
      } else {
        RunEffect(rules, i + 1, view, req, now, r, key);
      }
    }
  }

  /** The times at which the first n arrivals called `allow` on the bucket of rule r and key. */
  ghost function Touches(rules: seq<Rule>, arrivals: seq<Arrival>, r: nat, key: string, n: nat): seq<real>
    requires r < |rules| && n <= |arrivals|
  {
    if n == 0 then []
    else
      Touches(rules, arrivals, r, key, n - 1)
      + if Touched(rules, arrivals, r, key, n - 1) then [arrivals[n - 1].time] else []
  }

  ghost predicate Touched(rules: seq<Rule>, arrivals: seq<Arrival>, r: nat, key: string, n: nat)
    requires r < |rules| && n < |arrivals|
  {
    Concerns(rules[r], key, arrivals[n].req) && Reaches(Step(rules, arrivals, n).1, r)
  }

  /** The stored bucket is the one its touches alone would produce. */
  lemma {:induction false} BucketFollowsTouches(rules: seq<Rule>, arrivals: seq<Arrival>, r: nat, key: string, n: nat)
    requires r < |rules| && n <= |arrivals|
    ensures var ts := Touches(rules, arrivals, r, key, n);
            var view := ViewAfter(rules, arrivals, n);
            var b := BucketKey(r, key);
            && (b in view <==> ts != [])
            && (ts != [] ==> view[b] == LevelAfter(LimitOf(rules[r]), ts[0], ts, |ts|))
  {
    if n > 0 {
      var l := LimitOf(rules[r]);
      BucketFollowsTouches(rules, arrivals, r, key, n - 1);
      var ts := Touches(rules, arrivals, r, key, n - 1);
      var now := arrivals[n - 1].time;
      RunEffect(rules, 0, ViewAfter(rules, arrivals, n - 1), arrivals[n - 1].req, now, r, key);
      if Touched(rules, arrivals, r, key, n - 1) {
        var ts' := ts + [now];
        LevelOfPrefix(l, ts'[0], ts, ts', |ts|);
        assert LevelFor(rules[r], ViewAfter(rules, arrivals, n - 1), BucketKey(r, key), now)
            == LevelAfter(l, ts'[0], ts', |ts|);
        assert Touches(rules, arrivals, r, key, n) == ts' && ts'[|ts|] == now;
      } else {
        assert Touches(rules, arrivals, r, key, n) == ts;
      }
    }
  }

  /** The touches of the arrivals i, ..., j-1 lie between the first and the last of their times. */
  lemma {:induction false} TouchesWithin(rules: seq<Rule>, arrivals: seq<Arrival>, r: nat, key: string, i: nat, j: nat)
    requires r < |rules| && i <= j <= |arrivals| && Chronological(arrivals)
    ensures Touches(rules, arrivals, r, key, i) <= Touches(rules, arrivals, r, key, j)
    ensures var ts := Touches(rules, arrivals, r, key, j);
            forall k | |Touches(rules, arrivals, r, key, i)| <= k < |ts| ::
              arrivals[i].time <= ts[k] <= arrivals[j - 1].time
    decreases j
  {
    if i < j {
      TouchesWithin(rules, arrivals, r, key, i, j - 1);
    }
  }

  lemma {:induction false} TouchesChronological(rules: seq<Rule>, arrivals: seq<Arrival>, r: nat, key: string, n: nat)
    requires r < |rules| && n <= |arrivals| && Chronological(arrivals)
    ensures NonDecreasing(Touches(rules, arrivals, r, key, n))
  {
    if n > 0 {
      TouchesChronological(rules, arrivals, r, key, n - 1);
      TouchesWithin(rules, arrivals, r, key, 0, n - 1);
    }
  }

  ghost function TouchCount(rules: seq<Rule>, arrivals: seq<Arrival>, r: nat, key: string, n: nat): nat
    requires r < |rules| && n <= |arrivals|
  {
    |Touches(rules, arrivals, r, key, n)|
  }

  lemma TouchCountStep(rules: seq<Rule>, arrivals: seq<Arrival>, r: nat, key: string, n: nat)
    requires r < |rules| && n < |arrivals|
    ensures TouchCount(rules, arrivals, r, key, n + 1)
            == TouchCount(rules, arrivals, r, key, n) + if Touched(rules, arrivals, r, key, n) then 1 else 0
  {
  }

  /** If a policy admits every touch whose request was forwarded, it admits as many. */
  lemma {:induction false} ForwardedWereAdmitted(rules: seq<Rule>, arrivals: seq<Arrival>, r: nat, key: string,
                                                 i: nat, j: nat, policy: seq<bool>)
    requires r < |rules| && i <= j <= |arrivals|
    requires TouchCount(rules, arrivals, r, key, j) <= |policy|
    requires forall n | i <= n < j && Touched(rules, arrivals, r, key, n) && Forwarded(rules, arrivals, n) ::
               TouchCount(rules, arrivals, r, key, n) < |policy| && policy[TouchCount(rules, arrivals, r, key, n)]
    ensures TouchCount(rules, arrivals, r, key, i) <= TouchCount(rules, arrivals, r, key, j)
    ensures ForwardedCount(rules, arrivals, r, key, i, j)
            <= Admitted(policy, TouchCount(rules, arrivals, r, key, i), TouchCount(rules, arrivals, r, key, j))
    decreases j
  {
    if i < j {
      TouchCountStep(rules, arrivals, r, key, j - 1);
      ForwardedWereAdmitted(rules, arrivals, r, key, i, j - 1, policy);
    }
  }

  lemma AdmittedWhenForwarded(rules: seq<Rule>, arrivals: seq<Arrival>, r: nat, key: string, n: nat, ts: seq<real>)
    requires r < |rules| && n < |arrivals| && Touched(rules, arrivals, r, key, n)
    requires Touches(rules, arrivals, r, key, n + 1) <= ts
    ensures var m := |Touches(rules, arrivals, r, key, n)|;
            m < |ts| && (Forwarded(rules, arrivals, n) ==> Greedy(LimitOf(rules[r]), ts[0], ts)[m])
  {
    var before := Touches(rules, arrivals, r, key, n);
    var now := arrivals[n].time;
    var l := LimitOf(rules[r]);
    assert Touches(rules, arrivals, r, key, n + 1) == before + [now];
    assert ts[|before|] == now && before <= ts;
    BucketFollowsTouches(rules, arrivals, r, key, n);
    RunEffect(rules, 0, ViewAfter(rules, arrivals, n), arrivals[n].req, now, r, key);
    LevelOfPrefix(l, ts[0], before, ts, |before|);
    assert before != [] ==> before[0] == ts[0];
    assert LevelFor(rules[r], ViewAfter(rules, arrivals, n), BucketKey(r, key), now) ==
      LevelAfter(l, ts[0], ts, |before|);
  }

  /** The forwarded requests are among the admissions of the bucket's own run. */
  lemma ForwardedWithinOwnRun(rules: seq<Rule>, arrivals: seq<Arrival>, r: nat, key: string, i: nat, j: nat)
    requires r < |rules| && i < j <= |arrivals| && Chronological(arrivals)
    requires TouchCount(rules, arrivals, r, key, i) < TouchCount(rules, arrivals, r, key, j)
    ensures var ts := Touches(rules, arrivals, r, key, j);
            ForwardedCount(rules, arrivals, r, key, i, j)
            <= Admitted(Greedy(LimitOf(rules[r]), ts[0], ts), TouchCount(rules, arrivals, r, key, i), |ts|)
  {
    var ts := Touches(rules, arrivals, r, key, j);
    var policy := Greedy(LimitOf(rules[r]), ts[0], ts);
    forall n | i <= n < j && Touched(rules, arrivals, r, key, n) && Forwarded(rules, arrivals, n)
      ensures TouchCount(rules, arrivals, r, key, n) < |policy| && policy[TouchCount(rules, arrivals, r, key, n)]
    {
      TouchesWithin(rules, arrivals, r, key, n + 1, j);
      AdmittedWhenForwarded(rules, arrivals, r, key, n, ts);
    }
    ForwardedWereAdmitted(rules, arrivals, r, key, i, j, policy);
  }

  /**
   The sliding-window bound, lifted through the rule list: for every rule and key,
   among any stretch of arrivals the forwarded ones number at most the burst plus
   the rate times the stretch's duration, although earlier rules may have spent
   tokens on requests that a later rule rejected.
   */
  lemma ForwardedWithinWindow(rules: seq<Rule>, arrivals: seq<Arrival>, r: nat, key: string, i: nat, j: nat)
    requires r < |rules| && i < j <= |arrivals| && Chronological(arrivals)
    ensures ForwardedCount(rules, arrivals, r, key, i, j) as real
            <= NonNegative(rules[r].burst as real) + Trickle(rules[r].rate, arrivals[i].time, arrivals[j - 1].time)
  {
    var l := LimitOf(rules[r]);
    var ts := Touches(rules, arrivals, r, key, j);
    var a := TouchCount(rules, arrivals, r, key, i);
    if a < |ts| {
      ForwardedWithinOwnRun(rules, arrivals, r, key, i, j);
      TouchesChronological(rules, arrivals, r, key, j);
      BucketIsWithinWindows(rules[r].burst as real, rules[r].rate, ts[0], ts);
      TouchesWithin(rules, arrivals, r, key, i, j);
      TrickleMonotone(rules[r].rate, arrivals[i].time, ts[a], ts[|ts| - 1], arrivals[j - 1].time);
    } else {
      UntouchedNotForwarded(rules, arrivals, r, key, i, j);
      TrickleMonotone(rules[r].rate, arrivals[i].time, arrivals[i].time, arrivals[j - 1].time, arrivals[j - 1].time);
    }
  }

  lemma TrickleMonotone(rate: real, t0: real, t1: real, t2: real, t3: real)
    requires t0 <= t1 <= t2 <= t3
    ensures 0.0 <= Trickle(rate, t1, t2) <= Trickle(rate, t0, t3)
  {
  }

  lemma {:induction false} UntouchedNotForwarded(
    rules: seq<Rule>, arrivals: seq<Arrival>, r: nat, key: string, i: nat, j: nat)
    requires r < |rules| && i <= j <= |arrivals|
    requires |Touches(rules, arrivals, r, key, i)| >= |Touches(rules, arrivals, r, key, j)|
    ensures ForwardedCount(rules, arrivals, r, key, i, j) == 0
    ensures |Touches(rules, arrivals, r, key, i)| == |Touches(rules, arrivals, r, key, j)|
    decreases j
  {
    if i < j {
      UntouchedNotForwarded(rules, arrivals, r, key, i, j - 1);
    }
  }

  // ---------------------------------------------------------------- clients

  /** Which requests a rule puts into one bucket, for every source of keys. */
  lemma SameBucketIff(rule: Rule, a: Request, b: Request)
    ensures rule.keySource == "ip" && a.remoteHost.Some? && b.remoteHost.Some? ==>
              (ExtractKey(rule, a) == ExtractKey(rule, b) <==> a.remoteHost == b.remoteHost)
    ensures rule.keySource == "path" ==> (ExtractKey(rule, a) == ExtractKey(rule, b) <==> a.path == b.path)
    ensures rule.keySource == "global" ==> ExtractKey(rule, a) == ExtractKey(rule, b)
    ensures rule.keySource == "ip" && a.remoteHost.None? && b.remoteHost.None? ==>
              ExtractKey(rule, a) == ExtractKey(rule, b)
  {
    assert "ip"[0] != HEADER_PREFIX[0] && "path"[0] != HEADER_PREFIX[0];
  }

  /** Requests with a value in the header that a rule names share a bucket exactly when the values agree. */
  lemma SameHeaderBucketIff(rule: Rule, name: string, a: Request, b: Request)
    requires rule.keySource == "header:" + name && a.header(name) != "" && b.header(name) != ""
    ensures ExtractKey(rule, a) == ExtractKey(rule, b) <==> a.header(name) == b.header(name)
  {
    assert rule.keySource[0] == 'h' && "ip"[0] != 'h' && "global"[0] != 'h';
    assert rule.keySource[|HEADER_PREFIX|..] == name;
  }

  /** A rule with a path filter applies to just the paths that the filter stands in. */
  lemma AppliesIff(rule: Rule, req: Request)
    ensures Applies(rule, req) <==>
            rule.matchPath == "" || exists a, b :: Splits(req.path, a, rule.matchPath, b)
  {
    ContainsIff(req.path, rule.matchPath);
  }

  /** The request comes from the host and its path passes the rule's filter. */
  ghost predicate FromHost(rule: Rule, host: string, req: Request) {
    && req.remoteHost == Some(host)
    && (rule.matchPath == "" || exists a, b :: Splits(req.path, a, rule.matchPath, b))
  }

  lemma FromHostConcerns(rule: Rule, host: string, req: Request)
    requires rule.keySource == "ip" && FromHost(rule, host, req)
    ensures Concerns(rule, host, req)
  {
    AppliesIff(rule, req);
  }

  /** How many of a host's requests among the arrivals i, ..., j-1 were forwarded. */
  ghost function HostCount(rules: seq<Rule>, arrivals: seq<Arrival>, r: nat, host: string, i: nat, j: nat): nat
    requires r < |rules| && i <= j <= |arrivals|
  {
    if i == j then 0
    else
      HostCount(rules, arrivals, r, host, i, j - 1)
      + if FromHost(rules[r], host, arrivals[j - 1].req) && Forwarded(rules, arrivals, j - 1) then 1 else 0
  }

  lemma {:induction false} HostCountWithin(
    rules: seq<Rule>, arrivals: seq<Arrival>, r: nat, host: string, i: nat, j: nat)
    requires r < |rules| && i <= j <= |arrivals| && rules[r].keySource == "ip"
    ensures HostCount(rules, arrivals, r, host, i, j) <= ForwardedCount(rules, arrivals, r, host, i, j)
  {
    if i < j {
      HostCountWithin(rules, arrivals, r, host, i, j - 1);
      if FromHost(rules[r], host, arrivals[j - 1].req) {
        FromHostConcerns(rules[r], host, arrivals[j - 1].req);
      }
    }
  }

  /** What a rate gives in a time. */
  function Given(rate: real, t: real, t': real): real {
    rate * (t' - t)
  }

  /** A rule per address limits each host by itself: at most its burst and what its rate gives in the time. */
  lemma HostWithinWindow(rules: seq<Rule>, arrivals: seq<Arrival>, r: nat, host: string, i: nat, j: nat)
    requires r < |rules| && i < j <= |arrivals| && Chronological(arrivals)
    requires rules[r].keySource == "ip" && rules[r].burst >= 0 && rules[r].rate >= 0.0
    ensures HostCount(rules, arrivals, r, host, i, j) as real
            <= rules[r].burst as real + Given(rules[r].rate, arrivals[i].time, arrivals[j - 1].time)
  {
    var burst, rate, t, t' := rules[r].burst as real, rules[r].rate, arrivals[i].time, arrivals[j - 1].time;
    HostCountWithin(rules, arrivals, r, host, i, j);
    ForwardedWithinWindow(rules, arrivals, r, host, i, j);
    TrickleIsProduct(rate, t, t');
    AtMostBound(
      HostCount(rules, arrivals, r, host, i, j), ForwardedCount(rules, arrivals, r, host, i, j),
      burst, Trickle(rate, t, t'), Given(rate, t, t'));
  }

  lemma AtMostBound(a: nat, b: nat, burst: real, trickle: real, product: real)
    requires a <= b && b as real <= NonNegative(burst) + trickle && burst >= 0.0 && trickle == product
    ensures a as real <= burst + product
  {
  }

  lemma TrickleIsProduct(rate: real, t: real, t': real)
    requires rate >= 0.0
    ensures Trickle(rate, t, t') == Given(rate, t, t')
  {
    assert NonNegative(rate) == rate;
  }

  /** A request from another host leaves a host's bucket as it is. */
  lemma OtherHostsDoNotCount(rules: seq<Rule>, view: View, req: Request, now: real, r: nat, host: string)
    requires r < |rules| && rules[r].keySource == "ip" && req.remoteHost.Some? && req.remoteHost.value != host
    ensures
      var after := Run(rules, 0, view, req, now).0;
      var b := BucketKey(r, host);
      (b in after <==> b in view) && (b in view ==> after[b] == view[b])
  {
    RunEffect(rules, 0, view, req, now, r, host);
  }
}
