/**
 The token bucket shared by internal/proxy/ratelimit.go and
 internal/pluginrt/builtins/rate_limiter.go, over real numbers and explicit times.
 */
module TokenBucket {

  /**
   The limits fixed at creation: the capacity, and the credit that has accrued by a
   given time, of which a refill adds the difference.
   */
  datatype Limit = Limit(capacity: real, credit: real -> real)

  /** A constant refill rate per unit of time. */
  function ByRate(capacity: real, rate: real): Limit {
    Limit(capacity, t => t * rate)
  }

  datatype Level = Level(tokens: real, lastTime: real)

  function Min(x: real, y: real): real { if x <= y then x else y }

  function NonNegative(x: real): real { if x < 0.0 then 0.0 else x }

  /** The tokens after refilling up to `now`. */
  function Refilled(l: Limit, s: Level, now: real): real {
    Min(l.capacity, s.tokens + (l.credit(now) - l.credit(s.lastTime)))
  }

  predicate Admits(l: Limit, s: Level, now: real) {
    Refilled(l, s, now) >= 1.0
  }

  function Next(l: Limit, s: Level, now: real): Level {
    var t := Refilled(l, s, now);
    Level(if t < 1.0 then t else t - 1.0, now)
  }

  /** A full bucket, as created at time `start`. */
  function Full(l: Limit, start: real): Level {
    Level(l.capacity, start)
  }

  /** The object the code keeps per client or per rule key. */
  class Bucket {
    const capacity: real
    const rate: real
    var tokens: real
    var lastTime: real

    constructor (capacity: real, rate: real, now: real)
      ensures this.capacity == capacity && this.rate == rate && State() == Full(ByRate(capacity, rate), now)
    {
      this.capacity := capacity;
      this.rate := rate;
      tokens := capacity;
      lastTime := now;
    }

    function State(): Level
      reads this
    {
      Level(tokens, lastTime)
    }

    method Allow(now: real) returns (ok: bool)
      modifies this
      ensures ok == Admits(ByRate(capacity, rate), old(State()), now)
      ensures State() == Next(ByRate(capacity, rate), old(State()), now)
    {
      var elapsed := now - lastTime;
      ElapsedIsCredit(now, lastTime, rate);
      lastTime := now;
      tokens := tokens + elapsed * rate;
      if tokens > capacity {
        tokens := capacity;
      }
      if tokens < 1.0 {
        return false;
      }
      tokens := tokens - 1.0;
      return true;
    }
  }

  lemma ElapsedIsCredit(now: real, last: real, rate: real)
    ensures (now - last) * rate == now * rate - last * rate
  {
  }

  // ---------------------------------------------------------------- runs

  ghost predicate NonDecreasing(times: seq<real>) {
    forall i, j | 0 <= i <= j < |times| :: times[i] <= times[j]
  }

  /** The bucket after the first `n` arrivals. */
  ghost function LevelAfter(l: Limit, start: real, times: seq<real>, n: nat): Level
    requires n <= |times|
  {
    if n == 0 then Full(l, start) else Next(l, LevelAfter(l, start, times, n - 1), times[n - 1])
  }

  /** The bucket's decisions: a policy is one boolean per arrival. */
  ghost function Greedy(l: Limit, start: real, times: seq<real>): (policy: seq<bool>)
    ensures |policy| == |times|
    ensures forall i | 0 <= i < |times| :: policy[i] == Admits(l, LevelAfter(l, start, times, i), times[i])
  {
    seq(|times|, i requires 0 <= i < |times| => Admits(l, LevelAfter(l, start, times, i), times[i]))
  }

  /** A bucket's level depends only on the times at which it was asked. */
  lemma {:induction false} LevelOfPrefix(l: Limit, start: real, times: seq<real>, longer: seq<real>, n: nat)
    requires n <= |times| && times <= longer
    ensures LevelAfter(l, start, times, n) == LevelAfter(l, start, longer, n)
  {
    if n > 0 { LevelOfPrefix(l, start, times, longer, n - 1); }
  }

  lemma GreedyOfPrefix(l: Limit, start: real, times: seq<real>, longer: seq<real>, n: nat)
    requires n < |times| && times <= longer
    ensures Greedy(l, start, times)[n] == Greedy(l, start, longer)[n]
  {
    LevelOfPrefix(l, start, times, longer, n);
  }

  lemma LevelSnoc(l: Limit, start: real, times: seq<real>, now: real)
    ensures LevelAfter(l, start, times + [now], |times| + 1) == Next(l, LevelAfter(l, start, times, |times|), now)
  {
    LevelOfPrefix(l, start, times, times + [now], |times|);
    assert (times + [now])[|times|] == now;
  }

  lemma SnocIs<T>(s: seq<T>, s': seq<T>, x: T)
    requires |s'| == |s| + 1 && s'[|s|] == x && forall n | 0 <= n < |s| :: s'[n] == s[n]
    ensures s' == s + [x]
  {
  }

  /** One more arrival: the earlier decisions stand. */
  lemma GreedySnoc(l: Limit, start: real, times: seq<real>, now: real)
    ensures Greedy(l, start, times + [now])
            == Greedy(l, start, times) + [Admits(l, LevelAfter(l, start, times, |times|), now)]
  {
    var more := times + [now];
    forall n | 0 <= n < |times| ensures Greedy(l, start, more)[n] == Greedy(l, start, times)[n] {
      GreedyOfPrefix(l, start, times, more, n);
    }
    LevelOfPrefix(l, start, times, more, |times|);
    SnocIs(Greedy(l, start, times), Greedy(l, start, more), Admits(l, LevelAfter(l, start, times, |times|), now));
  }

  /** How many of the arrivals i, ..., j-1 a policy admits. */
  ghost function Admitted(policy: seq<bool>, i: nat, j: nat): nat
    requires i <= j <= |policy|
  {
    if i == j then 0 else Admitted(policy, i, j - 1) + if policy[j - 1] then 1 else 0
  }

  /** At most what trickles in between two times at the given rate. */
  ghost function Trickle(rate: real, t: real, t': real): real {
    NonNegative(rate) * (t' - t)
  }

  /** Every window between two arrivals stays within capacity plus rate times elapsed time. */
  ghost predicate WithinWindows(capacity: real, rate: real, times: seq<real>, policy: seq<bool>)
    requires |policy| == |times|
  {
    forall i, j | 0 <= i < j <= |times| ::
      Admitted(policy, i, j) as real <= NonNegative(capacity) + Trickle(rate, times[i], times[j - 1])
  }

  // ---------------------------------------------------------------- credits
  //
  // The arguments below see only credits, not times, and are linear. `credit[0]`
  // belongs to the bucket's creation and `credit[n + 1]` to arrival n.

  ghost function Moment(start: real, times: seq<real>, n: nat): real
    requires n <= |times|
  {
    if n == 0 then start else times[n - 1]
  }

  ghost function Credits(l: Limit, start: real, times: seq<real>): (credit: seq<real>)
    ensures |credit| == |times| + 1
    ensures forall n | 0 <= n <= |times| :: credit[n] == l.credit(Moment(start, times, n))
  {
    seq(|times| + 1, n requires 0 <= n <= |times| => l.credit(Moment(start, times, n)))
  }

  ghost function Offered(capacity: real, credit: seq<real>, n: nat): real
    requires n + 1 < |credit|
  {
    Min(capacity, Tokens(capacity, credit, n) + credit[n + 1] - credit[n])
  }

  ghost function Tokens(capacity: real, credit: seq<real>, n: nat): real
    requires n < |credit|
  {
    if n == 0 then capacity
    else
      var t := Min(capacity, Tokens(capacity, credit, n - 1) + credit[n] - credit[n - 1]);
      if t < 1.0 then t else t - 1.0
  }

  lemma {:induction false} LastTime(l: Limit, start: real, times: seq<real>, n: nat)
    requires n <= |times|
    ensures LevelAfter(l, start, times, n).lastTime == Moment(start, times, n)
  {
  }

  lemma {:induction false} LevelIsTokens(l: Limit, start: real, times: seq<real>, n: nat)
    requires n <= |times|
    ensures LevelAfter(l, start, times, n).tokens == Tokens(l.capacity, Credits(l, start, times), n)
  {
    if n > 0 {
      LevelIsTokens(l, start, times, n - 1);
      LastTime(l, start, times, n - 1);
    }
  }

  /** The policy admits exactly when the scaled bucket offers a token. */
  ghost predicate Follows(capacity: real, credit: seq<real>, policy: seq<bool>) {
    && |credit| == |policy| + 1
    && forall n | 0 <= n < |policy| :: policy[n] == (Offered(capacity, credit, n) >= 1.0)
  }

  lemma GreedyFollows(l: Limit, start: real, times: seq<real>)
    ensures Follows(l.capacity, Credits(l, start, times), Greedy(l, start, times))
  {
    var c := Credits(l, start, times);
    forall n | 0 <= n < |times| ensures Greedy(l, start, times)[n] == (Offered(l.capacity, c, n) >= 1.0) {
      LevelIsTokens(l, start, times, n);
      LastTime(l, start, times, n);
      assert c[n + 1] == l.credit(Moment(start, times, n + 1));
    }
  }

  /** Refills never exceed the growth of `bound`, which never shrinks. */
  ghost predicate BoundedBy(credit: seq<real>, bound: seq<real>) {
    && |credit| == |bound|
    && forall n | 1 <= n < |credit| - 1 ::
         bound[n] <= bound[n + 1] && credit[n + 1] - credit[n] <= bound[n + 1] - bound[n]
  }

  /** Tokens spent since arrival i were there at i or have trickled in since. */
  lemma {:induction false} SpentFromRefill(
    capacity: real, credit: seq<real>, bound: seq<real>, policy: seq<bool>, i: nat, j: nat)
    requires Follows(capacity, credit, policy) && BoundedBy(credit, bound) && i < j <= |policy|
    ensures Admitted(policy, i, j) as real + Tokens(capacity, credit, j) <= capacity + bound[j] - bound[i + 1]
  {
    assert Admitted(policy, i, j) == Admitted(policy, i, j - 1) + if policy[j - 1] then 1 else 0;
    if i + 1 < j {
      SpentFromRefill(capacity, credit, bound, policy, i, j - 1);
    }
  }

  lemma {:induction false} WindowBound(
    capacity: real, credit: seq<real>, bound: seq<real>, policy: seq<bool>, i: nat, j: nat)
    requires Follows(capacity, credit, policy) && BoundedBy(credit, bound) && i < j <= |policy|
    ensures bound[i + 1] <= bound[j]
    ensures Admitted(policy, i, j) as real <= NonNegative(capacity) + bound[j] - bound[i + 1]
  {
    assert Admitted(policy, i, j) == Admitted(policy, i, j - 1) + if policy[j - 1] then 1 else 0;
    if i + 1 < j {
      WindowBound(capacity, credit, bound, policy, i, j - 1);
    }
    if policy[j - 1] {
      SpentFromRefill(capacity, credit, bound, policy, i, j);
    }
  }

  lemma CreditGain(rate: real, a: real, b: real)
    requires a <= b
    ensures a * NonNegative(rate) <= b * NonNegative(rate)
    ensures b * rate - a * rate <= b * NonNegative(rate) - a * NonNegative(rate)
    ensures rate >= 0.0 ==> a * rate <= b * rate
  {
    ElapsedIsCredit(b, a, rate);
    ElapsedIsCredit(b, a, NonNegative(rate));
    RateBound(rate, b - a);
  }

  lemma RateBound(rate: real, elapsed: real)
    requires elapsed >= 0.0
    ensures elapsed * rate <= elapsed * NonNegative(rate) && 0.0 <= elapsed * NonNegative(rate)
  {
  }

  lemma CreditsBounded(capacity: real, rate: real, start: real, times: seq<real>)
    requires NonDecreasing(times)
    ensures BoundedBy(Credits(ByRate(capacity, rate), start, times),
                      Credits(ByRate(capacity, NonNegative(rate)), start, times))
  {
    var c := Credits(ByRate(capacity, rate), start, times);
    var b := Credits(ByRate(capacity, NonNegative(rate)), start, times);
    forall n | 1 <= n < |times| ensures b[n] <= b[n + 1] && c[n + 1] - c[n] <= b[n + 1] - b[n] {
      CreditGain(rate, Moment(start, times, n), Moment(start, times, n + 1));
    }
  }

  lemma TrickleIsCredit(capacity: real, rate: real, start: real, times: seq<real>, i: nat, j: nat)
    requires i < j <= |times|
    ensures var b := Credits(ByRate(capacity, NonNegative(rate)), start, times);
            Trickle(rate, times[i], times[j - 1]) == b[j] - b[i + 1]
  {
    var b := Credits(ByRate(capacity, NonNegative(rate)), start, times);
    assert b[j] == Moment(start, times, j) * NonNegative(rate);
    assert b[i + 1] == Moment(start, times, i + 1) * NonNegative(rate);
    ElapsedIsCredit(times[j - 1], times[i], NonNegative(rate));
  }

  /** The sliding-window bound: the bucket's own decisions stay within every window. */
  lemma BucketIsWithinWindows(capacity: real, rate: real, start: real, times: seq<real>)
    requires NonDecreasing(times)
    ensures WithinWindows(capacity, rate, times, Greedy(ByRate(capacity, rate), start, times))
  {
    var l := ByRate(capacity, rate);
    var g := Greedy(l, start, times);
    GreedyFollows(l, start, times);
    CreditsBounded(capacity, rate, start, times);
    forall i, j | 0 <= i < j <= |times|
      ensures Admitted(g, i, j) as real <= NonNegative(capacity) + Trickle(rate, times[i], times[j - 1])
    {
      var bound := Credits(ByRate(capacity, NonNegative(rate)), start, times);
      WindowBound(capacity, Credits(l, start, times), bound, g, i, j);
      TrickleIsCredit(capacity, rate, start, times, i, j);
    }
  }

  // ---------------------------------------------------------------- optimality

  ghost predicate Growing(credit: seq<real>) {
    forall n | 0 <= n < |credit| - 1 :: credit[n] <= credit[n + 1]
  }

  /** `WithinWindows` in scaled time. */
  ghost predicate WithinCredit(capacity: real, credit: seq<real>, policy: seq<bool>) {
    && |credit| == |policy| + 1
    && forall i, j | 0 <= i < j <= |policy| :: Admitted(policy, i, j) as real <= capacity + credit[j] - credit[i + 1]
  }

  /** The level a rival policy would leave in the same bucket, negative if it overspends. */
  ghost function RivalTokens(capacity: real, credit: seq<real>, policy: seq<bool>, n: nat): real
    requires n < |credit| == |policy| + 1
  {
    if n == 0 then capacity
    else
      Min(capacity, RivalTokens(capacity, credit, policy, n - 1) + credit[n] - credit[n - 1])
      - if policy[n - 1] then 1.0 else 0.0
  }

  /** The rival's level is the slack of one of the windows that end now. */
  lemma {:induction false} RivalSlack(capacity: real, credit: seq<real>, policy: seq<bool>, n: nat) returns (i: nat)
    requires 0 < n < |credit| == |policy| + 1 && Growing(credit)
    ensures i < n
    ensures RivalTokens(capacity, credit, policy, n) ==
            capacity + credit[n] - credit[i + 1] - Admitted(policy, i, n) as real
  {
    if n == 1 || RivalTokens(capacity, credit, policy, n - 1) + credit[n] - credit[n - 1] >= capacity {
      i := n - 1;
      assert Admitted(policy, n - 1, n) == Admitted(policy, n - 1, n - 1) + if policy[n - 1] then 1 else 0;
    } else {
      i := RivalSlack(capacity, credit, policy, n - 1);
      assert Admitted(policy, i, n) == Admitted(policy, i, n - 1) + if policy[n - 1] then 1 else 0;
    }
  }

  /**
   The potential argument: the rival's surplus of tokens never exceeds the bucket's
   lead in admissions, and that lead is never negative.
   */
  lemma {:induction false} SurplusWithinLead(
    capacity: real, credit: seq<real>, greedy: seq<bool>, rival: seq<bool>, n: nat)
    requires Growing(credit) && Follows(capacity, credit, greedy) && WithinCredit(capacity, credit, rival)
    requires n <= |greedy|
    ensures Admitted(rival, 0, n) <= Admitted(greedy, 0, n)
    ensures RivalTokens(capacity, credit, rival, n) - Tokens(capacity, credit, n)
            <= Admitted(greedy, 0, n) as real - Admitted(rival, 0, n) as real
  {
    if n > 0 {
      SurplusWithinLead(capacity, credit, greedy, rival, n - 1);
      var i := RivalSlack(capacity, credit, rival, n);
      assert RivalTokens(capacity, credit, rival, n) >= 0.0;
      var lead := Admitted(greedy, 0, n - 1) - Admitted(rival, 0, n - 1);
      if rival[n - 1] && !greedy[n - 1] {
        assert lead as real > 0.0;
      }
    }
  }

  lemma CreditAt(capacity: real, rate: real, start: real, times: seq<real>, n: nat)
    requires n <= |times|
    ensures Credits(ByRate(capacity, rate), start, times)[n] == Moment(start, times, n) * rate
  {
  }

  lemma CreditStep(capacity: real, rate: real, start: real, times: seq<real>, n: nat)
    requires rate >= 0.0 && n < |times| && Moment(start, times, n) <= Moment(start, times, n + 1)
    ensures
      var c := Credits(ByRate(capacity, rate), start, times);
      c[n] <= c[n + 1]
  {
    CreditGain(rate, Moment(start, times, n), Moment(start, times, n + 1));
    CreditAt(capacity, rate, start, times, n);
    CreditAt(capacity, rate, start, times, n + 1);
  }

  lemma CreditGrows(capacity: real, rate: real, start: real, times: seq<real>)
    requires rate >= 0.0 && NonDecreasing(times) && (times != [] ==> start <= times[0])
    ensures Growing(Credits(ByRate(capacity, rate), start, times))
  {
    var c := Credits(ByRate(capacity, rate), start, times);
    forall n | 0 <= n < |times| ensures c[n] <= c[n + 1] {
      CreditStep(capacity, rate, start, times, n);
    }
  }

  lemma WindowsAreCredit(capacity: real, rate: real, start: real, times: seq<real>, policy: seq<bool>)
    requires capacity >= 0.0 && rate >= 0.0
    requires |policy| == |times| && WithinWindows(capacity, rate, times, policy)
    ensures WithinCredit(capacity, Credits(ByRate(capacity, rate), start, times), policy)
  {
    var c := Credits(ByRate(capacity, rate), start, times);
    forall i, j | 0 <= i < j <= |policy|
      ensures Admitted(policy, i, j) as real <= capacity + c[j] - c[i + 1]
    {
      TrickleIsCredit(capacity, rate, start, times, i, j);
    }
  }

  /**
   Greedy optimality: at every prefix of every arrival sequence, the bucket has
   admitted at least as many requests as any policy that respects all windows.
   */
  lemma BucketIsOptimal(capacity: real, rate: real, start: real, times: seq<real>, policy: seq<bool>, n: nat)
    requires capacity >= 0.0 && rate >= 0.0
    requires n <= |times| == |policy| && NonDecreasing(times) && (times != [] ==> start <= times[0])
    requires WithinWindows(capacity, rate, times, policy)
    ensures Admitted(policy, 0, n) <= Admitted(Greedy(ByRate(capacity, rate), start, times), 0, n)
  {
    var l := ByRate(capacity, rate);
    GreedyFollows(l, start, times);
    CreditGrows(capacity, rate, start, times);
    WindowsAreCredit(capacity, rate, start, times, policy);
    SurplusWithinLead(capacity, Credits(l, start, times), Greedy(l, start, times), policy, n);
  }
}
