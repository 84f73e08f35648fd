/** The per-client limiter of internal/proxy/ratelimit.go. */
module ProxyLimiter {
  import opened Collections
  import opened TokenBucket

  const NANOSECONDS_PER_SECOND: real := 1000000000.0

  /** Tokens per nanosecond: the capacity is one second's worth of requests. */
  function Rate(ratePerSec: int): real {
    ratePerSec as real / NANOSECONDS_PER_SECOND
  }

  function ClientLimit(ratePerSec: int): Limit {
    ByRate(ratePerSec as real, Rate(ratePerSec))
  }

  /** A client's bucket since the last update: its creation, the calls, and the answers given. */
  datatype History = History(start: real, times: seq<real>, answers: seq<bool>)

  /** The answers are exactly those of one bucket, and `level` is where it stands now. */
  ghost predicate IsBucketRun(l: Limit, h: History, level: Level) {
    h.answers == Greedy(l, h.start, h.times) && level == LevelAfter(l, h.start, h.times, |h.times|)
  }

  lemma BucketRunSnoc(l: Limit, h: History, level: Level, now: real)
    requires IsBucketRun(l, h, level)
    ensures IsBucketRun(l, History(h.start, h.times + [now], h.answers + [Admits(l, level, now)]), Next(l, level, now))
  {
    GreedySnoc(l, h.start, h.times, now);
    LevelSnoc(l, h.start, h.times, now);
  }

  lemma NewBucketRun(l: Limit, now: real)
    ensures IsBucketRun(l, History(now, [], []), Full(l, now))
  {
  }

  class Limiter {
    var ratePerSec: int
    var maxConcurrent: int
    var buckets: map<string, Bucket>
    var active: map<string, nat>
    ghost var history: map<string, History>

    constructor (ratePerSec: int, maxConcurrent: int)
      ensures Valid() && history == map[] && active == map[]
      ensures this.ratePerSec == ratePerSec && this.maxConcurrent == maxConcurrent
    {
      this.ratePerSec := ratePerSec;
      this.maxConcurrent := maxConcurrent;
      buckets := map[];
      active := map[];
      history := map[];
    }

    ghost predicate Valid()
      reads this, buckets.Values
    {
      && (forall a, b | a in buckets && b in buckets && a != b :: buckets[a] != buckets[b])
      && buckets.Keys == history.Keys
      && (forall c | c in buckets ::
            && buckets[c].capacity == ratePerSec as real && buckets[c].rate == Rate(ratePerSec)
            && IsBucketRun(ClientLimit(ratePerSec), history[c], buckets[c].State()))
      && (forall c | c in active :: 1 <= active[c] <= maxConcurrent)
    }

    /** Connections currently counted for a client. */
    function Held(client: string): nat
      reads this
    {
      if client in active then active[client] else 0
    }

    /** The section under the limiter's lock: find the client's bucket or create it. */
    method BucketFor(client: string, now: real) returns (bucket: Bucket)
      requires Valid() && ratePerSec > 0
      modifies this`buckets, this`history
      ensures Valid() && client in buckets && bucket == buckets[client]
      ensures bucket in old(buckets).Values || fresh(bucket)
      ensures history == if client in old(history) then old(history) else old(history)[client := History(now, [], [])]
      ensures buckets == if client in old(buckets) then old(buckets) else old(buckets)[client := bucket]
    {
      if client in buckets {
        bucket := buckets[client];
      } else {
        bucket := new Bucket(ratePerSec as real, Rate(ratePerSec), now);
        NewBucketRun(ClientLimit(ratePerSec), now);
        assert forall c | c in buckets :: buckets[c] != bucket;
        buckets := buckets[client := bucket];
        history := history[client := History(now, [], [])];
      }
    }

    /** `bucket.allow()` on a known client's bucket. */
    method Ask(client: string, now: real) returns (ok: bool)
      requires Valid() && client in buckets
      modifies this`history, buckets[client]
      ensures Valid()
      ensures var h := old(history)[client];
              history == old(history)[client := History(h.start, h.times + [now], h.answers + [ok])]
    {
      var bucket := buckets[client];
      ghost var h := history[client];
      BucketRunSnoc(ClientLimit(ratePerSec), h, bucket.State(), now);
      ok := bucket.Allow(now);
      history := history[client := History(h.start, h.times + [now], h.answers + [ok])];
    }

    /** Between updates every answer is that of the client's own bucket. */
    method Allow(client: string, now: real) returns (ok: bool)
      requires Valid()
      modifies this`buckets, this`history, buckets.Values
      ensures Valid()
      ensures ratePerSec <= 0 ==> ok && history == old(history)
      ensures ratePerSec > 0 ==>
                var h := if client in old(history) then old(history)[client] else History(now, [], []);
                history == old(history)[client := History(h.start, h.times + [now], h.answers + [ok])]
    {
      if ratePerSec <= 0 {
        return true;
      }
      var _ := BucketFor(client, now);
      ghost var h := history[client];
      ok := Ask(client, now);
      LastUpdateWins(old(history), client, h, History(h.start, h.times + [now], h.answers + [ok]));
    }

    method Acquire(client: string) returns (ok: bool)
      requires Valid()
      modifies this`active
      ensures Valid()
      ensures maxConcurrent <= 0 ==> ok && active == old(active)
      ensures maxConcurrent > 0 ==>
                && (ok <==> old(Held(client)) < maxConcurrent)
                && Held(client) == old(Held(client)) + (if ok then 1 else 0)
                && forall c | c != client :: Held(c) == old(Held(c))
    {
      if maxConcurrent <= 0 {
        return true;
      }
      if client in active && active[client] >= maxConcurrent {
        return false;
      }
      active := active[client := (if client in active then active[client] else 0) + 1];
      return true;
    }

    method Release(client: string)
      requires Valid()
      modifies this`active
      ensures Valid()
      ensures maxConcurrent <= 0 ==> active == old(active)
      ensures maxConcurrent > 0 ==>
                && Held(client) == (if old(Held(client)) > 0 then old(Held(client)) - 1 else 0)
                && forall c | c != client :: Held(c) == old(Held(c))
    {
      if maxConcurrent <= 0 {
        return;
      }
      if client !in active || active[client] <= 1 {
        active := active - {client};
      } else {
        active := active[client := active[client] - 1];
      }
    }

    method Update(ratePerSec: int, maxConcurrent: int)
      modifies this
      ensures Valid() && history == map[] && active == map[]
      ensures this.ratePerSec == ratePerSec && this.maxConcurrent == maxConcurrent
    {
      this.ratePerSec := ratePerSec;
      this.maxConcurrent := maxConcurrent;
      buckets := map[];
      active := map[];
      history := map[];
    }
  }

  /** The rate is the one that gives `ratePerSec` tokens in a second. */
  lemma RateIsPerSecond(ratePerSec: int, rate: real)
    requires rate * 1_000_000_000.0 == ratePerSec as real
    ensures Rate(ratePerSec) == rate && (ratePerSec > 0 ==> rate > 0.0)
  {
  }

  lemma RunIsOptimal(capacity: real, rate: real, h: History, level: Level, rival: seq<bool>, n: nat)
    requires capacity >= 0.0 && rate >= 0.0 && IsBucketRun(ByRate(capacity, rate), h, level)
    requires NonDecreasing(h.times) && (h.times != [] ==> h.start <= h.times[0])
    requires |rival| == |h.times| >= n && WithinWindows(capacity, rate, h.times, rival)
    ensures WithinWindows(capacity, rate, h.times, h.answers)
    ensures Admitted(rival, 0, n) <= Admitted(h.answers, 0, n)
  {
    BucketIsWithinWindows(capacity, rate, h.start, h.times);
    BucketIsOptimal(capacity, rate, h.start, h.times, rival, n);
  }

  /**
   Between updates a client's admissions respect every window: at most `ratePerSec` and what
   the rate, `ratePerSec` for each second of a billion nanoseconds, gives in the window. No
   policy that does so has admitted more at any point.
   */
  lemma ClientRunIsOptimal(ratePerSec: int, rate: real, h: History, level: Level, rival: seq<bool>, n: nat)
    requires ratePerSec > 0 && rate * 1_000_000_000.0 == ratePerSec as real
    requires IsBucketRun(ClientLimit(ratePerSec), h, level)
    requires NonDecreasing(h.times) && (h.times != [] ==> h.start <= h.times[0])
    requires |rival| == |h.times| >= n && WithinWindows(ratePerSec as real, rate, h.times, rival)
    ensures WithinWindows(ratePerSec as real, rate, h.times, h.answers)
    ensures Admitted(rival, 0, n) <= Admitted(h.answers, 0, n)
  {
    RateIsPerSecond(ratePerSec, rate);
    RunIsOptimal(ratePerSec as real, rate, h, level, rival, n);
  }
}
