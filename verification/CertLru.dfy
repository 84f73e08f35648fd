/**
 The certificate cache of internal/proxy/cert_lru.go and `CertForHost` of
 internal/proxy/cert.go, with issued certificates as abstract values.
 */
module CertLru {
  import opened Collections
  import opened RecencyList
  import opened Wrappers

  class CertLru<Cert> {
    const capacity: int
    const cache: Recency<Cert>

    constructor (capacity: int)
      ensures this.capacity == capacity && cache.Valid() && cache.View() == []
      ensures fresh(cache) && fresh(cache.Footprint())
    {
      this.capacity := capacity;
      this.cache := new Recency();
    }

    method Get(host: string) returns (cert: Option<Cert>)
      requires cache.Valid()
      modifies cache
      ensures cache.Valid() && cache.Footprint() == old(cache.Footprint())
      ensures cert == Lookup(old(cache.View()), host)
      ensures cache.View() ==
              if cert.None? then old(cache.View()) else Promoted(old(cache.View()), host, cert.value)
    {
      var found := cache.Find(host);
      match found
      case None => return None;
      case Some(e) =>
        cache.MoveToFront(e);
        return Some(e.value);
    }

    method Put(host: string, cert: Cert)
      requires cache.Valid()
      modifies cache.Footprint()
      ensures cache.Valid() && fresh(cache.Footprint() - old(cache.Footprint()))
      ensures cache.View() == RecencyList.Put(old(cache.View()), capacity, host, cert)
    {
      cache.Store(capacity, host, cert);
    }

    /** `issued` is what issuing a new certificate would give: `None` when it fails. */
    method CertForHost(host: string, issued: Option<Cert>) returns (cert: Option<Cert>)
      requires cache.Valid()
      modifies cache.Footprint()
      ensures cache.Valid() && fresh(cache.Footprint() - old(cache.Footprint()))
      ensures cert == Answer(old(cache.View()), Call(host, issued))
      ensures cache.View() == After(old(cache.View()), capacity, Call(host, issued))
    {
      cert := Get(host);
      if cert.Some? {
        return;
      }
      if issued.None? {
        return None;
      }
      Put(host, issued.value);
      return issued;
    }
  }

  datatype Call<Cert> = Call(host: string, issued: Option<Cert>)

  function Answer<Cert>(s: seq<Binding<Cert>>, call: Call<Cert>): Option<Cert> {
    if Lookup(s, call.host).Some? then Lookup(s, call.host) else call.issued
  }

  function After<Cert>(s: seq<Binding<Cert>>, capacity: int, call: Call<Cert>): seq<Binding<Cert>> {
    match Lookup(s, call.host)
    case Some(c) => Promoted(s, call.host, c)
    case None => if call.issued.None? then s else RecencyList.Put(s, capacity, call.host, call.issued.value)
  }

  /** The cache after a sequence of calls on a new cache. */
  function Cached<Cert>(capacity: int, calls: seq<Call<Cert>>): seq<Binding<Cert>> {
    if calls == [] then []
    else After(Cached(capacity, calls[..|calls| - 1]), capacity, calls[|calls| - 1])
  }

  predicate Succeeds<Cert>(capacity: int, before: seq<Call<Cert>>, call: Call<Cert>) {
    Answer(Cached(capacity, before), call).Some?
  }

  /** The hosts of the calls that returned a certificate, oldest first. */
  function Served<Cert>(capacity: int, calls: seq<Call<Cert>>): seq<string> {
    if calls == [] then []
    else
      var before, last := calls[..|calls| - 1], calls[|calls| - 1];
      Served(capacity, before) + if Succeeds(capacity, before, last) then [last.host] else []
  }

  /** What the latest successful call for a host returned. */
  function Returned<Cert>(capacity: int, calls: seq<Call<Cert>>, host: string): Option<Cert> {
    if calls == [] then None
    else
      var before, last := calls[..|calls| - 1], calls[|calls| - 1];
      if last.host == host && Succeeds(capacity, before, last) then Answer(Cached(capacity, before), last)
      else Returned(capacity, before, host)
  }

  // The reference: distinct hosts, the latest first.

  function Drop(s: seq<string>, x: string): seq<string> {
    if s == [] then [] else if s[0] == x then s[1..] else [s[0]] + Drop(s[1..], x)
  }

  function Latest(hosts: seq<string>): seq<string> {
    if hosts == [] then [] else [hosts[|hosts| - 1]] + Drop(Latest(hosts[..|hosts| - 1]), hosts[|hosts| - 1])
  }

  function Take<T>(s: seq<T>, n: nat): seq<T> {
    if |s| <= n then s else s[..n]
  }

  /** A cache configured for less than one entry still keeps one. */
  function Room(capacity: int): nat {
    if capacity < 1 then 1 else capacity
  }

  lemma DistinctCons(x: string, s: seq<string>)
    requires Distinct(s) && x !in s
    ensures Distinct([x] + s)
  {
  }

  lemma {:induction false} DropMembers(s: seq<string>, x: string)
    requires Distinct(s)
    ensures Distinct(Drop(s, x))
    ensures forall y :: y in Drop(s, x) <==> y in s && y != x
  {
    if s != [] {
      assert forall y | y in s[1..] :: y != s[0];
      DropMembers(s[1..], x);
      if s[0] != x {
        DistinctCons(s[0], Drop(s[1..], x));
      }
    }
  }

  lemma {:induction false} DropAbsent(s: seq<string>, x: string)
    requires x !in s
    ensures Drop(s, x) == s
  {
    if s != [] {
      DropAbsent(s[1..], x);
    }
  }

  lemma {:induction false} LatestMembers(hosts: seq<string>)
    ensures Distinct(Latest(hosts))
    ensures forall h :: h in Latest(hosts) <==> h in hosts
  {
    if hosts != [] {
      var before, last := hosts[..|hosts| - 1], hosts[|hosts| - 1];
      LatestMembers(before);
      DropMembers(Latest(before), last);
      DistinctCons(last, Drop(Latest(before), last));
      assert hosts == before + [last];
    }
  }

  /** The position of the last occurrence. */
  function LastUse(hosts: seq<string>, h: string): (i: nat)
    requires h in hosts
    ensures i < |hosts| && hosts[i] == h
    ensures forall j | i < j < |hosts| :: hosts[j] != h
  {
    if hosts[|hosts| - 1] == h then |hosts| - 1 else LastUse(hosts[..|hosts| - 1], h)
  }

  ghost predicate NewestFirst(hosts: seq<string>, s: seq<string>) {
    && (forall h | h in s :: h in hosts)
    && (forall i, j | 0 <= i < j < |s| :: LastUse(hosts, s[i]) > LastUse(hosts, s[j]))
  }

  lemma NewestFirstTail(hosts: seq<string>, s: seq<string>)
    requires s != [] && NewestFirst(hosts, s)
    ensures NewestFirst(hosts, s[1..])
    ensures forall h | h in s[1..] :: LastUse(hosts, h) < LastUse(hosts, s[0])
  {
  }

  lemma NewestFirstCons(hosts: seq<string>, x: string, s: seq<string>)
    requires NewestFirst(hosts, s) && x in hosts
    requires forall h | h in s :: LastUse(hosts, h) < LastUse(hosts, x)
    ensures NewestFirst(hosts, [x] + s)
  {
  }

  lemma {:induction false} DropNewestFirst(hosts: seq<string>, s: seq<string>, x: string)
    requires NewestFirst(hosts, s)
    ensures NewestFirst(hosts, Drop(s, x))
    ensures forall h | h in Drop(s, x) :: h in s
  {
    if s != [] {
      NewestFirstTail(hosts, s);
      DropNewestFirst(hosts, s[1..], x);
      if s[0] != x {
        NewestFirstCons(hosts, s[0], Drop(s[1..], x));
      }
    }
  }

  /** One more use changes no other host's last use. */
  lemma OtherLastUse(before: seq<string>, last: string, h: string)
    requires h in before && h != last
    ensures h in before + [last] && LastUse(before + [last], h) == LastUse(before, h)
  {
    assert (before + [last])[..|before|] == before;
  }

  lemma NewestFirstLonger(before: seq<string>, last: string, s: seq<string>)
    requires NewestFirst(before, s) && last !in s
    ensures NewestFirst(before + [last], s)
    ensures forall h | h in s :: h in before && LastUse(before + [last], h) < |before|
  {
    forall h | h in s ensures h in before + [last] && LastUse(before + [last], h) == LastUse(before, h) {
      OtherLastUse(before, last, h);
    }
  }

  /** The reference lists exactly the hosts used, each once, by decreasing time of last use. */
  lemma {:induction false} LatestIsNewestFirst(hosts: seq<string>)
    ensures NewestFirst(hosts, Latest(hosts))
  {
    if hosts != [] {
      var before, last := hosts[..|hosts| - 1], hosts[|hosts| - 1];
      var rest := Drop(Latest(before), last);
      LatestIsNewestFirst(before);
      LatestMembers(before);
      DropMembers(Latest(before), last);
      DropNewestFirst(before, Latest(before), last);
      NewestFirstLonger(before, last, rest);
      assert before + [last] == hosts;
      NewestFirstCons(hosts, last, rest);
    }
  }

  // The cache against the reference.

  lemma {:induction false} KeysWithout<V>(s: seq<Binding<V>>, key: string)
    ensures Keys(Without(s, key)) == Drop(Keys(s), key)
  {
    if s != [] {
      KeysWithout(s[1..], key);
      assert Keys(s) == [s[0].key] + Keys(s[1..]);
      assert Keys(s)[1..] == Keys(s[1..]);
      if s[0].key != key {
        assert Keys([s[0]] + Without(s[1..], key)) == [s[0].key] + Keys(Without(s[1..], key));
      }
    }
  }

  lemma TailOf(s: seq<string>)
    requires s != [] && Distinct(s)
    ensures s == [s[0]] + s[1..] && Distinct(s[1..]) && s[0] !in s[1..]
  {
  }

  lemma DropCons(x: string, y: string, s: seq<string>)
    ensures Drop([y] + s, x) == if y == x then s else [y] + Drop(s, x)
  {
    assert ([y] + s)[1..] == s;
  }

  /** Dropping before or after cutting to size. */
  lemma {:induction false} DropTake(s: seq<string>, x: string, n: nat)
    requires n > 0 && Distinct(s)
    ensures Take(Drop(s, x), n - 1) == if x in Take(s, n) then Drop(Take(s, n), x) else Take(s, n - 1)
  {
    if s != [] {
      TailOf(s);
      TakeCons(s[0], s[1..], n);
      TakeCons(s[0], s[1..], n - 1);
      DropCons(x, s[0], Take(s[1..], n - 1));
      if s[0] != x {
        TakeCons(s[0], Drop(s[1..], x), n - 1);
        if n > 1 {
          DropTake(s[1..], x, n - 1);
        }
      }
    }
  }

  lemma TakeCons(x: string, s: seq<string>, n: nat)
    ensures Take([x] + s, n) == if n == 0 then [] else [x] + Take(s, n - 1)
  {
  }

  lemma {:induction false} AfterKeys<Cert>(s: seq<Binding<Cert>>, capacity: int, call: Call<Cert>, recent: seq<string>)
    requires Distinct(recent) && Keys(s) == Take(recent, Room(capacity))
    requires Answer(s, call).Some?
    ensures Keys(After(s, capacity, call)) == Take([call.host] + Drop(recent, call.host), Room(capacity))
  {
    var h, n := call.host, Room(capacity);
    LookupMissing(s, h);
    DropTake(recent, h, n);
    TakeCons(h, Drop(recent, h), n);
    if Lookup(s, h).Some? {
      KeysWithout(s, h);
    } else {
      EvictedKeys(s, capacity, recent);
    }
    var after := After(s, capacity, call);
    assert Keys(after) == [after[0].key] + Keys(after[1..]);
  }

  lemma EvictedKeys<V>(s: seq<Binding<V>>, capacity: int, recent: seq<string>)
    requires Keys(s) == Take(recent, Room(capacity))
    ensures Keys(if |s| >= capacity then WithoutLast(s) else s) == Take(recent, Room(capacity) - 1)
  {
    if |s| >= capacity && s != [] {
      KeysTake(s, |s| - 1);
    }
  }

  /**
   After any calls, failed ones included, the cache holds exactly the most recently
   served distinct hosts, up to capacity, in order of recency.
   */
  lemma {:induction false} CacheIsMostRecent<Cert>(capacity: int, calls: seq<Call<Cert>>)
    ensures Keys(Cached(capacity, calls)) == Take(Latest(Served(capacity, calls)), Room(capacity))
  {
    if calls != [] {
      var before, last := calls[..|calls| - 1], calls[|calls| - 1];
      CacheIsMostRecent(capacity, before);
      var served := Served(capacity, before);
      LatestMembers(served);
      if Succeeds(capacity, before, last) {
        AfterKeys(Cached(capacity, before), capacity, last, Latest(served));
        assert (served + [last.host])[..|served|] == served;
      } else {
        assert served + [] == served;
      }
    }
  }

  lemma CachedDistinct<Cert>(capacity: int, calls: seq<Call<Cert>>)
    ensures Distinct(Keys(Cached(capacity, calls)))
  {
    CacheIsMostRecent(capacity, calls);
    LatestMembers(Served(capacity, calls));
  }

  /** A cached certificate is the one that the latest successful call for its host returned. */
  lemma {:induction false} CachedWasReturned<Cert>(capacity: int, calls: seq<Call<Cert>>, host: string)
    ensures Lookup(Cached(capacity, calls), host).Some? ==>
              Lookup(Cached(capacity, calls), host) == Returned(capacity, calls, host)
  {
    if calls != [] {
      var before, last := calls[..|calls| - 1], calls[|calls| - 1];
      CachedWasReturned(capacity, before, host);
      CachedDistinct(capacity, before);
      var s := Cached(capacity, before);
      match Lookup(s, last.host)
      case Some(c) => LookupPromoted(s, last.host, c, host);
      case None =>
        if last.issued.Some? {
          LookupPut(s, capacity, last.host, last.issued.value, host);
        }
    }
  }

  // When a call is a hit.

  lemma {:induction false} DistinctCount(s: seq<string>)
    requires Distinct(s)
    ensures |Elements(s)| == |s|
  {
    if s != [] {
      DistinctCount(s[1..]);
      assert forall y | y in s[1..] :: y != s[0];
      assert Elements(s) == {s[0]} + Elements(s[1..]);
    }
  }

  /** The distinct hosts served after the last use of `h`. */
  ghost function Since(hosts: seq<string>, h: string): set<string>
    requires h in hosts
  {
    Elements(hosts[LastUse(hosts, h) + 1..])
  }

  /** The hosts in front of `s[i]` are those used after it. */
  lemma UsedLater(hosts: seq<string>, s: seq<string>, i: nat, h: string)
    requires NewestFirst(hosts, s) && (forall x | x in hosts :: x in s) && i < |s|
    ensures h in s[..i] <==> h in Since(hosts, s[i])
  {
    var u := LastUse(hosts, s[i]);
    var later := hosts[u + 1..];
    if h in later {
      var k :| 0 <= k < |later| && later[k] == h;
      assert hosts[u + 1 + k] == h;
      assert h in hosts && h in s;
      var j :| 0 <= j < |s| && s[j] == h;
      assert LastUse(hosts, s[j]) > u;
    }
    if h in s[..i] {
      var j :| 0 <= j < i && s[j] == h;
      var v := LastUse(hosts, s[j]);
      assert v > u && later[v - u - 1] == h;
    }
  }

  lemma LatestIndex(hosts: seq<string>, i: nat)
    requires i < |Latest(hosts)|
    ensures Latest(hosts)[i] in hosts && |Since(hosts, Latest(hosts)[i])| == i
  {
    var s := Latest(hosts);
    LatestMembers(hosts);
    LatestIsNewestFirst(hosts);
    DistinctCount(s[..i]);
    forall h ensures h in s[..i] <==> h in Since(hosts, s[i]) {
      UsedLater(hosts, s, i, h);
    }
    assert Elements(s[..i]) == Since(hosts, s[i]);
  }

  /** A call is a hit exactly when fewer than `Room(capacity)` distinct hosts were served since the host's last use. */
  lemma HitIff<Cert>(capacity: int, calls: seq<Call<Cert>>, host: string)
    ensures Lookup(Cached(capacity, calls), host).Some? <==>
            host in Served(capacity, calls) && |Since(Served(capacity, calls), host)| < Room(capacity)
  {
    var hosts := Served(capacity, calls);
    var s := Latest(hosts);
    CacheIsMostRecent(capacity, calls);
    LookupMissing(Cached(capacity, calls), host);
    LatestMembers(hosts);
    if host in hosts {
      var i :| 0 <= i < |s| && s[i] == host;
      LatestIndex(hosts, i);
      assert host in Take(s, Room(capacity)) <==> i < Room(capacity);
    }
  }

  // Caches of two sizes on the same calls.

  ghost predicate NeverFails<Cert>(calls: seq<Call<Cert>>) {
    forall c | c in calls :: c.issued.Some?
  }

  function Hosts<Cert>(calls: seq<Call<Cert>>): seq<string> {
    if calls == [] then [] else Hosts(calls[..|calls| - 1]) + [calls[|calls| - 1].host]
  }

  lemma {:induction false} AllServed<Cert>(capacity: int, calls: seq<Call<Cert>>)
    requires NeverFails(calls)
    ensures Served(capacity, calls) == Hosts(calls)
  {
    if calls != [] {
      AllServed(capacity, calls[..|calls| - 1]);
    }
  }

  /** The smaller cache's hosts are a prefix of the larger cache's. */
  lemma SmallerIsPrefix<Cert>(small: int, large: int, calls: seq<Call<Cert>>)
    requires small <= large && NeverFails(calls)
    ensures Keys(Cached(small, calls)) <= Keys(Cached(large, calls))
  {
    CacheIsMostRecent(small, calls);
    CacheIsMostRecent(large, calls);
    AllServed(small, calls);
    AllServed(large, calls);
  }
}
