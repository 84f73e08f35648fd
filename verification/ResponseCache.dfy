/**
 The caching plugin of internal/pluginrt/builtins/caching.go: an LRU list with expiry
 times, against the history of responses it was offered. Times are nanosecond counts.
 */
module ResponseCache {
  import opened Collections
  import opened Octets
  import opened RecencyList
  import opened Wrappers

  const DEFAULT_CAPACITY := 1000
  const DEFAULT_TTL := 300_000_000_000
  const DEFAULT_METHODS := ["GET", "HEAD"]

  datatype Response = Response(status: int, statusText: string, headers: map<string, seq<string>>, body: Bytes)

  datatype Entry = Entry(response: Response, expiry: int)

  datatype Config = Config(rawCapacity: int, rawTtl: int, rawMethods: seq<string>)
  {
    function Capacity(): int { if rawCapacity <= 0 then DEFAULT_CAPACITY else rawCapacity }
    function Ttl(): int { if rawTtl <= 0 then DEFAULT_TTL else rawTtl }
    function Methods(): seq<string> { if rawMethods == [] then DEFAULT_METHODS else rawMethods }
  }

  function CacheKey(verb: string, url: string): string {
    verb + ":" + url
  }

  predicate Storable(status: int) {
    200 <= status < 300
  }

  class CachingPlugin {
    const cfg: Config
    const lru: Recency<Entry>

    constructor (cfg: Config)
      ensures this.cfg == cfg && lru.Valid() && lru.View() == [] && fresh(lru) && fresh(lru.Footprint())
    {
      this.cfg := cfg;
      this.lru := new Recency();
    }

    method MethodAllowed(verb: string) returns (ok: bool)
      ensures ok <==> verb in cfg.Methods()
    {
      var methods := cfg.Methods();
      for i := 0 to |methods|
        invariant verb !in methods[..i]
      {
        if methods[i] == verb {
          return true;
        }
      }
      return false;
    }

    method OnRequest(now: int, verb: string, url: string) returns (hit: Option<Response>)
      requires lru.Valid()
      modifies lru
      ensures lru.Valid() && lru.Footprint() <= old(lru.Footprint())
      ensures hit == Answer(cfg, old(lru.View()), now, verb, url)
      ensures lru.View() == After(cfg, old(lru.View()), Ask(now, verb, url))
    {
      var allowed := MethodAllowed(verb);
      if !allowed {
        return None;
      }
      var found := lru.Find(CacheKey(verb, url));
      match found
      case None => return None;
      case Some(e) =>
        if now > e.value.expiry {
          lru.Remove(e);
          return None;
        }
        lru.MoveToFront(e);
        return Some(e.value.response);
    }

    method OnResponse(now: int, verb: string, url: string, resp: Response)
      requires lru.Valid()
      modifies lru.Footprint()
      ensures lru.Valid() && fresh(lru.Footprint() - old(lru.Footprint()))
      ensures lru.View() == After(cfg, old(lru.View()), Reply(now, verb, url, resp))
    {
      var allowed := MethodAllowed(verb);
      if !allowed || !Storable(resp.status) {
        return;
      }
      lru.Store(cfg.Capacity(), CacheKey(verb, url), Entry(resp, now + cfg.Ttl()));
    }
  }

  // What the plugin does to the list.

  datatype Event =
    | Ask(now: int, verb: string, url: string)
    | Reply(now: int, verb: string, url: string, response: Response)

  function Answer(cfg: Config, s: seq<Binding<Entry>>, now: int, verb: string, url: string): Option<Response> {
    if verb !in cfg.Methods() then None
    else
      match Lookup(s, CacheKey(verb, url))
      case None => None
      case Some(e) => if now > e.expiry then None else Some(e.response)
  }

  function After(cfg: Config, s: seq<Binding<Entry>>, ev: Event): seq<Binding<Entry>> {
    var key := CacheKey(ev.verb, ev.url);
    if ev.verb !in cfg.Methods() then s
    else
      match ev
      case Ask(now, _, _) =>
        (match Lookup(s, key)
         case None => s
         case Some(e) => if now > e.expiry then Without(s, key) else Promoted(s, key, e))
      case Reply(now, _, _, resp) =>
        if Storable(resp.status) then Put(s, cfg.Capacity(), key, Entry(resp, now + cfg.Ttl())) else s
  }

  function Cached(cfg: Config, events: seq<Event>): seq<Binding<Entry>> {
    if events == [] then [] else After(cfg, Cached(cfg, events[..|events| - 1]), events[|events| - 1])
  }

  // The reference: the history of replies, with no list and no eviction.

  predicate Stores(cfg: Config, ev: Event) {
    ev.Reply? && ev.verb in cfg.Methods() && Storable(ev.response.status)
  }

  /** The latest storable reply for this method and URL. */
  function Latest(cfg: Config, events: seq<Event>, verb: string, url: string): Option<Entry> {
    if events == [] then None
    else
      var last := events[|events| - 1];
      if Stores(cfg, last) && last.verb == verb && last.url == url then Some(Entry(last.response, last.now + cfg.Ttl()))
      else Latest(cfg, events[..|events| - 1], verb, url)
  }

  /** What a map that forgets nothing but by time would answer. */
  function Unbounded(cfg: Config, events: seq<Event>, now: int, verb: string, url: string): Option<Response> {
    match Latest(cfg, events, verb, url)
    case None => None
    case Some(e) => if now <= e.expiry then Some(e.response) else None
  }

  /** The keys ever stored. */
  function StoredKeys(cfg: Config, events: seq<Event>): set<string> {
    set i | 0 <= i < |events| && Stores(cfg, events[i]) :: CacheKey(events[i].verb, events[i].url)
  }

  /** No event happened after `now`. */
  ghost predicate UpTo(events: seq<Event>, now: int) {
    forall i | 0 <= i < |events| :: events[i].now <= now
  }

  // The string key stands for the pair of method and URL.

  /** No cached method is another one followed by a colon and more. */
  ghost predicate NoClash(methods: seq<string>) {
    forall m, n | m in methods && n in methods && m != n :: !(m + ":" <= n)
  }

  lemma SharedKey(m: string, u: string, n: string, v: string)
    requires CacheKey(m, u) == CacheKey(n, v) && |m| <= |n|
    ensures (m == n && u == v) || m + ":" <= n
  {
    var k := CacheKey(m, u);
    assert k[..|m|] == m && k[|m|] == ':' && k[|m| + 1..] == u;
    assert k[..|n|] == n && k[|n|] == ':' && k[|n| + 1..] == v;
    if |m| < |n| {
      assert n[..|m| + 1] == k[..|m| + 1] == m + ":";
    }
  }

  ghost predicate KeysTellApart(methods: seq<string>) {
    forall m, u, n, v | m in methods && n in methods && CacheKey(m, u) == CacheKey(n, v) :: m == n && u == v
  }

  /** Keys tell requests apart exactly when the configured methods do not clash. */
  lemma KeysTellApartIffNoClash(methods: seq<string>)
    ensures KeysTellApart(methods) <==> NoClash(methods)
  {
    if NoClash(methods) {
      forall m, u, n, v | m in methods && n in methods && CacheKey(m, u) == CacheKey(n, v)
        ensures m == n && u == v
      {
        if |m| <= |n| {
          SharedKey(m, u, n, v);
        } else {
          SharedKey(n, v, m, u);
        }
      }
    } else {
      var m, n :| m in methods && n in methods && m != n && m + ":" <= n;
      var w := n[|m| + 1..];
      assert n == m + ":" + w;
      assert CacheKey(m, w + ":") == CacheKey(n, "");
    }
  }

  // The refinement.

  ghost predicate Agrees(cfg: Config, s: seq<Binding<Entry>>, events: seq<Event>, verb: string, url: string) {
    var found := Lookup(s, CacheKey(verb, url));
    found.Some? ==> found == Latest(cfg, events, verb, url)
  }

  lemma AfterDistinct(cfg: Config, s: seq<Binding<Entry>>, ev: Event, x: string)
    requires Distinct(Keys(s))
    ensures Distinct(Keys(After(cfg, s, ev)))
    ensures !Stores(cfg, ev) && Lookup(After(cfg, s, ev), x).Some? ==> Lookup(After(cfg, s, ev), x) == Lookup(s, x)
    ensures Stores(cfg, ev) && x == CacheKey(ev.verb, ev.url) ==>
            Lookup(After(cfg, s, ev), x) == Some(Entry(ev.response, ev.now + cfg.Ttl()))
    ensures Stores(cfg, ev) && x != CacheKey(ev.verb, ev.url) && Lookup(After(cfg, s, ev), x).Some? ==>
            Lookup(After(cfg, s, ev), x) == Lookup(s, x)
  {
    var key := CacheKey(ev.verb, ev.url);
    if Stores(cfg, ev) {
      LookupPut(s, cfg.Capacity(), key, Entry(ev.response, ev.now + cfg.Ttl()), x);
    } else if ev.Ask? && ev.verb in cfg.Methods() && Lookup(s, key).Some? {
      LookupWithout(s, key, x);
      LookupPromoted(s, key, Lookup(s, key).value, x);
    }
  }

  lemma {:induction false} CachedDistinct(cfg: Config, events: seq<Event>)
    ensures Distinct(Keys(Cached(cfg, events)))
  {
    if events != [] {
      CachedDistinct(cfg, events[..|events| - 1]);
      AfterDistinct(cfg, Cached(cfg, events[..|events| - 1]), events[|events| - 1], "");
    }
  }

  /** Whatever the list holds for an allowed request is its latest storable reply. */
  lemma {:induction false} CachedIsLatest(cfg: Config, events: seq<Event>, verb: string, url: string)
    requires NoClash(cfg.Methods()) && verb in cfg.Methods()
    ensures Agrees(cfg, Cached(cfg, events), events, verb, url)
  {
    if events != [] {
      var before, last := events[..|events| - 1], events[|events| - 1];
      CachedIsLatest(cfg, before, verb, url);
      CachedDistinct(cfg, before);
      AfterDistinct(cfg, Cached(cfg, before), last, CacheKey(verb, url));
      if Stores(cfg, last) && CacheKey(last.verb, last.url) == CacheKey(verb, url) {
        KeysTellApartIffNoClash(cfg.Methods());
      }
    }
  }

  /** Every hit is the latest storable reply for that method and URL, and has not expired. */
  lemma HitIsLatestAndFresh(cfg: Config, events: seq<Event>, now: int, verb: string, url: string)
    requires NoClash(cfg.Methods())
    requires Answer(cfg, Cached(cfg, events), now, verb, url).Some?
    ensures Answer(cfg, Cached(cfg, events), now, verb, url) == Unbounded(cfg, events, now, verb, url)
  {
    CachedIsLatest(cfg, events, verb, url);
  }

  /** No run of the plugin ends in a hit that is not the latest unexpired reply. */
  ghost predicate HitsAreLatest(cfg: Config) {
    forall events, now, verb, url | Answer(cfg, Cached(cfg, events), now, verb, url).Some? ::
      Answer(cfg, Cached(cfg, events), now, verb, url) == Unbounded(cfg, events, now, verb, url)
  }

  lemma CachedOne(cfg: Config, ev: Event)
    requires Stores(cfg, ev)
    ensures Cached(cfg, [ev]) == [Binding(CacheKey(ev.verb, ev.url), Entry(ev.response, ev.now + cfg.Ttl()))]
  {
    assert [ev][..0] == [];
    assert Cached(cfg, []) == [];
  }

  /** A reply for one method served to another: their cache keys coincide. */
  lemma WrongHit(cfg: Config, m: string, n: string, response: Response)
    requires m in cfg.Methods() && n in cfg.Methods() && m != n && m + ":" <= n && Storable(response.status)
    ensures
      var events := [Reply(0, m, n[|m| + 1..] + ":", response)];
      && Answer(cfg, Cached(cfg, events), 0, n, "") == Some(response)
      && Unbounded(cfg, events, 0, n, "") == None
  {
    var ev := Reply(0, m, n[|m| + 1..] + ":", response);
    CachedOne(cfg, ev);
    assert n == m + ":" + n[|m| + 1..];
    assert CacheKey(m, ev.url) == CacheKey(n, "");
    assert [ev][..0] == [] && Latest(cfg, [], n, "") == None;
    assert Latest(cfg, [ev], n, "") == None;
  }

  /** Every hit of every run is right exactly when the configured methods do not clash. */
  lemma HitsAreLatestIffNoClash(cfg: Config)
    ensures HitsAreLatest(cfg) <==> NoClash(cfg.Methods())
  {
    if NoClash(cfg.Methods()) {
      forall events, now, verb, url | Answer(cfg, Cached(cfg, events), now, verb, url).Some?
        ensures Answer(cfg, Cached(cfg, events), now, verb, url) == Unbounded(cfg, events, now, verb, url)
      {
        HitIsLatestAndFresh(cfg, events, now, verb, url);
      }
    } else {
      var m, n :| m in cfg.Methods() && n in cfg.Methods() && m != n && m + ":" <= n;
      WrongHit(cfg, m, n, Response(200, "", map[], []));
    }
  }

  lemma {:induction false} WithoutLength<V>(s: seq<Binding<V>>, key: string)
    ensures |Without(s, key)| == if Lookup(s, key).Some? then |s| - 1 else |s|
  {
    if s != [] {
      WithoutLength(s[1..], key);
    }
  }

  lemma {:induction false} SizeWithinCapacity(cfg: Config, events: seq<Event>)
    ensures |Cached(cfg, events)| <= if cfg.rawCapacity > 0 then cfg.rawCapacity else 1000
  {
    if events != [] {
      var last := events[|events| - 1];
      SizeWithinCapacity(cfg, events[..|events| - 1]);
      WithoutLength(Cached(cfg, events[..|events| - 1]), CacheKey(last.verb, last.url));
    }
  }

  // With room for every stored key nothing is evicted before its time.

  lemma StoredKeysSnoc(cfg: Config, events: seq<Event>)
    requires events != []
    ensures StoredKeys(cfg, events) == StoredKeys(cfg, events[..|events| - 1])
            + if Stores(cfg, events[|events| - 1])
              then {CacheKey(events[|events| - 1].verb, events[|events| - 1].url)} else {}
  {
    var before := events[..|events| - 1];
    assert forall i | 0 <= i < |before| :: before[i] == events[i];
  }

  lemma {:induction false} KeysWereStored(cfg: Config, events: seq<Event>, x: string)
    ensures x in Keys(Cached(cfg, events)) ==> x in StoredKeys(cfg, events)
  {
    if events != [] {
      var before, last := events[..|events| - 1], events[|events| - 1];
      KeysWereStored(cfg, before, x);
      CachedDistinct(cfg, before);
      StoredKeysSnoc(cfg, events);
      LookupMissing(Cached(cfg, before), x);
      LookupMissing(Cached(cfg, events), x);
      AfterDistinct(cfg, Cached(cfg, before), last, x);
    }
  }

  function KeySet<V>(s: seq<Binding<V>>): set<string> {
    set k | k in Keys(s)
  }

  lemma {:induction false} KeySetSize<V>(s: seq<Binding<V>>)
    requires Distinct(Keys(s))
    ensures |KeySet(s)| == |s|
  {
    if s != [] {
      TailDistinct(s);
      KeySetSize(s[1..]);
      assert Keys(s) == [s[0].key] + Keys(s[1..]);
      assert KeySet(s) == {s[0].key} + KeySet(s[1..]);
    }
  }

  lemma SubsetSize(a: set<string>, b: set<string>)
    requires a <= b
    ensures |a| <= |b|
  {
    assert b == a + (b - a);
  }

  /** A new key finds room when all stored keys, itself included, fit. */
  lemma RoomForNewKey(cfg: Config, before: seq<Event>, key: string)
    requires |StoredKeys(cfg, before) + {key}| <= cfg.Capacity()
    requires Lookup(Cached(cfg, before), key).None?
    ensures |Cached(cfg, before)| < cfg.Capacity()
  {
    var s := Cached(cfg, before);
    CachedDistinct(cfg, before);
    KeySetSize(s);
    LookupMissing(s, key);
    forall k | k in KeySet(s) ensures k in StoredKeys(cfg, before) {
      KeysWereStored(cfg, before, k);
    }
    SubsetSize(KeySet(s) + {key}, StoredKeys(cfg, before) + {key});
  }

  /** A reply missing from the list has expired by `now`. */
  ghost predicate MissingIsExpired(cfg: Config, events: seq<Event>, now: int, verb: string, url: string) {
    var latest := Latest(cfg, events, verb, url);
    latest.Some? ==> Lookup(Cached(cfg, events), CacheKey(verb, url)).Some? || now > latest.value.expiry
  }

  lemma FewerStored(cfg: Config, before: seq<Event>, last: Event)
    ensures |StoredKeys(cfg, before)| <= |StoredKeys(cfg, before + [last])|
  {
    assert (before + [last])[..|before|] == before;
    StoredKeysSnoc(cfg, before + [last]);
    SubsetSize(StoredKeys(cfg, before), StoredKeys(cfg, before + [last]));
  }

  lemma {:induction false} OnlyExpiredIsMissing(cfg: Config, events: seq<Event>, now: int, verb: string, url: string)
    requires NoClash(cfg.Methods()) && verb in cfg.Methods()
    requires |StoredKeys(cfg, events)| <= cfg.Capacity()
    requires UpTo(events, now)
    ensures MissingIsExpired(cfg, events, now, verb, url)
  {
    if events != [] {
      var before, last := events[..|events| - 1], events[|events| - 1];
      assert events == before + [last];
      FewerStored(cfg, before, last);
      OnlyExpiredIsMissing(cfg, before, now, verb, url);
      CachedDistinct(cfg, before);
      CachedIsLatest(cfg, before, verb, url);
      if Stores(cfg, last) {
        ReplyMissesOnlyExpired(cfg, before, last, now, verb, url);
      } else {
        OtherMissesOnlyExpired(cfg, before, last, now, verb, url);
      }
    }
  }

  lemma ReplyMissesOnlyExpired(cfg: Config, before: seq<Event>, last: Event, now: int, verb: string, url: string)
    requires Stores(cfg, last) && |StoredKeys(cfg, before + [last])| <= cfg.Capacity()
    requires MissingIsExpired(cfg, before, now, verb, url) && Distinct(Keys(Cached(cfg, before)))
    ensures MissingIsExpired(cfg, before + [last], now, verb, url)
  {
    var s, key := Cached(cfg, before), CacheKey(last.verb, last.url);
    assert (before + [last])[..|before|] == before;
    if Lookup(s, key).None? {
      StoredKeysSnoc(cfg, before + [last]);
      RoomForNewKey(cfg, before, key);
    }
    LookupPut(s, cfg.Capacity(), key, Entry(last.response, last.now + cfg.Ttl()), CacheKey(verb, url));
  }

  lemma OtherMissesOnlyExpired(cfg: Config, before: seq<Event>, last: Event, now: int, verb: string, url: string)
    requires !Stores(cfg, last) && last.now <= now
    requires MissingIsExpired(cfg, before, now, verb, url) && Distinct(Keys(Cached(cfg, before)))
    requires Agrees(cfg, Cached(cfg, before), before, verb, url)
    ensures MissingIsExpired(cfg, before + [last], now, verb, url)
  {
    var s, key := Cached(cfg, before), CacheKey(last.verb, last.url);
    assert (before + [last])[..|before|] == before;
    if last.Ask? && last.verb in cfg.Methods() && Lookup(s, key).Some? {
      LookupWithout(s, key, CacheKey(verb, url));
      LookupPromoted(s, key, Lookup(s, key).value, CacheKey(verb, url));
    }
  }

  /**
   At a time no earlier than any event, if all keys ever stored fit in the cache,
   it answers exactly as a map that never evicts.
   */
  lemma AnswersLikeUnbounded(cfg: Config, events: seq<Event>, now: int, verb: string, url: string)
    requires NoClash(cfg.Methods())
    requires |StoredKeys(cfg, events)| <= if cfg.rawCapacity > 0 then cfg.rawCapacity else 1000
    requires UpTo(events, now)
    ensures Answer(cfg, Cached(cfg, events), now, verb, url) == Unbounded(cfg, events, now, verb, url)
  {
    if verb in cfg.Methods() {
      OnlyExpiredIsMissing(cfg, events, now, verb, url);
      CachedIsLatest(cfg, events, verb, url);
    } else {
      NeverStored(cfg, events, verb, url);
    }
  }

  lemma {:induction false} NeverStored(cfg: Config, events: seq<Event>, verb: string, url: string)
    requires verb !in cfg.Methods()
    ensures Latest(cfg, events, verb, url).None?
  {
    if events != [] {
      NeverStored(cfg, events[..|events| - 1], verb, url);
    }
  }

  // What configuration and status have to do with it.

  /** The configured methods, or GET and HEAD. */
  ghost predicate Cacheable(cfg: Config, verb: string) {
    if cfg.rawMethods != [] then verb in cfg.rawMethods else verb == "GET" || verb == "HEAD"
  }

  /** The configured time to live, or five minutes of nanoseconds. */
  ghost predicate Live(cfg: Config, stored: int, now: int) {
    now - stored <= if cfg.rawTtl > 0 then cfg.rawTtl else 5 * 60 * 1_000_000_000
  }

  /** The reply at position `i` is a success for this method and URL. */
  ghost predicate SuccessAt(events: seq<Event>, i: nat, verb: string, url: string) {
    && i < |events|
    && events[i].Reply? && events[i].verb == verb && events[i].url == url
    && 200 <= events[i].response.status <= 299
  }

  lemma {:induction false} LatestIsSuccess(cfg: Config, events: seq<Event>, verb: string, url: string) returns (i: nat)
    requires Latest(cfg, events, verb, url).Some?
    ensures SuccessAt(events, i, verb, url) && Cacheable(cfg, verb)
    ensures forall j | i < j < |events| :: !SuccessAt(events, j, verb, url)
    ensures Latest(cfg, events, verb, url).value.response == events[i].response
    ensures forall now :: now <= Latest(cfg, events, verb, url).value.expiry <==> Live(cfg, events[i].now, now)
  {
    i := |events| - 1;
    var last := events[i];
    if !(Stores(cfg, last) && last.verb == verb && last.url == url) {
      var before := events[..|events| - 1];
      i := LatestIsSuccess(cfg, before, verb, url);
      forall j: nat | j < |before| ensures SuccessAt(events, j, verb, url) <==> SuccessAt(before, j, verb, url) {
        assert before[j] == events[j];
      }
      assert !SuccessAt(events, |before|, verb, url);
    }
  }

  /**
   Every hit answers a cacheable method with the last success, a status from 200 to 299,
   that was received for that very method and URL, within the time to live.
   */
  lemma HitMeans(cfg: Config, events: seq<Event>, now: int, verb: string, url: string) returns (i: nat)
    requires NoClash(cfg.Methods()) && Answer(cfg, Cached(cfg, events), now, verb, url).Some?
    ensures SuccessAt(events, i, verb, url) && Cacheable(cfg, verb) && Live(cfg, events[i].now, now)
    ensures forall j | i < j < |events| :: !SuccessAt(events, j, verb, url)
    ensures Answer(cfg, Cached(cfg, events), now, verb, url) == Some(events[i].response)
  {
    HitIsLatestAndFresh(cfg, events, now, verb, url);
    i := LatestIsSuccess(cfg, events, verb, url);
  }

  /** A success for a cacheable method is served from then on, just as long as it lives. */
  lemma SuccessIsServed(
    cfg: Config, events: seq<Event>, stored: int, now: int, verb: string, url: string, resp: Response)
    requires Cacheable(cfg, verb) && 200 <= resp.status <= 299
    ensures
      var answer := Answer(cfg, Cached(cfg, events + [Reply(stored, verb, url, resp)]), now, verb, url);
      answer == if Live(cfg, stored, now) then Some(resp) else None
  {
    var ev := Reply(stored, verb, url, resp);
    assert (events + [ev])[..|events|] == events;
    CachedDistinct(cfg, events);
    AfterDistinct(cfg, Cached(cfg, events), ev, CacheKey(verb, url));
  }

  /** Nothing else is stored: other methods and other statuses leave the cache as it was. */
  lemma OthersAreNotStored(cfg: Config, events: seq<Event>, stored: int, verb: string, url: string, resp: Response)
    requires !Cacheable(cfg, verb) || resp.status < 200 || resp.status > 299
    ensures Cached(cfg, events + [Reply(stored, verb, url, resp)]) == Cached(cfg, events)
  {
    assert (events + [Reply(stored, verb, url, resp)])[..|events|] == events;
  }
}
