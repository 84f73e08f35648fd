/**
 A map of list elements beside a list with the most recently used element first: the
 structure behind the certificate cache of internal/proxy/cert_lru.go and the response
 cache of internal/pluginrt/builtins/caching.go.
 */
module RecencyList {
  import opened Collections
  import opened Wrappers

  datatype Binding<V> = Binding(key: string, value: V)

  function Keys<V>(s: seq<Binding<V>>): (r: seq<string>)
    ensures |r| == |s|
    ensures forall i | 0 <= i < |s| :: r[i] == s[i].key
  {
    if s == [] then [] else [s[0].key] + Keys(s[1..])
  }

  function Lookup<V>(s: seq<Binding<V>>, key: string): Option<V> {
    if s == [] then None else if s[0].key == key then Some(s[0].value) else Lookup(s[1..], key)
  }

  function Without<V>(s: seq<Binding<V>>, key: string): seq<Binding<V>> {
    if s == [] then [] else if s[0].key == key then s[1..] else [s[0]] + Without(s[1..], key)
  }

  /** `key` in front with the given value, the others as before. */
  function Promoted<V>(s: seq<Binding<V>>, key: string, value: V): seq<Binding<V>> {
    [Binding(key, value)] + Without(s, key)
  }

  function WithoutLast<V>(s: seq<Binding<V>>): seq<Binding<V>> {
    if s == [] then [] else s[..|s| - 1]
  }

  /** Storing a value: promote a known key, else make room for one more. */
  function Put<V>(s: seq<Binding<V>>, capacity: int, key: string, value: V): seq<Binding<V>> {
    if Lookup(s, key).Some? then Promoted(s, key, value)
    else [Binding(key, value)] + if |s| >= capacity then WithoutLast(s) else s
  }

  lemma SkipHead<T>(s: seq<T>, i: nat)
    requires 0 < i < |s|
    ensures s[1..][i - 1] == s[i]
    ensures [s[0]] + (s[1..][..i - 1] + s[1..][i..]) == s[..i] + s[i + 1..]
  {
  }

  lemma {:induction false} LookupAt<V>(s: seq<Binding<V>>, i: nat)
    requires i < |s| && Distinct(Keys(s))
    ensures Lookup(s, s[i].key) == Some(s[i].value)
    ensures Without(s, s[i].key) == s[..i] + s[i + 1..]
  {
    if i > 0 {
      assert Keys(s)[0] != Keys(s)[i];
      TailDistinct(s);
      LookupAt(s[1..], i - 1);
      SkipHead(s, i);
    }
  }

  lemma TailDistinct<V>(s: seq<Binding<V>>)
    requires s != [] && Distinct(Keys(s))
    ensures Distinct(Keys(s[1..]))
    ensures s[0].key !in Keys(s[1..])
  {
    assert Keys(s) == [s[0].key] + Keys(s[1..]);
    var keys, rest := Keys(s), Keys(s[1..]);
    assert forall i | 0 <= i < |rest| :: rest[i] == keys[i + 1];
  }

  lemma {:induction false} LookupMissing<V>(s: seq<Binding<V>>, key: string)
    ensures Lookup(s, key).None? <==> key !in Keys(s)
    ensures key !in Keys(s) ==> Without(s, key) == s
  {
    if s != [] {
      assert Keys(s) == [s[0].key] + Keys(s[1..]);
      LookupMissing(s[1..], key);
    }
  }

  lemma {:induction false} LookupWithout<V>(s: seq<Binding<V>>, key: string, x: string)
    requires Distinct(Keys(s))
    ensures Lookup(Without(s, key), x) == if x == key then None else Lookup(s, x)
    ensures Distinct(Keys(Without(s, key)))
    ensures forall k :: k in Keys(Without(s, key)) <==> k in Keys(s) && k != key
  {
    if s != [] {
      TailDistinct(s);
      assert Keys(s) == [s[0].key] + Keys(s[1..]);
      if s[0].key == key {
        LookupMissing(s[1..], key);
      } else {
        LookupWithout(s[1..], key, x);
        var rest := Without(s[1..], key);
        assert Keys([s[0]] + rest) == [s[0].key] + Keys(rest);
      }
    }
  }

  lemma ConsDistinct<V>(b: Binding<V>, s: seq<Binding<V>>)
    requires Distinct(Keys(s)) && b.key !in Keys(s)
    ensures Keys([b] + s) == [b.key] + Keys(s)
    ensures Distinct(Keys([b] + s))
  {
  }

  lemma LookupPromoted<V>(s: seq<Binding<V>>, key: string, value: V, x: string)
    requires Distinct(Keys(s))
    ensures Lookup(Promoted(s, key, value), x) == if x == key then Some(value) else Lookup(s, x)
    ensures Distinct(Keys(Promoted(s, key, value)))
  {
    LookupWithout(s, key, x);
    ConsDistinct(Binding(key, value), Without(s, key));
  }

  lemma KeysTake<V>(s: seq<Binding<V>>, n: nat)
    requires n <= |s|
    ensures Keys(s[..n]) == Keys(s)[..n]
  {
  }

  lemma {:induction false} LookupTake<V>(s: seq<Binding<V>>, n: nat, x: string)
    requires n <= |s| && Lookup(s[..n], x).Some?
    ensures Lookup(s, x) == Lookup(s[..n], x)
  {
    if s[0].key != x {
      assert s[..n][1..] == s[1..][..n - 1];
      LookupTake(s[1..], n - 1, x);
    }
  }

  /** Storing keeps keys distinct, answers the new key, and changes no other answer except by eviction. */
  lemma LookupPut<V>(s: seq<Binding<V>>, capacity: int, key: string, value: V, x: string)
    requires Distinct(Keys(s))
    ensures Distinct(Keys(Put(s, capacity, key, value)))
    ensures Lookup(Put(s, capacity, key, value), key) == Some(value)
    ensures x != key && Lookup(Put(s, capacity, key, value), x).Some? ==>
            Lookup(Put(s, capacity, key, value), x) == Lookup(s, x)
    ensures x != key && (Lookup(s, key).Some? || |s| < capacity) ==>
            Lookup(Put(s, capacity, key, value), x) == Lookup(s, x)
  {
    if Lookup(s, key).Some? {
      LookupPromoted(s, key, value, x);
    } else {
      LookupMissing(s, key);
      var rest := if |s| >= capacity then WithoutLast(s) else s;
      assert rest == s[..|rest|];
      KeysTake(s, |rest|);
      ConsDistinct(Binding(key, value), rest);
      if Lookup(rest, x).Some? {
        LookupTake(s, |rest|, x);
      }
    }
  }

  class Element<V> {
    const key: string
    var value: V

    constructor (key: string, value: V)
      ensures this.key == key && this.value == value
    {
      this.key, this.value := key, value;
    }
  }

  /** The list with one element, known by identity, taken out. */
  function Unlinked<V>(list: seq<Element<V>>, e: Element<V>): seq<Element<V>> {
    if list == [] then [] else if list[0] == e then list[1..] else [list[0]] + Unlinked(list[1..], e)
  }

  lemma {:induction false} UnlinkedAt<V>(list: seq<Element<V>>, i: nat)
    requires i < |list| && forall j | 0 <= j < i :: list[j] != list[i]
    ensures Unlinked(list, list[i]) == list[..i] + list[i + 1..]
  {
    if i > 0 {
      UnlinkedAt(list[1..], i - 1);
      SkipHead(list, i);
    }
  }

  /** The list has no key twice, and the map leads from each key to its element. */
  ghost predicate Linked<V>(list: seq<Element<V>>, entries: map<string, Element<V>>) {
    Mapped(list, entries) && Listed(list, entries) && KeysDiffer(list)
  }

  ghost predicate Mapped<V>(list: seq<Element<V>>, entries: map<string, Element<V>>) {
    forall i | 0 <= i < |list| :: list[i].key in entries && entries[list[i].key] == list[i]
  }

  ghost predicate Listed<V>(list: seq<Element<V>>, entries: map<string, Element<V>>) {
    forall k | k in entries :: entries[k].key == k && entries[k] in list
  }

  ghost predicate KeysDiffer<V>(list: seq<Element<V>>) {
    forall i, j | 0 <= i < j < |list| :: list[i].key != list[j].key
  }

  function Cut<T>(s: seq<T>, i: nat): seq<T>
    requires i < |s|
  {
    s[..i] + s[i + 1..]
  }

  lemma CutMembers<V>(list: seq<Element<V>>, entries: map<string, Element<V>>, i: nat)
    requires Linked(list, entries) && i < |list|
    ensures forall x :: x in Cut(list, i) <==> x in list && x != list[i]
    ensures forall x | x in Cut(list, i) :: x.key != list[i].key
  {
    var cut := Cut(list, i);
    forall x | x in list && x != list[i] ensures x in cut {
      var j :| 0 <= j < |list| && list[j] == x;
      assert x == if j < i then cut[j] else cut[j - 1];
    }
  }

  lemma CutAvoids<V>(list: seq<Element<V>>, entries: map<string, Element<V>>, i: nat)
    requires Linked(list, entries) && i < |list|
    ensures list[i] !in Cut(list, i)
  {
    CutMembers(list, entries, i);
  }

  lemma CutObjects<V>(list: seq<Element<V>>, entries: map<string, Element<V>>, i: nat)
    requires Linked(list, entries) && i < |list|
    ensures Objects(Cut(list, i)) == Objects(list) - {list[i]}
  {
    CutMembers(list, entries, i);
  }

  lemma CutLinked<V>(list: seq<Element<V>>, entries: map<string, Element<V>>, i: nat)
    requires Linked(list, entries) && i < |list|
    ensures Linked(Cut(list, i), entries - {list[i].key})
  {
    CutListed(list, entries, i);
    CutDiffer(list, i);
    CutMapped(list, entries, i);
  }

  lemma CutMapped<V>(list: seq<Element<V>>, entries: map<string, Element<V>>, i: nat)
    requires Linked(list, entries) && i < |list|
    ensures Mapped(Cut(list, i), entries - {list[i].key})
  {
    var cut := Cut(list, i);
    assert forall j | 0 <= j < |cut| :: cut[j] == if j < i then list[j] else list[j + 1];
  }

  lemma CutListed<V>(list: seq<Element<V>>, entries: map<string, Element<V>>, i: nat)
    requires Linked(list, entries) && i < |list|
    ensures Listed(Cut(list, i), entries - {list[i].key})
  {
    CutMembers(list, entries, i);
  }

  lemma CutDiffer<V>(list: seq<Element<V>>, i: nat)
    requires KeysDiffer(list) && i < |list|
    ensures KeysDiffer(Cut(list, i))
  {
    var cut := Cut(list, i);
    assert forall j | 0 <= j < |cut| :: cut[j] == if j < i then list[j] else list[j + 1];
  }

  lemma PushLinked<V>(list: seq<Element<V>>, entries: map<string, Element<V>>, e: Element<V>)
    requires Linked(list, entries) && e.key !in entries
    ensures Linked([e] + list, entries[e.key := e])
  {
    var pushed := [e] + list;
    assert forall x | x in list :: x in pushed;
  }

  ghost function ViewOf<V>(list: seq<Element<V>>): seq<Binding<V>>
    reads list
  {
    if list == [] then [] else [Binding(list[0].key, list[0].value)] + ViewOf(list[1..])
  }

  lemma {:induction false} ViewAt<V>(list: seq<Element<V>>)
    ensures |ViewOf(list)| == |list|
    ensures forall i | 0 <= i < |list| :: ViewOf(list)[i] == Binding(list[i].key, list[i].value)
  {
    if list != [] {
      ViewAt(list[1..]);
    }
  }

  lemma ViewOfCut<V>(list: seq<Element<V>>, i: nat)
    requires i < |list|
    ensures |ViewOf(list)| == |list| && ViewOf(Cut(list, i)) == Cut(ViewOf(list), i)
  {
    ViewAt(list);
    ViewAt(Cut(list, i));
  }

  lemma ViewDistinct<V>(list: seq<Element<V>>, entries: map<string, Element<V>>)
    requires Linked(list, entries)
    ensures Distinct(Keys(ViewOf(list)))
  {
    ViewAt(list);
  }

  /** What the view says about the key of the element at position `i`. */
  lemma PositionAt<V>(list: seq<Element<V>>, entries: map<string, Element<V>>, key: string, i: nat)
    requires Linked(list, entries) && i < |list| && list[i].key == key
    ensures Lookup(ViewOf(list), key) == Some(list[i].value)
    ensures Without(ViewOf(list), key) == ViewOf(Cut(list, i))
    ensures Unlinked(list, list[i]) == Cut(list, i)
  {
    ViewAt(list);
    ViewDistinct(list, entries);
    LookupAt(ViewOf(list), i);
    UnlinkedAt(list, i);
    ViewOfCut(list, i);
  }

  /** Where the element of a key stands. */
  lemma Position<V>(list: seq<Element<V>>, entries: map<string, Element<V>>, key: string) returns (i: nat)
    requires Linked(list, entries) && key in entries
    ensures i < |list| && list[i] == entries[key] && list[i].key == key
    ensures Lookup(ViewOf(list), key) == Some(list[i].value)
    ensures Without(ViewOf(list), key) == ViewOf(Cut(list, i))
    ensures Unlinked(list, list[i]) == Cut(list, i)
  {
    i :| 0 <= i < |list| && list[i] == entries[key];
    PositionAt(list, entries, key, i);
  }

  lemma Missing<V>(list: seq<Element<V>>, entries: map<string, Element<V>>, key: string)
    requires Linked(list, entries) && key !in entries
    ensures Lookup(ViewOf(list), key).None? && |ViewOf(list)| == |list|
  {
    ViewAt(list);
    LookupMissing(ViewOf(list), key);
  }

  ghost function Objects<V>(list: seq<Element<V>>): set<object> {
    set e: Element<V> | e in list :: e as object
  }

  lemma Unlink<V>(list: seq<Element<V>>, entries: map<string, Element<V>>, e: Element<V>)
    requires Linked(list, entries) && e.key in entries && entries[e.key] == e
    ensures Linked(Unlinked(list, e), entries - {e.key})
    ensures ViewOf(Unlinked(list, e)) == Without(ViewOf(list), e.key)
    ensures e in list && Objects(Unlinked(list, e)) == Objects(list) - {e}
  {
    var i := Position(list, entries, e.key);
    CutObjects(list, entries, i);
    CutLinked(list, entries, i);
  }

  lemma ToFront<V>(list: seq<Element<V>>, entries: map<string, Element<V>>, e: Element<V>)
    requires Linked(list, entries) && e.key in entries && entries[e.key] == e
    ensures Linked([e] + Unlinked(list, e), entries)
    ensures ViewOf([e] + Unlinked(list, e)) == Promoted(ViewOf(list), e.key, e.value)
    ensures Objects([e] + Unlinked(list, e)) == Objects(list)
  {
    Unlink(list, entries, e);
    Front(Unlinked(list, e), entries - {e.key}, e);
    assert (entries - {e.key})[e.key := e] == entries;
  }

  lemma UnlinkBack<V>(list: seq<Element<V>>, entries: map<string, Element<V>>)
    requires Linked(list, entries) && list != []
    ensures Linked(list[..|list| - 1], entries - {list[|list| - 1].key})
    ensures ViewOf(list[..|list| - 1]) == WithoutLast(ViewOf(list))
    ensures Objects(list[..|list| - 1]) <= Objects(list)
  {
    CutLinked(list, entries, |list| - 1);
    ViewOfCut(list, |list| - 1);
    assert Cut(list, |list| - 1) == list[..|list| - 1];
    assert Cut(ViewOf(list), |list| - 1) == WithoutLast(ViewOf(list));
  }

  lemma Front<V>(list: seq<Element<V>>, entries: map<string, Element<V>>, e: Element<V>)
    requires Linked(list, entries) && e.key !in entries
    ensures Linked([e] + list, entries[e.key := e])
    ensures ViewOf([e] + list) == [Binding(e.key, e.value)] + ViewOf(list)
    ensures Objects([e] + list) == {e as object} + Objects(list)
  {
    PushLinked(list, entries, e);
    assert ([e] + list)[1..] == list;
  }

  class Recency<V> {
    var list: seq<Element<V>>
    var entries: map<string, Element<V>>

    constructor ()
      ensures Valid() && View() == [] && fresh(Footprint())
    {
      list, entries := [], map[];
    }

    ghost function Footprint(): set<object>
      reads this
    {
      {this} + Objects(list)
    }

    ghost predicate Valid()
      reads this
    {
      Linked(list, entries)
    }

    ghost function View(): seq<Binding<V>>
      reads this, list
    {
      ViewOf(list)
    }

    method Find(key: string) returns (e: Option<Element<V>>)
      requires Valid()
      ensures e.Some? <==> Lookup(View(), key).Some?
      ensures e.Some? ==> key in entries && e.value == entries[key] && e.value in list
                          && Lookup(View(), key) == Some(e.value.value)
    {
      if key in entries {
        ghost var i := Position(list, entries, key);
        return Some(entries[key]);
      }
      Missing(list, entries, key);
      return None;
    }

    method MoveToFront(e: Element<V>)
      requires Valid() && e.key in entries && entries[e.key] == e
      modifies this
      ensures Valid() && Footprint() == old(Footprint())
      ensures View() == Promoted(old(View()), e.key, e.value)
    {
      ToFront(list, entries, e);
      list := [e] + Unlinked(list, e);
    }

    method Remove(e: Element<V>)
      requires Valid() && e.key in entries && entries[e.key] == e
      modifies this
      ensures Valid() && Footprint() <= old(Footprint())
      ensures View() == Without(old(View()), e.key)
    {
      Unlink(list, entries, e);
      list := Unlinked(list, e);
      entries := entries - {e.key};
    }

    /** Drop the element at the back, if there is one. */
    method RemoveBack()
      requires Valid()
      modifies this
      ensures Valid() && Footprint() <= old(Footprint()) && entries.Keys <= old(entries.Keys)
      ensures View() == WithoutLast(old(View()))
    {
      if |list| > 0 {
        var tail := list[|list| - 1];
        UnlinkBack(list, entries);
        list := list[..|list| - 1];
        entries := entries - {tail.key};
      }
    }

    method PushFront(key: string, value: V)
      requires Valid() && key !in entries
      modifies this
      ensures Valid() && fresh(Footprint() - old(Footprint()))
      ensures View() == [Binding(key, value)] + old(View())
    {
      var e := new Element(key, value);
      assert ViewOf(list) == old(View());
      Front(list, entries, e);
      list, entries := [e] + list, entries[key := e];
    }

    /** Change the value of a known key in place. */
    method Overwrite(e: Element<V>, value: V)
      requires Valid() && e.key in entries && entries[e.key] == e
      modifies e
      ensures e.value == value
      ensures Without(View(), e.key) == old(Without(View(), e.key))
    {
      ghost var i := Position(list, entries, e.key);
      ghost var others := Cut(list, i);
      ghost var rest := ViewOf(others);
      CutAvoids(list, entries, i);
      e.value := value;
      assert ViewOf(others) == rest;
      PositionAt(list, entries, e.key, i);
    }

    /** The common part of both caches: update and promote, or evict and push. */
    method Store(capacity: int, key: string, value: V)
      requires Valid()
      modifies Footprint()
      ensures Valid() && fresh(Footprint() - old(Footprint()))
      ensures View() == Put(old(View()), capacity, key, value)
    {
      if key in entries {
        ghost var i := Position(list, entries, key);
        var e := entries[key];
        Overwrite(e, value);
        MoveToFront(e);
      } else {
        Missing(list, entries, key);
        if |list| >= capacity {
          RemoveBack();
        }
        PushFront(key, value);
      }
    }
  }
}
