/** pkg/resolver/cache.go: the cache as a map into a recency list of shared
    entry objects, proved against the list laws of LruTheory. */
module LruCache {
  import opened Common
  import opened LruTheory

  /** A list element: the map and the list hold the same object. */
  class CacheEntry<K, V> {
    const key: K
    var val: V
    var expiresAt: int

    constructor (k: K, v: V, expiry: int)
      ensures key == k && val == v && expiresAt == expiry
    {
      key, val, expiresAt := k, v, expiry;
    }
  }

  /** The contents of a list of entry objects. */
  ghost function View<K, V>(list: seq<CacheEntry<K, V>>): (s: seq<Entry<K, V>>)
    reads list
    ensures |s| == |list|
  {
    if |list| == 0 then [] else [Entry(list[0].key, list[0].val, list[0].expiresAt)] + View(list[1..])
  }

  /** No two list positions carry the same key. */
  ghost predicate KeysApart<K, V>(list: seq<CacheEntry<K, V>>) {
    |list| == 0 || (KeyAbsent(list[1..], list[0].key) && KeysApart(list[1..]))
  }

  ghost predicate KeyAbsent<K, V>(list: seq<CacheEntry<K, V>>, k: K) {
    forall e :: e in list ==> e.key != k
  }

  /** The list without one of its elements. */
  function Unlink<K, V>(list: seq<CacheEntry<K, V>>, elem: CacheEntry<K, V>): seq<CacheEntry<K, V>> {
    if |list| == 0 then [] else if list[0] == elem then list[1..] else [list[0]] + Unlink(list[1..], elem)
  }

  lemma {:induction false} UnlinkElements<K, V>(list: seq<CacheEntry<K, V>>, elem: CacheEntry<K, V>)
    requires KeysApart(list) && elem in list
    ensures KeysApart(Unlink(list, elem)) && |Unlink(list, elem)| == |list| - 1
    ensures forall e :: e in Unlink(list, elem) <==> e in list && e != elem
  {
    assert forall e :: e in list <==> e == list[0] || e in list[1..];
    if list[0] != elem {
      var rest := Unlink(list[1..], elem);
      UnlinkElements(list[1..], elem);
      var all := [list[0]] + rest;
      assert all[0] == list[0] && all[1..] == rest;
      assert KeyAbsent(rest, list[0].key);
      assert KeysApart(all);
      assert forall e :: e in all <==> e == list[0] || e in rest;
    }
  }

  lemma {:induction false} ViewFind<K, V>(list: seq<CacheEntry<K, V>>, elem: CacheEntry<K, V>)
    requires KeysApart(list) && elem in list
    ensures Find(View(list), elem.key) == Some(Entry(elem.key, elem.val, elem.expiresAt))
  {
    if list[0] != elem {
      ViewFind(list[1..], elem);
    }
  }

  lemma {:induction false} ViewAbsent<K, V>(list: seq<CacheEntry<K, V>>, k: K)
    requires KeyAbsent(list, k)
    ensures Find(View(list), k).None? && Without(View(list), k) == View(list)
  {
    if |list| > 0 {
      ViewAbsent(list[1..], k);
    }
  }

  lemma {:induction false} ViewUnlink<K, V>(list: seq<CacheEntry<K, V>>, elem: CacheEntry<K, V>)
    requires KeysApart(list) && elem in list
    ensures View(Unlink(list, elem)) == Without(View(list), elem.key)
  {
    if list[0] == elem {
      ViewAbsent(list[1..], elem.key);
    } else {
      ViewUnlink(list[1..], elem);
    }
  }

  lemma {:induction false} UnlinkLast<K, V>(list: seq<CacheEntry<K, V>>)
    requires |list| > 0 && KeysApart(list)
    ensures Unlink(list, list[|list| - 1]) == list[..|list| - 1]
    ensures View(list[..|list| - 1]) == View(list)[..|list| - 1]
  {
    if |list| > 1 {
      UnlinkLast(list[1..]);
      assert list[..|list| - 1][1..] == list[1..][..|list| - 2];
    }
  }

  class Cache<K(==), V> {
    const capacity: nat
    const ttl: int
    var items: map<K, CacheEntry<K, V>>
    /** Most recently used first. */
    var evictList: seq<CacheEntry<K, V>>
    var hits: nat
    var misses: nat
    /** Every operation so far. */
    ghost var history: seq<Op<K, V>>

    /** Map and list are in bijection, and the list fits the capacity. */
    ghost predicate Valid()
      reads this
    {
      && capacity >= 1
      && |evictList| <= capacity
      && KeysApart(evictList)
      && (forall e :: e in evictList ==> e.key in items && items[e.key] == e)
      && (forall k :: k in items ==> items[k] in evictList && items[k].key == k)
    }

    ghost function Contents(): seq<Entry<K, V>>
      reads this, evictList
    {
      View(evictList)
    }

    /** The cache holds what running its whole history on values leaves. */
    ghost predicate Tracks()
      reads this, evictList
    {
      Valid() && Contents() == Run(capacity, ttl, history)
    }

    constructor (requested: int, ttl: int)
      ensures Tracks() && history == [] && hits == misses == 0
      ensures capacity == (if requested <= 0 then 1024 else requested) && this.ttl == ttl
    {
      capacity := if requested <= 0 then 1024 else requested;
      this.ttl := ttl;
      items := map[];
      evictList := [];
      hits, misses, history := 0, 0, [];
    }

    /** Unlinks elem from the list and the map. */
    method RemoveElement(elem: CacheEntry<K, V>)
      requires Valid() && elem in evictList
      modifies this`items, this`evictList
      ensures Valid() && Contents() == Without(old(Contents()), elem.key)
      ensures evictList == Unlink(old(evictList), elem) && elem.key !in items
    {
      UnlinkElements(evictList, elem);
      ViewUnlink(evictList, elem);
      evictList := Unlink(evictList, elem);
      items := items - {elem.key};
    }

    method EvictOldest()
      requires Valid()
      modifies this`items, this`evictList
      ensures Valid()
      ensures |old(evictList)| > 0 ==>
        && evictList == old(evictList)[..|old(evictList)| - 1]
        && Contents() == old(Contents())[..|old(evictList)| - 1]
      ensures |old(evictList)| == 0 ==> evictList == []
      ensures items.Keys <= old(items.Keys)
    {
      if |evictList| > 0 {
        UnlinkLast(evictList);
        RemoveElement(evictList[|evictList| - 1]);
      }
    }

    method GetEntry(key: K, now: int) returns (val: Option<V>)
      requires Valid()
      modifies this`items, this`evictList, this`hits, this`misses
      ensures Valid()
      ensures val == Lookup(old(Contents()), ttl, key, now)
      ensures Contents() == AfterGet(old(Contents()), ttl, key, now)
      ensures hits == old(hits) + (if val.Some? then 1 else 0)
      ensures misses == old(misses) + (if val.Some? then 0 else 1)
    {
      if key !in items {
        ViewAbsent(evictList, key);
        misses := misses + 1;
        return None;
      }
      var elem := items[key];
      ViewFind(evictList, elem);
      if ttl > 0 && now > elem.expiresAt {
        RemoveElement(elem);
        misses := misses + 1;
        return None;
      }
      MoveElementToFront(elem);
      hits := hits + 1;
      return Some(elem.val);
    }

    method MoveElementToFront(elem: CacheEntry<K, V>)
      requires Valid() && elem in evictList
      modifies this`evictList
      ensures Valid() && |evictList| > 0 && evictList[0] == elem && elem !in evictList[1..]
      ensures forall e :: e in evictList <==> e in old(evictList)
      ensures View(evictList[1..]) == Without(old(Contents()), elem.key)
      ensures Contents() == [Entry(elem.key, elem.val, elem.expiresAt)] + Without(old(Contents()), elem.key)
    {
      UnlinkElements(evictList, elem);
      ViewUnlink(evictList, elem);
      var rest := Unlink(evictList, elem);
      evictList := [elem] + rest;
      assert evictList[1..] == rest;
    }

    /** Writes a new value and expiry into an entry and makes it most recent. */
    method Refresh(elem: CacheEntry<K, V>, val: V, expiresAt: int)
      requires Valid() && elem in evictList
      modifies this`evictList, elem
      ensures Valid()
      ensures forall e :: e in evictList <==> e in old(evictList)
      ensures Contents() == [Entry(elem.key, val, expiresAt)] + Without(old(Contents()), elem.key)
    {
      MoveElementToFront(elem);
      elem.val := val;
      elem.expiresAt := expiresAt;
      assert View(evictList[1..]) == Without(old(Contents()), elem.key);
    }

    method SetEntry(key: K, val: V, now: int)
      requires Valid()
      modifies this`items, this`evictList, evictList
      ensures Valid() && forall e :: e in evictList ==> e in old(evictList) || fresh(e)
      ensures Contents() == AfterSet(old(Contents()), capacity, ttl, key, val, now)
    {
      hide Find, Without, KeysApart, KeyAbsent;
      var expiresAt := 0;
      if ttl > 0 {
        expiresAt := now + ttl;
      }
      if key in items {
        ViewFind(evictList, items[key]);
        Refresh(items[key], val, expiresAt);
        return;
      }
      ViewAbsent(evictList, key);
      if |evictList| >= capacity {
        EvictOldest();
      }
      PushFront(key, val, expiresAt);
    }

    /** Adds a fresh entry at the front of list and map. */
    method PushFront(key: K, val: V, expiresAt: int)
      requires Valid() && key !in items && |evictList| < capacity
      modifies this`items, this`evictList
      ensures Valid() && |evictList| > 0 && evictList[1..] == old(evictList) && fresh(evictList[0])
      ensures Contents() == [Entry(key, val, expiresAt)] + old(Contents())
    {
      var entry := new CacheEntry(key, val, expiresAt);
      ghost var rest := evictList;
      evictList := [entry] + evictList;
      assert evictList[1..] == rest;
      items := items[key := entry];
    }

    method Get(key: K, now: int) returns (val: Option<V>)
      requires Tracks()
      modifies this
      ensures Tracks() && history == old(history) + [Op.Get(key, now)]
      ensures val == Lookup(Run(capacity, ttl, old(history)), ttl, key, now)
      ensures hits == old(hits) + (if val.Some? then 1 else 0)
      ensures misses == old(misses) + (if val.Some? then 0 else 1)
    {
      RunExtend(capacity, ttl, history, Op.Get(key, now));
      val := GetEntry(key, now);
      history := history + [Op.Get(key, now)];
    }

    method Set(key: K, val: V, now: int)
      requires Tracks()
      modifies this, evictList
      ensures Tracks() && history == old(history) + [Op.Set(key, val, now)]
      ensures forall e :: e in evictList ==> e in old(evictList) || fresh(e)
      ensures hits == old(hits) && misses == old(misses)
    {
      RunExtend(capacity, ttl, history, Op.Set(key, val, now));
      SetEntry(key, val, now);
      history := history + [Op.Set(key, val, now)];
    }

    method Delete(key: K)
      requires Tracks()
      modifies this
      ensures Tracks() && history == old(history) + [Op.Delete(key)]
      ensures hits == old(hits) && misses == old(misses)
    {
      RunExtend(capacity, ttl, history, Op.Delete(key));
      hide Run, Find, Without, KeysApart, KeyAbsent, View;
      DeleteEntry(key);
      history := history + [Op.Delete(key)];
    }

    method DeleteEntry(key: K)
      requires Valid()
      modifies this`items, this`evictList
      ensures Valid() && Contents() == Without(old(Contents()), key)
    {
      hide Find, Without, View;
      if key in items {
        RemoveElement(items[key]);
      } else {
        ViewAbsent(evictList, key);
      }
    }

    /** Documented as the number of non-expired items; it counts all of them. */
    method Len() returns (n: int)
      requires Valid()
      ensures n == |Contents()| == |items| && n <= capacity
      ensures forall now :: n == Live(Contents(), ttl, now) <==> NoneExpired(Contents(), ttl, now)
    {
      n := |evictList|;
      Bijection(evictList, items);
      forall now
        ensures n == Live(Contents(), ttl, now) <==> NoneExpired(Contents(), ttl, now)
      {
        LengthIsLiveIff(Contents(), ttl, now);
      }
    }

    /** A list of distinct keys and the map it fills have the same size. */
    static lemma {:induction false} Bijection(list: seq<CacheEntry<K, V>>, m: map<K, CacheEntry<K, V>>)
      requires KeysApart(list)
      requires forall e :: e in list ==> e.key in m && m[e.key] == e
      requires forall k :: k in m ==> m[k] in list && m[k].key == k
      ensures |m| == |list|
    {
      if |list| == 0 {
        assert m.Keys == {};
        assert |m.Keys| == 0;
      } else {
        var k := list[0].key;
        var rest := m - {k};
        forall e | e in list[1..]
          ensures e.key in rest && rest[e.key] == e
        {
          assert e in list;
        }
        Bijection(list[1..], rest);
        assert rest.Keys == m.Keys - {k};
        assert |rest.Keys| == |m.Keys| - 1;
      }
    }
  }
}
