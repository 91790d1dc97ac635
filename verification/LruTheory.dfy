/** The recency list of pkg/resolver/cache.go as a value, front (most recent)
    first, with the laws that hold over every history of operations. */
module LruTheory {
  import opened Common

  datatype Entry<K, V> = Entry(key: K, val: V, expiresAt: int)

  datatype Op<K, V> =
    | Get(key: K, now: int)
    | Set(key: K, val: V, now: int)
    | Delete(key: K)

  function Find<K(==), V>(s: seq<Entry<K, V>>, k: K): Option<Entry<K, V>> {
    if |s| == 0 then None else if s[0].key == k then Some(s[0]) else Find(s[1..], k)
  }

  function Without<K(==), V>(s: seq<Entry<K, V>>, k: K): seq<Entry<K, V>> {
    if |s| == 0 then [] else if s[0].key == k then Without(s[1..], k) else [s[0]] + Without(s[1..], k)
  }

  predicate Expired<K, V>(ttl: int, e: Entry<K, V>, now: int) {
    ttl > 0 && now > e.expiresAt
  }

  function ExpiryAt(ttl: int, now: int): int {
    if ttl > 0 then now + ttl else 0
  }

  /** What Get answers. */
  function Lookup<K(==), V>(s: seq<Entry<K, V>>, ttl: int, k: K, now: int): Option<V> {
    match Find(s, k)
    case None => None
    case Some(e) => if Expired(ttl, e, now) then None else Some(e.val)
  }

  function AfterGet<K(==), V>(s: seq<Entry<K, V>>, ttl: int, k: K, now: int): seq<Entry<K, V>> {
    match Find(s, k)
    case None => s
    case Some(e) => if Expired(ttl, e, now) then Without(s, k) else [e] + Without(s, k)
  }

  /** Making room for a new key: the oldest entry goes once the list is full. */
  function Room<K, V>(s: seq<Entry<K, V>>, capacity: nat): seq<Entry<K, V>> {
    if |s| >= capacity && |s| > 0 then s[..|s| - 1] else s
  }

  function AfterSet<K(==), V>(s: seq<Entry<K, V>>, capacity: nat, ttl: int, k: K, v: V, now: int): seq<Entry<K, V>> {
    var e := Entry(k, v, ExpiryAt(ttl, now));
    if Find(s, k).Some? then [e] + Without(s, k) else [e] + Room(s, capacity)
  }

  function Step<K(==), V>(s: seq<Entry<K, V>>, capacity: nat, ttl: int, op: Op<K, V>): seq<Entry<K, V>> {
    match op
    case Get(k, now) => AfterGet(s, ttl, k, now)
    case Set(k, v, now) => AfterSet(s, capacity, ttl, k, v, now)
    case Delete(k) => Without(s, k)
  }

  /** The recency list after a whole history, starting empty. */
  function Run<K(==), V>(capacity: nat, ttl: int, ops: seq<Op<K, V>>): seq<Entry<K, V>> {
    if |ops| == 0 then [] else Step(Run(capacity, ttl, ops[..|ops| - 1]), capacity, ttl, ops[|ops| - 1])
  }

  lemma RunExtend<K, V>(capacity: nat, ttl: int, ops: seq<Op<K, V>>, op: Op<K, V>)
    ensures Run(capacity, ttl, ops + [op]) == Step(Run(capacity, ttl, ops), capacity, ttl, op)
  {
    assert (ops + [op])[..|ops|] == ops;
  }

  /** No key occurs twice. */
  predicate DistinctKeys<K(==), V>(s: seq<Entry<K, V>>) {
    |s| == 0 || (Find(s[1..], s[0].key).None? && DistinctKeys(s[1..]))
  }

  lemma Prepend<K, V>(e: Entry<K, V>, s: seq<Entry<K, V>>, k: K)
    ensures Find([e] + s, k) == if e.key == k then Some(e) else Find(s, k)
    ensures DistinctKeys([e] + s) <==> Find(s, e.key).None? && DistinctKeys(s)
  {
    assert ([e] + s)[1..] == s;
  }

  lemma {:induction false} FindWithout<K, V>(s: seq<Entry<K, V>>, k: K, x: K)
    ensures Find(Without(s, k), x) == if x == k then None else Find(s, x)
  {
    if |s| > 0 {
      FindWithout(s[1..], k, x);
      Prepend(s[0], Without(s[1..], k), x);
    }
  }

  /** Taking a key out keeps the others distinct and shortens the list by one
      exactly when the key was there. */
  lemma {:induction false} WithoutDistinct<K, V>(s: seq<Entry<K, V>>, k: K)
    requires DistinctKeys(s)
    ensures DistinctKeys(Without(s, k))
    ensures |Without(s, k)| == if Find(s, k).Some? then |s| - 1 else |s|
    ensures Find(s, k).None? ==> Without(s, k) == s
  {
    if |s| > 0 {
      WithoutDistinct(s[1..], k);
      FindWithout(s[1..], k, s[0].key);
      Prepend(s[0], Without(s[1..], k), k);
    }
  }

  lemma {:induction false} FindDropLast<K, V>(s: seq<Entry<K, V>>, k: K)
    requires |s| > 0
    ensures Find(s[..|s| - 1], k).None? || Find(s[..|s| - 1], k) == Find(s, k)
    ensures DistinctKeys(s) ==> DistinctKeys(s[..|s| - 1])
  {
    if |s| > 1 {
      var t := s[..|s| - 1];
      assert t[1..] == s[1..][..|s| - 2];
      FindDropLast(s[1..], k);
      FindDropLast(s[1..], s[0].key);
    }
  }

  /** Distinct keys in the plain sense: two positions never share a key. */
  lemma {:induction false} DistinctPositions<K, V>(s: seq<Entry<K, V>>, i: nat, j: nat)
    requires DistinctKeys(s) && i < j < |s|
    ensures s[i].key != s[j].key
  {
    if i == 0 {
      FindAt(s[1..], j - 1);
    } else {
      DistinctPositions(s[1..], i - 1, j - 1);
    }
  }

  lemma {:induction false} FindAt<K, V>(s: seq<Entry<K, V>>, j: nat)
    requires j < |s|
    ensures Find(s, s[j].key).Some?
  {
    if j > 0 {
      FindAt(s[1..], j - 1);
    }
  }

  /** s can be obtained from l by leaving entries out. */
  ghost predicate IsSub<T>(s: seq<T>, l: seq<T>) {
    |s| == 0 ||
    (|l| > 0 && ((s[0] == l[0] && IsSub(s[1..], l[1..])) || IsSub(s, l[1..])))
  }

  lemma SubPrepend<T>(s: seq<T>, l: seq<T>, x: T)
    requires IsSub(s, l)
    ensures IsSub([x] + s, [x] + l) && IsSub(s, [x] + l)
  {
    assert ([x] + s)[1..] == s && ([x] + l)[1..] == l;
  }

  lemma {:induction false} SubWithout<K, V>(s: seq<Entry<K, V>>, l: seq<Entry<K, V>>, k: K)
    requires IsSub(s, l)
    ensures IsSub(Without(s, k), Without(l, k))
  {
    if |s| > 0 {
      if s[0] == l[0] && IsSub(s[1..], l[1..]) {
        SubWithout(s[1..], l[1..], k);
        SubPrepend(Without(s[1..], k), Without(l[1..], k), s[0]);
      } else {
        SubWithout(s, l[1..], k);
        SubPrepend(Without(s, k), Without(l[1..], k), l[0]);
      }
    }
  }

  /** Dropping the oldest entry on both sides, or on the small side only. */
  lemma {:induction false} SubDropLast<T>(s: seq<T>, l: seq<T>)
    requires IsSub(s, l) && |s| > 0
    ensures |l| > 0 && IsSub(s[..|s| - 1], l[..|l| - 1]) && IsSub(s[..|s| - 1], l)
  {
    var s', l' := s[..|s| - 1], l[..|l| - 1];
    if s[0] == l[0] && IsSub(s[1..], l[1..]) {
      if |s| > 1 {
        SubDropLast(s[1..], l[1..]);
        assert s'[1..] == s[1..][..|s| - 2] && l'[1..] == l[1..][..|l| - 2];
      }
    } else {
      SubDropLast(s, l[1..]);
      assert l'[1..] == l[1..][..|l| - 2];
    }
  }

  /** The relation the inclusion law keeps: the small list is embedded in the
      large one, entry for entry, and the gap in length is at most the gap in
      capacity. */
  ghost predicate Included<K, V>(s: seq<Entry<K, V>>, l: seq<Entry<K, V>>, small: nat, large: nat) {
    && DistinctKeys(s) && DistinctKeys(l)
    && IsSub(s, l)
    && |s| <= small && |l| <= large
    && |l| - |s| <= large - small
  }

  lemma {:induction false} FindIncluded<K, V>(s: seq<Entry<K, V>>, l: seq<Entry<K, V>>, k: K)
    requires DistinctKeys(l) && IsSub(s, l) && Find(s, k).Some?
    ensures Find(l, k) == Find(s, k)
  {
    if s[0] == l[0] && IsSub(s[1..], l[1..]) {
      if s[0].key != k {
        FindIncluded(s[1..], l[1..], k);
      }
    } else {
      FindIncluded(s, l[1..], k);
    }
  }

  /** Moving a found entry to the front. */
  lemma MoveToFront<K, V>(s: seq<Entry<K, V>>, e: Entry<K, V>)
    requires DistinctKeys(s) && Find(s, e.key).Some?
    ensures DistinctKeys([e] + Without(s, e.key)) && |[e] + Without(s, e.key)| == |s|
  {
    WithoutDistinct(s, e.key);
    FindWithout(s, e.key, e.key);
    Prepend(e, Without(s, e.key), e.key);
  }

  lemma {:induction false} FoundKey<K, V>(s: seq<Entry<K, V>>, k: K)
    requires Find(s, k).Some?
    ensures Find(s, k).value.key == k
  {
    if s[0].key != k {
      FoundKey(s[1..], k);
    }
  }

  lemma WithoutKeepsInclusion<K, V>(s: seq<Entry<K, V>>, l: seq<Entry<K, V>>, small: nat, large: nat, k: K)
    requires Included(s, l, small, large)
    ensures Included(Without(s, k), Without(l, k), small, large)
  {
    WithoutDistinct(s, k);
    WithoutDistinct(l, k);
    SubWithout(s, l, k);
    if Find(s, k).Some? {
      FindIncluded(s, l, k);
    }
  }

  lemma GetKeepsInclusion<K, V>(s: seq<Entry<K, V>>, l: seq<Entry<K, V>>, small: nat, large: nat,
                                ttl: int, k: K, now: int)
    requires Included(s, l, small, large)
    ensures Included(AfterGet(s, ttl, k, now), AfterGet(l, ttl, k, now), small, large)
    ensures Lookup(s, ttl, k, now).Some? ==> Lookup(l, ttl, k, now) == Lookup(s, ttl, k, now)
  {
    WithoutKeepsInclusion(s, l, small, large, k);
    if Find(s, k).Some? {
      var e := Find(s, k).value;
      FindIncluded(s, l, k);
      FoundKey(s, k);
      if !Expired(ttl, e, now) {
        MoveToFront(s, e);
        MoveToFront(l, e);
        SubPrepend(Without(s, k), Without(l, k), e);
      }
    } else {
      WithoutDistinct(s, k);
      if Find(l, k).Some? {
        var e := Find(l, k).value;
        FoundKey(l, k);
        if !Expired(ttl, e, now) {
          MoveToFront(l, e);
          SubPrepend(s, Without(l, k), e);
        }
      }
    }
  }

  lemma RoomDistinct<K, V>(s: seq<Entry<K, V>>, capacity: nat, e: Entry<K, V>)
    requires DistinctKeys(s) && Find(s, e.key).None?
    ensures DistinctKeys([e] + Room(s, capacity))
  {
    if |s| > 0 {
      FindDropLast(s, e.key);
    }
    Prepend(e, Room(s, capacity), e.key);
  }

  lemma SetKeepsInclusion<K, V>(s: seq<Entry<K, V>>, l: seq<Entry<K, V>>, small: nat, large: nat,
                                ttl: int, k: K, v: V, now: int)
    requires 1 <= small <= large && Included(s, l, small, large)
    ensures Included(AfterSet(s, small, ttl, k, v, now), AfterSet(l, large, ttl, k, v, now), small, large)
  {
    var e := Entry(k, v, ExpiryAt(ttl, now));
    WithoutKeepsInclusion(s, l, small, large, k);
    if Find(s, k).Some? {
      FindIncluded(s, l, k);
      MoveToFront(s, e);
      MoveToFront(l, e);
      SubPrepend(Without(s, k), Without(l, k), e);
    } else {
      WithoutDistinct(s, k);
      RoomDistinct(s, small, e);
      if Find(l, k).Some? {
        MoveToFront(l, e);
        SubRoom(s, Without(l, k), small);
        SubPrepend(Room(s, small), Without(l, k), e);
      } else {
        RoomDistinct(l, large, e);
        WithoutDistinct(l, k);
        SubBothRoom(s, l, small, large);
        SubPrepend(Room(s, small), Room(l, large), e);
      }
    }
  }

  lemma SubRoom<T, V>(s: seq<Entry<T, V>>, l: seq<Entry<T, V>>, small: nat)
    requires IsSub(s, l)
    ensures IsSub(Room(s, small), l)
  {
    if |s| > 0 {
      SubDropLast(s, l);
    }
  }

  /** When the large list makes room the small one must too. */
  lemma SubBothRoom<K, V>(s: seq<Entry<K, V>>, l: seq<Entry<K, V>>, small: nat, large: nat)
    requires 1 <= small <= large && IsSub(s, l)
    requires |s| <= small && |l| <= large && |l| - |s| <= large - small
    ensures IsSub(Room(s, small), Room(l, large))
  {
    if |s| > 0 {
      SubDropLast(s, l);
    }
  }

  /** One operation keeps the inclusion. */
  lemma StepKeepsInclusion<K, V>(s: seq<Entry<K, V>>, l: seq<Entry<K, V>>, small: nat, large: nat,
                                 ttl: int, op: Op<K, V>)
    requires 1 <= small <= large && Included(s, l, small, large)
    ensures Included(Step(s, small, ttl, op), Step(l, large, ttl, op), small, large)
  {
    match op
    case Get(k, now) => GetKeepsInclusion(s, l, small, large, ttl, k, now);
    case Set(k, v, now) => SetKeepsInclusion(s, l, small, large, ttl, k, v, now);
    case Delete(k) => WithoutKeepsInclusion(s, l, small, large, k);
  }

  /** LRU inclusion, for every history: the recency list of the smaller cache is
      a subsequence of the larger one's, with equal values and expiries. */
  lemma {:induction false} Inclusion<K, V>(small: nat, large: nat, ttl: int, ops: seq<Op<K, V>>)
    requires 1 <= small <= large
    ensures Included(Run(small, ttl, ops), Run(large, ttl, ops), small, large)
  {
    if |ops| > 0 {
      Inclusion(small, large, ttl, ops[..|ops| - 1]);
      StepKeepsInclusion(Run(small, ttl, ops[..|ops| - 1]), Run(large, ttl, ops[..|ops| - 1]),
                         small, large, ttl, ops[|ops| - 1]);
    }
  }

  /** A larger cache never loses a hit. */
  lemma LargerCacheHitsToo<K, V>(small: nat, large: nat, ttl: int, ops: seq<Op<K, V>>, k: K, now: int)
    requires 1 <= small <= large
    requires Lookup(Run(small, ttl, ops), ttl, k, now).Some?
    ensures Lookup(Run(large, ttl, ops), ttl, k, now) == Lookup(Run(small, ttl, ops), ttl, k, now)
  {
    Inclusion(small, large, ttl, ops);
    GetKeepsInclusion(Run(small, ttl, ops), Run(large, ttl, ops), small, large, ttl, k, now);
  }

  // ---------------------------------------------------------------------
  // What the list holds, in terms of the history alone
  // ---------------------------------------------------------------------

  /** The last value written to k and its expiry, unless deleted since. */
  function LastSet<K(==), V>(ttl: int, ops: seq<Op<K, V>>, k: K): Option<Entry<K, V>> {
    if |ops| == 0 then None
    else
      match ops[|ops| - 1]
      case Set(k', v, now) =>
        if k' == k then Some(Entry(k, v, ExpiryAt(ttl, now))) else LastSet(ttl, ops[..|ops| - 1], k)
      case Delete(k') => if k' == k then None else LastSet(ttl, ops[..|ops| - 1], k)
      case Get(_, _) => LastSet(ttl, ops[..|ops| - 1], k)
  }

  /** Every history leaves distinct keys, at most capacity of them. */
  lemma {:induction false} RunWithinCapacity<K, V>(capacity: nat, ttl: int, ops: seq<Op<K, V>>)
    requires capacity >= 1
    ensures DistinctKeys(Run(capacity, ttl, ops)) && |Run(capacity, ttl, ops)| <= capacity
    ensures var s := Run(capacity, ttl, ops); forall i, j :: 0 <= i < j < |s| ==> s[i].key != s[j].key
  {
    Inclusion(capacity, capacity, ttl, ops);
    var s := Run(capacity, ttl, ops);
    forall i, j | 0 <= i < j < |s|
      ensures s[i].key != s[j].key
    {
      DistinctPositions(s, i, j);
    }
  }

  /** How many listed entries have not expired. */
  function Live<K, V>(s: seq<Entry<K, V>>, ttl: int, now: int): (n: nat)
    ensures n <= |s|
  {
    if |s| == 0 then 0 else (if Expired(ttl, s[0], now) then 0 else 1) + Live(s[1..], ttl, now)
  }

  ghost predicate NoneExpired<K, V>(s: seq<Entry<K, V>>, ttl: int, now: int) {
    forall e :: e in s ==> !Expired(ttl, e, now)
  }

  /** The list length is the number of non-expired entries exactly when none has
      expired. */
  lemma {:induction false} LengthIsLiveIff<K, V>(s: seq<Entry<K, V>>, ttl: int, now: int)
    ensures |s| == Live(s, ttl, now) <==> NoneExpired(s, ttl, now)
  {
    if |s| > 0 {
      LengthIsLiveIff(s[1..], ttl, now);
      assert forall e :: e in s <==> e == s[0] || e in s[1..];
    }
  }

  /** One entry set at 0 with a lifetime of 10 is still counted at 11. */
  lemma ExpiredStillCounted()
    ensures var s := Run(4, 10, [Op<int, int>.Set(1, 7, 0)]); |s| == 1 && Live(s, 10, 11) == 0
  {
    var ops := [Op<int, int>.Set(1, 7, 0)];
    assert ops[..0] == [];
    var s := Run(4, 10, ops);
    assert s == [Entry(1, 7, 10)];
    assert s[1..] == [];
  }

  /** What key k maps to after one operation, when it is still there. */
  lemma StepFind<K, V>(s: seq<Entry<K, V>>, capacity: nat, ttl: int, op: Op<K, V>, k: K)
    requires DistinctKeys(s) && Find(Step(s, capacity, ttl, op), k).Some?
    ensures op.Set? && op.key == k ==>
      Find(Step(s, capacity, ttl, op), k) == Some(Entry(k, op.val, ExpiryAt(ttl, op.now)))
    ensures !(op.Set? && op.key == k) ==>
      Find(Step(s, capacity, ttl, op), k) == Find(s, k) && !(op.Delete? && op.key == k)
  {
    FindWithout(s, op.key, k);
    match op
    case Get(k', now) =>
      if Find(s, k').Some? {
        FoundKey(s, k');
        Prepend(Find(s, k').value, Without(s, k'), k);
      }
    case Set(k', v, now) =>
      var e := Entry(k', v, ExpiryAt(ttl, now));
      Prepend(e, Without(s, k'), k);
      Prepend(e, Room(s, capacity), k);
      if |s| > 0 {
        FindDropLast(s, k);
      }
    case Delete(_) =>
  }

  /** Nothing stale is ever kept: after every history, an entry still in the list
      is the one the last Set of its key wrote, with that Set's expiry, and the
      key was not deleted since. */
  lemma {:induction false} EntryIsLastSet<K, V>(capacity: nat, ttl: int, ops: seq<Op<K, V>>, k: K)
    requires capacity >= 1 && Find(Run(capacity, ttl, ops), k).Some?
    ensures LastSet(ttl, ops, k) == Find(Run(capacity, ttl, ops), k)
  {
    if |ops| > 0 {
      var before := ops[..|ops| - 1];
      var op := ops[|ops| - 1];
      RunWithinCapacity(capacity, ttl, before);
      StepFind(Run(capacity, ttl, before), capacity, ttl, op, k);
      if !(op.Set? && op.key == k) {
        EntryIsLastSet(capacity, ttl, before, k);
      }
    }
  }

  // ---------------------------------------------------------------------
  // What Get answers, and in what order keys are kept
  // ---------------------------------------------------------------------

  /** Right after a Set, and for exactly its lifetime, Get answers its value. */
  lemma LookupAfterSet<K, V>(capacity: nat, ttl: int, ops: seq<Op<K, V>>, k: K, v: V, t: int, now: int)
    requires capacity >= 1
    ensures Lookup(Run(capacity, ttl, ops + [Op.Set(k, v, t)]), ttl, k, now) ==
            if ttl > 0 && now > t + ttl then None else Some(v)
  {
    RunExtend(capacity, ttl, ops, Op.Set(k, v, t));
    var s := Run(capacity, ttl, ops);
    var e := Entry(k, v, ExpiryAt(ttl, t));
    Prepend(e, Without(s, k), k);
    Prepend(e, Room(s, capacity), k);
  }

  predicate Writes<K(==), V>(op: Op<K, V>, k: K) {
    !op.Get? && op.key == k
  }

  /** Operation i is the last that wrote or deleted k, and it was a Set. */
  ghost predicate LastSetAt<K, V>(ops: seq<Op<K, V>>, k: K, i: nat) {
    && i < |ops| && ops[i].Set? && ops[i].key == k
    && forall j :: i < j < |ops| ==> !Writes(ops[j], k)
  }

  lemma {:induction false} LastSetFound<K, V>(ttl: int, ops: seq<Op<K, V>>, k: K) returns (i: nat)
    requires LastSet(ttl, ops, k).Some?
    ensures LastSetAt(ops, k, i)
    ensures LastSet(ttl, ops, k) == Some(Entry(k, ops[i].val, ExpiryAt(ttl, ops[i].now)))
  {
    var n := |ops| - 1;
    if ops[n].Set? && ops[n].key == k {
      i := n;
    } else {
      i := LastSetFound(ttl, ops[..n], k);
    }
  }

  lemma LastSetUnique<K, V>(ops: seq<Op<K, V>>, k: K, i: nat, j: nat)
    requires LastSetAt(ops, k, i) && LastSetAt(ops, k, j)
    ensures i == j
  {
    assert Writes(ops[i], k) && Writes(ops[j], k);
  }

  /** After any history a key still listed was set, and Get answers the value of that
      last Set until its lifetime has passed, and nothing from then on. */
  lemma LookupListed<K, V>(capacity: nat, ttl: int, ops: seq<Op<K, V>>, k: K, now: int) returns (i: nat)
    requires capacity >= 1 && Find(Run(capacity, ttl, ops), k).Some?
    ensures LastSetAt(ops, k, i) && forall j: nat :: LastSetAt(ops, k, j) ==> j == i
    ensures Lookup(Run(capacity, ttl, ops), ttl, k, now) ==
            if ttl > 0 && now > ops[i].now + ttl then None else Some(ops[i].val)
  {
    EntryIsLastSet(capacity, ttl, ops, k);
    i := LastSetFound(ttl, ops, k);
    forall j: nat | LastSetAt(ops, k, j)
      ensures j == i
    {
      LastSetUnique(ops, k, i, j);
    }
  }

  /** The order of keys after one more operation, with or without expiry: a hit or a
      Set moves its key to the front, a Set beyond capacity loses the last key, a Get
      of an expired key and a Delete take their key out, and all others keep their
      order. */
  lemma KeysAfter<K, V>(capacity: nat, ttl: int, ops: seq<Op<K, V>>, op: Op<K, V>)
    requires capacity >= 1
    ensures var before, k := KeysOf(Run(capacity, ttl, ops)), op.key;
      KeysOf(Run(capacity, ttl, ops + [op])) ==
      if op.Set? then Take([k] + Drop(before, k), capacity)
      else if op.Get? && Lookup(Run(capacity, ttl, ops), ttl, k, op.now).Some? then [k] + Drop(before, k)
      else Drop(before, k)
  {
    RunExtend(capacity, ttl, ops, op);
    RunWithinCapacity(capacity, ttl, ops);
    StepKeys(Run(capacity, ttl, ops), capacity, ttl, op);
  }

  lemma StepKeys<K, V>(s: seq<Entry<K, V>>, capacity: nat, ttl: int, op: Op<K, V>)
    requires capacity >= 1 && DistinctKeys(s) && |s| <= capacity
    ensures KeysOf(Step(s, capacity, ttl, op)) ==
      if op.Set? then Take([op.key] + Drop(KeysOf(s), op.key), capacity)
      else if op.Get? && Lookup(s, ttl, op.key, op.now).Some? then [op.key] + Drop(KeysOf(s), op.key)
      else Drop(KeysOf(s), op.key)
  {
    hide AfterSet, AfterGet, Lookup, Take, Drop;
    match op
    case Get(k, now) => GetKeys(s, ttl, k, now);
    case Set(k, v, now) => SetKeys(s, capacity, ttl, k, v, now);
    case Delete(k) => KeysWithout(s, k);
  }

  lemma GetKeys<K, V>(s: seq<Entry<K, V>>, ttl: int, k: K, now: int)
    requires DistinctKeys(s)
    ensures KeysOf(AfterGet(s, ttl, k, now)) ==
            if Lookup(s, ttl, k, now).Some? then [k] + Drop(KeysOf(s), k) else Drop(KeysOf(s), k)
  {
    KeysWithout(s, k);
    WithoutDistinct(s, k);
    hide Find, Without, Drop, KeysOf, DistinctKeys;
    if Find(s, k).Some? {
      FoundKey(s, k);
      KeysPrepend(Find(s, k).value, Without(s, k));
    }
  }

  lemma SetKeys<K, V>(s: seq<Entry<K, V>>, capacity: nat, ttl: int, k: K, v: V, now: int)
    requires capacity >= 1 && DistinctKeys(s) && |s| <= capacity
    ensures KeysOf(AfterSet(s, capacity, ttl, k, v, now)) == Take([k] + Drop(KeysOf(s), k), capacity)
  {
    KeysWithout(s, k);
    WithoutDistinct(s, k);
    var e := Entry(k, v, ExpiryAt(ttl, now));
    hide Find, Without, Drop, KeysOf, DistinctKeys, Take, ExpiryAt;
    TakeShort(Drop(KeysOf(s), k), k, capacity);
    if Find(s, k).Some? {
      KeysPrepend(e, Without(s, k));
    } else {
      KeysPrepend(e, Room(s, capacity));
      if |s| >= capacity {
        KeysDropLast(s);
        TakeFull(KeysOf(s), k, capacity);
      }
    }
  }

  lemma TakeShort<K>(keys: seq<K>, k: K, n: nat)
    ensures |keys| < n ==> Take([k] + keys, n) == [k] + keys
  {
  }

  lemma TakeFull<K>(keys: seq<K>, k: K, n: nat)
    requires |keys| == n >= 1
    ensures Take([k] + keys, n) == [k] + keys[..n - 1]
  {
  }

  lemma KeysPrepend<K, V>(e: Entry<K, V>, s: seq<Entry<K, V>>)
    ensures KeysOf([e] + s) == [e.key] + KeysOf(s)
  {
    assert ([e] + s)[1..] == s;
  }

  /** The keys touched by a Set or a hit, most recent first. */
  function Touches<K(==), V>(capacity: nat, ops: seq<Op<K, V>>): seq<K> {
    if |ops| == 0 then []
    else
      var before := ops[..|ops| - 1];
      var op := ops[|ops| - 1];
      if op.Set? || (op.Get? && Find(Run(capacity, 0, before), op.key).Some?)
      then [op.key] + Touches(capacity, before)
      else Touches(capacity, before)
  }

  function Drop<K(==)>(s: seq<K>, k: K): seq<K> {
    if |s| == 0 then [] else if s[0] == k then Drop(s[1..], k) else [s[0]] + Drop(s[1..], k)
  }

  /** First occurrences only. */
  function Distinct<K(==)>(s: seq<K>): seq<K> {
    if |s| == 0 then [] else [s[0]] + Drop(Distinct(s[1..]), s[0])
  }

  function Take<T>(s: seq<T>, n: nat): seq<T> {
    if |s| <= n then s else s[..n]
  }

  function KeysOf<K, V>(s: seq<Entry<K, V>>): (ks: seq<K>)
    ensures |ks| == |s|
    ensures forall i :: 0 <= i < |s| ==> ks[i] == s[i].key
  {
    if |s| == 0 then [] else [s[0].key] + KeysOf(s[1..])
  }

  /** No key occurs twice, read front to back. */
  predicate Fresh<K(==)>(s: seq<K>) {
    |s| == 0 || (s[0] !in s[1..] && Fresh(s[1..]))
  }

  lemma {:induction false} DropMember<K>(s: seq<K>, k: K, x: K)
    ensures x in Drop(s, k) <==> x in s && x != k
  {
    if |s| > 0 {
      DropMember(s[1..], k, x);
    }
  }

  lemma {:induction false} DropFresh<K>(s: seq<K>, k: K)
    requires Fresh(s)
    ensures Fresh(Drop(s, k))
    ensures k !in s ==> Drop(s, k) == s
  {
    if |s| > 0 {
      DropFresh(s[1..], k);
      DropMember(s[1..], k, s[0]);
      assert ([s[0]] + Drop(s[1..], k))[1..] == Drop(s[1..], k);
    }
  }

  lemma {:induction false} DistinctFresh<K>(s: seq<K>)
    ensures Fresh(Distinct(s))
  {
    if |s| > 0 {
      DistinctFresh(s[1..]);
      var d := Drop(Distinct(s[1..]), s[0]);
      DropFresh(Distinct(s[1..]), s[0]);
      DropMember(Distinct(s[1..]), s[0], s[0]);
      assert ([s[0]] + d)[1..] == d;
    }
  }

  lemma {:induction false} KeysWithout<K, V>(s: seq<Entry<K, V>>, k: K)
    ensures KeysOf(Without(s, k)) == Drop(KeysOf(s), k)
    ensures Find(s, k).Some? <==> k in KeysOf(s)
  {
    if |s| > 0 {
      KeysWithout(s[1..], k);
      assert KeysOf(s)[1..] == KeysOf(s[1..]);
      assert ([s[0]] + Without(s[1..], k))[1..] == Without(s[1..], k);
    }
  }

  lemma {:induction false} KeysDropLast<K, V>(s: seq<Entry<K, V>>)
    requires |s| > 0
    ensures KeysOf(s[..|s| - 1]) == KeysOf(s)[..|s| - 1]
  {
  }

  /** Keeping the first n + 1 keys and then taking out one of them leaves what
      taking it out first and keeping n would. */
  lemma {:induction false} TakeDropIn<K>(d: seq<K>, n: nat, k: K)
    requires Fresh(d) && k in Take(d, n + 1)
    ensures Drop(Take(d, n + 1), k) == Take(Drop(d, k), n)
  {
    assert Take(d, n + 1)[0] == d[0] && Take(d, n + 1)[1..] == Take(d[1..], n);
    if d[0] == k {
      DropFresh(d[1..], k);
      AbsentFromTake(d[1..], n, k);
    } else {
      TakeDropIn(d[1..], n - 1, k);
      assert Take(Drop(d, k), n) == [d[0]] + Take(Drop(d[1..], k), n - 1);
    }
  }

  lemma {:induction false} AbsentFromTake<K>(d: seq<K>, n: nat, k: K)
    requires k !in d
    ensures Drop(Take(d, n), k) == Take(d, n)
  {
    if |d| > 0 && n > 0 {
      assert Take(d, n)[0] == d[0] && Take(d, n)[1..] == Take(d[1..], n - 1);
      AbsentFromTake(d[1..], n - 1, k);
    }
  }

  /** Taking out a key beyond the first n leaves the first n alone. */
  lemma {:induction false} TakeDropOut<K>(d: seq<K>, n: nat, k: K)
    requires Fresh(d) && k !in Take(d, n)
    ensures Take(Drop(d, k), n) == Take(d, n)
  {
    if |d| > 0 && n > 0 {
      assert Take(d, n)[0] == d[0] && Take(d, n)[1..] == Take(d[1..], n - 1);
      TakeDropOut(d[1..], n - 1, k);
      assert Take(Drop(d, k), n) == [d[0]] + Take(Drop(d[1..], k), n - 1);
    }
  }

  /** One Set or hit, seen on keys only. */
  lemma TouchMovesToFront<K, V>(s: seq<Entry<K, V>>, capacity: nat, d: seq<K>, op: Op<K, V>)
    requires capacity >= 1 && Fresh(d) && KeysOf(s) == Take(d, capacity)
    requires op.Set? || (op.Get? && Find(s, op.key).Some?)
    ensures KeysOf(Step(s, capacity, 0, op)) == Take([op.key] + Drop(d, op.key), capacity)
  {
    var k := op.key;
    KeysWithout(s, k);
    assert Take([k] + Drop(d, k), capacity) == [k] + Take(Drop(d, k), capacity - 1);
    if Find(s, k).Some? {
      FoundKey(s, k);
      TakeDropIn(d, capacity - 1, k);
      assert Step(s, capacity, 0, op)[1..] == Without(s, k);
    } else {
      RoomKeys(s, capacity, d, k);
      assert Step(s, capacity, 0, op)[1..] == Room(s, capacity);
    }
  }

  /** Making room for a new key keeps the first capacity - 1 keys. */
  lemma RoomKeys<K, V>(s: seq<Entry<K, V>>, capacity: nat, d: seq<K>, k: K)
    requires capacity >= 1 && Fresh(d) && KeysOf(s) == Take(d, capacity)
    requires k !in KeysOf(s)
    ensures KeysOf(Room(s, capacity)) == Take(Drop(d, k), capacity - 1)
  {
    if |s| >= capacity {
      KeysDropLast(s);
      assert Take(d, capacity)[..capacity - 1] == Take(d, capacity - 1);
    } else {
      assert Take(d, capacity - 1) == d;
    }
    assert k !in Take(d, capacity - 1) by {
      assert forall x :: x in Take(d, capacity - 1) ==> x in Take(d, capacity);
    }
    TakeDropOut(d, capacity - 1, k);
  }

  /** LRU content, for every history without Delete and with expiry off: the
      list holds exactly the first capacity keys in order of last Set or hit. */
  lemma {:induction false} MostRecentlyTouched<K, V>(capacity: nat, ops: seq<Op<K, V>>)
    requires capacity >= 1
    requires forall i :: 0 <= i < |ops| ==> !ops[i].Delete?
    ensures KeysOf(Run(capacity, 0, ops)) == Take(Distinct(Touches(capacity, ops)), capacity)
  {
    if |ops| > 0 {
      var before := ops[..|ops| - 1];
      var op := ops[|ops| - 1];
      MostRecentlyTouched(capacity, before);
      var s := Run(capacity, 0, before);
      if op.Set? || Find(s, op.key).Some? {
        DistinctFresh(Touches(capacity, before));
        TouchMovesToFront(s, capacity, Distinct(Touches(capacity, before)), op);
        assert ([op.key] + Touches(capacity, before))[1..] == Touches(capacity, before);
      }
    }
  }
}
