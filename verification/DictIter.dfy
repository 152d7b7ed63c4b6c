/** Safe iteration over the hash table (redis-stable/src/dict.c:508-564) while the caller adds, finds and deletes. */
module DictIter {
  import opened Bytes
  import opened DictSpec

  /**
    A safe iterator.  Entries are named by their keys, which are unique; entry is the one returned last and next the
    one saved to follow it in its chain.
   */
  datatype Iter<K> = Iter(table: nat, index: int, entry: Option<K>, next: Option<K>)

  function Start<K>(): Iter<K> {
    Iter(0, -1, None, None)
  }

  function TableAt<K, V>(s: State<K, V>, table: nat): Buckets<K, V> {
    if table == 0 then s.ht0.buckets else s.ht1.buckets
  }

  /** The position of a key in its chain, or its length. */
  ghost function Pos<K, V>(c: Chain<K, V>, k: K): (p: nat)
    ensures p <= |c|
  {
    if c == [] || c[0].key == k then 0 else 1 + Pos(c[1..], k)
  }

  /** The key after k in a chain. */
  ghost function After<K, V>(c: Chain<K, V>, k: K): Option<K> {
    if Pos(c, k) + 1 < |c| then Some(c[Pos(c, k) + 1].key) else None
  }

  /**
    dictNext from the end of a chain: the next bucket that is not empty, in the old table and then in the new one.  The
    size of a table is converted to an int.
   */
  ghost function NextBucket<K, V>(s: State<K, V>, it: Iter<K>): (State<K, V>, Iter<K>, Option<K>)
    requires it.index >= -1
    decreases 2 - it.table, |TableAt(s, it.table)| - it.index, 0
  {
    var s1 := if it.index == -1 && it.table == 0 then s.(iterators := s.iterators + 1) else s;
    var i := it.index + 1;
    if i < ToInt(|TableAt(s, it.table)|) then ReadBucket(s1, Iter(it.table, i, None, None))
    else if s.Rehashing() && it.table == 0 && s.ht1.buckets != [] then ReadBucket(s1, Iter(1, 0, None, None))
    else (s1, Iter(it.table, i, None, None), None)
  }

  ghost function ReadBucket<K, V>(s: State<K, V>, it: Iter<K>): (State<K, V>, Iter<K>, Option<K>)
    requires 0 <= it.index < |TableAt(s, it.table)|
    decreases 2 - it.table, |TableAt(s, it.table)| - it.index, 1
  {
    var c := TableAt(s, it.table)[it.index];
    if c == [] then NextBucket(s, it)
    else (s, it.(entry := Some(c[0].key), next := After(c, c[0].key)), Some(c[0].key))
  }

  /** One turn of the loop of dictNext. */
  lemma NextBucketIs<K, V>(s: State<K, V>, it: Iter<K>)
    requires it.index >= -1 && it.entry == None && it.next == None
    requires s.Rehashing() ==> s.ht1.buckets != []
    ensures var s1 := if it.index == -1 && it.table == 0 then s.(iterators := s.iterators + 1) else s;
            var over := it.index + 1 >= ToInt(|TableAt(s, it.table)|);
            var at := if over && s.Rehashing() && it.table == 0 then Iter(1, 0, None, None)
                      else Iter(it.table, it.index + 1, None, None);
            && at.index >= 0
            && NextBucket(s, it)
            == if over && at.table == it.table then (s1, at, None)
               else if TableAt(s, at.table)[at.index] == [] then NextBucket(s1, at)
               else
                 var c := TableAt(s, at.table)[at.index];
                 (s1, at.(entry := Some(c[0].key), next := After(c, c[0].key)), Some(c[0].key))
  {
    hide After, ToInt;
  }

  /** dictNext. */
  ghost function Next<K, V>(s: State<K, V>, it: Iter<K>): (State<K, V>, Iter<K>, Option<K>)
    requires it.index >= -1
  {
    if it.entry.Some? && it.next.Some? && 0 <= it.index < |TableAt(s, it.table)| then
      var c := TableAt(s, it.table)[it.index];
      (s, it.(entry := it.next, next := After(c, it.next.value)), it.next)
    else
      NextBucket(s, it.(entry := None, next := None))
  }

  /** What links an iterator to the table: the saved entry is where the iterator stands, and steps are suspended. */
  ghost predicate IterOk<K(!new), V>(hash: K -> Hash, s: State<K, V>, it: Iter<K>) {
    && Valid(hash, s) && it.table <= 1 && it.index >= -1
    && (it.table == 1 ==> s.Rehashing() && it.index >= 0)
    && (it.index >= 0 ==> s.iterators > 0)
    && (it.next.Some? ==>
          && it.entry.Some? && it.entry != it.next && 0 <= it.index < |TableAt(s, it.table)|
          && FindIn(TableAt(s, it.table)[it.index], it.next.value).Some?)
  }

  /** Key k, found in the given table, is still to be returned. */
  ghost predicate PendingIn<K, V>(hash: K -> Hash, s: State<K, V>, it: Iter<K>, table: nat, k: K) {
    var t := TableAt(s, table);
    && Lookup1(hash, t, k).Some?
    && (it.table < table
        || (it.table == table
            && (Index(hash, k, |t|) > it.index
                || (Index(hash, k, |t|) == it.index && it.next.Some?
                    && Pos(t[it.index], it.next.value) <= Pos(t[it.index], k)))))
  }

  ghost predicate Pending<K, V>(hash: K -> Hash, s: State<K, V>, it: Iter<K>, k: K) {
    PendingIn(hash, s, it, 0, k) || PendingIn(hash, s, it, 1, k)
  }

  // ---- Positions ----

  lemma {:induction false} PosOf<K, V>(c: Chain<K, V>, k: K)
    ensures FindIn(c, k).Some? <==> Pos(c, k) < |c|
    ensures Pos(c, k) < |c| ==> c[Pos(c, k)].key == k
  {
    if c != [] && c[0].key != k {
      PosOf(c[1..], k);
    }
  }

  lemma {:induction false} PosUnique<K, V>(c: Chain<K, V>, i: nat)
    requires DistinctKeys(c) && i < |c|
    ensures Pos(c, c[i].key) == i
  {
    if i > 0 {
      assert c[1..][i - 1] == c[i];
      PosUnique(c[1..], i - 1);
    }
  }

  /** A key pushed in front shifts all the others alike. */
  lemma PosPush<K, V>(e: Entry<K, V>, c: Chain<K, V>, k: K)
    ensures k != e.key ==> Pos([e] + c, k) == Pos(c, k) + 1
  {
    assert ([e] + c)[1..] == c;
  }

  /** Unlinking a key keeps the order of the others. */
  lemma {:induction false} PosRemove<K, V>(c: Chain<K, V>, k: K, a: K, b: K)
    requires a != k && b != k && FindIn(c, a).Some? && FindIn(c, b).Some?
    ensures Pos(RemoveIn(c, k), a) <= Pos(RemoveIn(c, k), b) <==> Pos(c, a) <= Pos(c, b)
  {
    if c != [] && c[0].key != k {
      var r := RemoveIn(c[1..], k);
      PosPush(c[0], r, a);
      PosPush(c[0], r, b);
      if c[0].key != a && c[0].key != b {
        PosRemove(c[1..], k, a, b);
      }
    }
  }

  /** The entry after k, and which keys come from there on. */
  lemma AfterPos<K, V>(c: Chain<K, V>, k: K, k': K)
    requires DistinctKeys(c) && FindIn(c, k).Some? && FindIn(c, k').Some?
    ensures After(c, k).Some? ==> FindIn(c, After(c, k).value).Some?
    ensures (After(c, k).Some? && Pos(c, After(c, k).value) <= Pos(c, k')) <==> (Pos(c, k) <= Pos(c, k') && k' != k)
  {
    PosOf(c, k);
    PosOf(c, k');
    if Pos(c, k) + 1 < |c| {
      PosUnique(c, Pos(c, k) + 1);
      PosOf(c, After(c, k).value);
    }
  }

  // ---- dictNext returns the pending entries one by one ----

  /** r is returned and is the only key that stops being pending, or nothing was pending. */
  ghost predicate Returns<K(!new), V>(hash: K -> Hash, s: State<K, V>, it: Iter<K>,
                                      s': State<K, V>, it': Iter<K>, r: Option<K>)
  {
    && IterOk(hash, s', it') && it'.index >= 0 && it'.entry == r
    && s'.ht0 == s.ht0 && s'.ht1 == s.ht1 && s'.rehashidx == s.rehashidx && s'.canResize == s.canResize
    && (r.Some? ==> Pending(hash, s, it, r.value) && Lookup(hash, s, r.value).Some?)
    && (forall k :: Pending(hash, s', it', k) <==> Pending(hash, s, it, k) && r != Some(k))
    && (r.None? ==> forall k :: !Pending(hash, s, it, k))
  }

  /** Before bucket index of a table is read, everything from that bucket on is pending. */
  function Before<K>(table: nat, index: int): Iter<K> {
    Iter(table, index - 1, None, None)
  }

  lemma FirstOfBucket<K(!new), V>(hash: K -> Hash, s: State<K, V>, table: nat, index: nat, k: K)
    requires Valid(hash, s) && table <= 1 && index < |TableAt(s, table)| && TableAt(s, table)[index] != []
    ensures var c := TableAt(s, table)[index];
            var it := Iter(table, index, Some(c[0].key), After(c, c[0].key));
            && (it.next.Some? ==> FindIn(c, it.next.value).Some? && it.next != it.entry)
            && Lookup1(hash, TableAt(s, table), c[0].key).Some?
            && Pending(hash, s, Before(table, index), c[0].key)
            && (Pending(hash, s, it, k) <==> Pending(hash, s, Before(table, index), k) && k != c[0].key)
  {
    var t := TableAt(s, table);
    var c := t[index];
    var k0 := c[0].key;
    assert DistinctKeys(c) && Index(hash, k0, |t|) == index;
    AfterPos(c, k0, k0);
    assert Lookup1(hash, t, k0).Some?;
    if Lookup1(hash, t, k).Some? && Index(hash, k, |t|) == index {
      AfterPos(c, k0, k);
    }
    OtherTable(hash, s, table, k0);
    hide Valid, FindIn, After;
  }

  /** No key is in both tables. */
  lemma OtherTable<K(!new), V>(hash: K -> Hash, s: State<K, V>, table: nat, k: K)
    requires Valid(hash, s) && table <= 1 && Lookup1(hash, TableAt(s, table), k).Some?
    ensures Lookup1(hash, TableAt(s, 1 - table), k).None?
  {
  }

  /** An empty bucket, and an exhausted table, leave nothing behind. */
  lemma SkipBucket<K(!new), V>(hash: K -> Hash, s: State<K, V>, table: nat, index: nat, k: K)
    requires Valid(hash, s) && table <= 1
    ensures index < |TableAt(s, table)| && TableAt(s, table)[index] == [] ==>
              (Pending(hash, s, Before(table, index), k) <==> Pending(hash, s, Before(table, index + 1), k))
    ensures index >= |TableAt(s, 0)| && table == 0 ==>
              (Pending(hash, s, Before(0, index), k) <==> Pending(hash, s, Before(1, 0), k))
    ensures index >= |TableAt(s, table)| && (table == 1 || !s.Rehashing()) ==>
              !Pending(hash, s, Before(table, index), k)
  {
    hide DistinctKeys, Total;
  }

  lemma EmptyBucket<K(!new), V>(hash: K -> Hash, s: State<K, V>, it: Iter<K>)
    requires Valid(hash, s) && it.table <= 1 && 0 <= it.index < |TableAt(s, it.table)|
    requires it.entry.None? && it.next.None? && TableAt(s, it.table)[it.index] == []
    ensures ReadBucket(s, it) == NextBucket(s, it)
    ensures forall k :: Pending(hash, s, Before(it.table, it.index), k) <==> Pending(hash, s, it, k)
  {
    hide Valid, Pending, NextBucket;
    forall k ensures Pending(hash, s, Before(it.table, it.index), k) <==> Pending(hash, s, it, k) {
      SkipBucket(hash, s, it.table, it.index, k);
    }
  }

  lemma BucketWithEntry<K(!new), V>(hash: K -> Hash, s: State<K, V>, it: Iter<K>)
    requires Valid(hash, s) && s.iterators > 0 && it.table <= 1 && (it.table == 1 ==> s.Rehashing())
    requires 0 <= it.index < |TableAt(s, it.table)| && it.entry.None? && it.next.None?
    requires TableAt(s, it.table)[it.index] != []
    ensures var q := ReadBucket(s, it); Returns(hash, s, Before(it.table, it.index), q.0, q.1, q.2)
  {
    var c := TableAt(s, it.table)[it.index];
    hide Valid, Pending, Lookup1, Lookup, After, FindIn;
    forall k ensures var it' := Iter(it.table, it.index, Some(c[0].key), After(c, c[0].key));
                     Pending(hash, s, it', k) <==> Pending(hash, s, Before(it.table, it.index), k) && k != c[0].key {
      FirstOfBucket(hash, s, it.table, it.index, k);
    }
    FirstOfBucket(hash, s, it.table, it.index, c[0].key);
  }

  lemma ReadBucketReturns<K(!new), V>(hash: K -> Hash, s: State<K, V>, it: Iter<K>)
    requires Valid(hash, s) && Sizes(s, MAX_BUCKETS) && s.iterators > 0
    requires it.table <= 1 && (it.table == 1 ==> s.Rehashing())
    requires 0 <= it.index < |TableAt(s, it.table)| && it.entry.None? && it.next.None?
    ensures var (s', it', r) := ReadBucket(s, it); Returns(hash, s, Before(it.table, it.index), s', it', r)
    decreases 2 - it.table, |TableAt(s, it.table)| - it.index, 1
  {
    if TableAt(s, it.table)[it.index] == [] {
      assert IterOk(hash, s, it) && s == s.(iterators := s.iterators);
      hide *;
      NextBucketReturns(hash, s, it);
      EmptyBucket(hash, s, it);
      ReturnsToo(hash, s, Before(it.table, it.index), s, it, NextBucket(s, it));
    } else {
      hide *;
      BucketWithEntry(hash, s, it);
    }
  }

  lemma PastEnd<K(!new), V>(hash: K -> Hash, s: State<K, V>, it: Iter<K>)
    requires Valid(hash, s) && it.table <= 1 && it.index + 1 >= |TableAt(s, it.table)|
    requires it == Before(it.table, it.index + 1)
    ensures it.table == 0 ==> forall k :: Pending(hash, s, it, k) <==> Pending(hash, s, Before(1, 0), k)
    ensures it.table == 1 || !s.Rehashing() ==> forall k :: !Pending(hash, s, it, k)
    ensures forall k :: Pending(hash, s, Iter(it.table, it.index + 1, None, None), k) <==> Pending(hash, s, it, k)
  {
    hide Valid, Pending;
    forall k ensures it.table == 0 ==> (Pending(hash, s, it, k) <==> Pending(hash, s, Before(1, 0), k))
             ensures it.table == 1 || !s.Rehashing() ==> !Pending(hash, s, it, k)
             ensures Pending(hash, s, Iter(it.table, it.index + 1, None, None), k) <==> Pending(hash, s, it, k) {
      SkipBucket(hash, s, it.table, it.index + 1, k);
      SkipBucket(hash, s, it.table, it.index + 2, k);
    }
  }

  /** A started iterator is counted. */
  ghost function Counted<K, V>(s: State<K, V>, it: Iter<K>): State<K, V> {
    if it.index == -1 && it.table == 0 then s.(iterators := s.iterators + 1) else s
  }

  /** NextBucket after one step. */
  lemma NextBucketCases<K, V>(s: State<K, V>, it: Iter<K>)
    requires it.index >= -1
    ensures var s1, i := Counted(s, it), it.index + 1;
            NextBucket(s, it)
            == if i < ToInt(|TableAt(s, it.table)|) then ReadBucket(s1, Iter(it.table, i, None, None))
               else if s.Rehashing() && it.table == 0 && s.ht1.buckets != [] then ReadBucket(s1, Iter(1, 0, None, None))
               else (s1, Iter(it.table, i, None, None), None)
  {
    hide ReadBucket, ToInt;
  }

  /** Neither the iterator count nor the way in which the iterator is written matters to what is returned. */
  lemma ReturnsToo<K(!new), V>(hash: K -> Hash, s: State<K, V>, it: Iter<K>, s1: State<K, V>, it1: Iter<K>,
                               q: (State<K, V>, Iter<K>, Option<K>))
    requires Valid(hash, s) && s1 == s.(iterators := s1.iterators) && Returns(hash, s1, it1, q.0, q.1, q.2)
    requires forall k :: Pending(hash, s, it, k) <==> Pending(hash, s, it1, k)
    ensures Returns(hash, s, it, q.0, q.1, q.2)
  {
    CountsIrrelevant(hash, s, s1);
    hide Valid, Pending, IterOk;
  }

  lemma NothingReturned<K(!new), V>(hash: K -> Hash, s: State<K, V>, it: Iter<K>, s1: State<K, V>)
    requires IterOk(hash, s, it) && it.entry.None? && it.next.None? && it.index + 1 >= |TableAt(s, it.table)|
    requires it.table == 1 || !s.Rehashing()
    requires s1 == s.(iterators := s1.iterators) && s1.iterators > 0
    ensures Returns(hash, s, it, s1, Iter(it.table, it.index + 1, None, None), None)
  {
    PastEnd(hash, s, it);
    CountsIrrelevant(hash, s, s1);
    hide Valid, Pending;
  }

  lemma CountedToo<K(!new), V>(hash: K -> Hash, s: State<K, V>, it: Iter<K>)
    requires IterOk(hash, s, it) && Sizes(s, MAX_BUCKETS)
    ensures var s1 := Counted(s, it);
            && s1 == s.(iterators := s1.iterators) && s1.iterators > 0 && Valid(hash, s) && Valid(hash, s1)
            && TableAt(s1, 0) == TableAt(s, 0) == s.ht0.buckets && TableAt(s1, 1) == TableAt(s, 1) == s.ht1.buckets
    ensures it.table <= 1 && it.index >= -1
    ensures (it.table == 1 ==> s.Rehashing()) && (s.Rehashing() ==> s.ht1.buckets != [])
    ensures Counted(s, it).Rehashing() == s.Rehashing() && Sizes(Counted(s, it), MAX_BUCKETS)
    ensures ToInt(|TableAt(s, it.table)|) == |TableAt(s, it.table)|
    ensures it.entry.None? && it.next.None? ==> it == Before(it.table, it.index + 1)
  {
    CountsIrrelevant(hash, s, Counted(s, it));
    hide Valid, ToInt, IsPow2;
  }

  lemma NextBucketReturns<K(!new), V>(hash: K -> Hash, s: State<K, V>, it: Iter<K>)
    requires IterOk(hash, s, it) && Sizes(s, MAX_BUCKETS) && it.entry.None? && it.next.None?
    ensures var (s', it', r) := NextBucket(s, it); Returns(hash, s, it, s', it', r)
    decreases 2 - it.table, |TableAt(s, it.table)| - it.index, 0
  {
    hide *;
    CountedToo(hash, s, it);
    NextBucketCases(s, it);
    var s1 := Counted(s, it);
    if it.index + 1 < |TableAt(s, it.table)| {
      var at := Iter(it.table, it.index + 1, None, None);
      ReadBucketReturns(hash, s1, at);
      ReturnsToo(hash, s, it, s1, it, ReadBucket(s1, at));
    } else if s.Rehashing() && it.table == 0 {
      var at := Iter(1, 0, None, None);
      PastEnd(hash, s, it);
      ReadBucketReturns(hash, s1, at);
      ReturnsToo(hash, s, it, s1, Before(1, 0), ReadBucket(s1, at));
    } else {
      NothingReturned(hash, s, it, s1);
    }
  }

  /** The iterator count plays no part in what is pending. */
  lemma CountsIrrelevant<K(!new), V>(hash: K -> Hash, s: State<K, V>, s1: State<K, V>)
    requires Valid(hash, s) && s1 == s.(iterators := s1.iterators)
    ensures Valid(hash, s1) && (s.Rehashing() ==> s.ht1.buckets != [])
    ensures forall it, k :: Pending(hash, s1, it, k) <==> Pending(hash, s, it, k)
  {
  }

  lemma NextInChain<K(!new), V>(hash: K -> Hash, s: State<K, V>, it: Iter<K>, k: K)
    requires IterOk(hash, s, it) && it.next.Some?
    ensures var c := TableAt(s, it.table)[it.index];
            var n := it.next.value;
            var it' := it.(entry := it.next, next := After(c, n));
            && (it'.next.Some? ==> FindIn(c, it'.next.value).Some? && it'.next != it'.entry)
            && Pending(hash, s, it, n) && Lookup(hash, s, n).Some?
            && (Pending(hash, s, it', k) <==> Pending(hash, s, it, k) && k != n)
  {
    var t := TableAt(s, it.table);
    var c := t[it.index];
    var n := it.next.value;
    PosOf(c, n);
    assert c[Pos(c, n)].key == n && Index(hash, n, |t|) == it.index;
    assert DistinctKeys(c);
    AfterPos(c, n, n);
    if Lookup1(hash, t, k).Some? && Index(hash, k, |t|) == it.index {
      AfterPos(c, n, k);
    }
    OtherTable(hash, s, it.table, n);
    hide Valid, FindIn, After;
  }

  /** dictNext returns a pending entry and nothing else stops being pending; it returns none only when none is left. */
  lemma NextReturns<K(!new), V>(hash: K -> Hash, s: State<K, V>, it: Iter<K>)
    requires IterOk(hash, s, it) && Sizes(s, MAX_BUCKETS)
    ensures var (s', it', r) := Next(s, it); Returns(hash, s, it, s', it', r)
  {
    hide Valid, Pending, Lookup1, NextBucket, After, FindIn;
    if it.next.Some? {
      var c := TableAt(s, it.table)[it.index];
      forall k ensures Pending(hash, s, it.(entry := it.next, next := After(c, it.next.value)), k)
                       <==> Pending(hash, s, it, k) && k != it.next.value {
        NextInChain(hash, s, it, k);
      }
      NextInChain(hash, s, it, it.next.value);
    } else {
      var it0 := it.(entry := None, next := None);
      EntryIrrelevant(hash, s, it, it0);
      assert it0.next.None? && IterOk(hash, s, it0);
      NextBucketReturns(hash, s, it0);
      var (s', it', r) := NextBucket(s, it0);
      assert Next(s, it) == (s', it', r);
      assert Returns(hash, s, it0, s', it', r);
    }
  }

  lemma EntryIrrelevant<K(!new), V>(hash: K -> Hash, s: State<K, V>, it: Iter<K>, it0: Iter<K>)
    requires it0 == it.(entry := it0.entry)
    ensures forall k :: Pending(hash, s, it0, k) <==> Pending(hash, s, it, k)
  {
  }

  // ---- What the caller may do between two calls ----

  lemma StartPending<K(!new), V>(hash: K -> Hash, s: State<K, V>, it: Iter<K>, k: K)
    requires it.table == 0 && it.index == -1
    ensures Pending(hash, s, it, k) <==> Lookup(hash, s, k).Some?
  {
  }

  /** Pushing an entry changes nothing for other keys. */
  lemma PushPending<K(!new), V>(hash: K -> Hash, s: State<K, V>, s': State<K, V>, it: Iter<K>, table: nat, k: K, v: V,
                                k': K)
    requires table <= 1 && it.table <= 1 && k' != k && it.next != Some(k)
    requires it.next.Some? ==> 0 <= it.index < |TableAt(s, it.table)|
    requires TableAt(s, table) != []
    requires TableAt(s', table) == InsertEntry(hash, Table(TableAt(s, table), 0), k, v).buckets
    ensures PendingIn(hash, s', it, table, k') <==> PendingIn(hash, s, it, table, k')
    ensures it.next.Some? && it.table == table ==>
              |TableAt(s', table)| == |TableAt(s, table)| &&
              FindIn(TableAt(s', table)[it.index], it.next.value) == FindIn(TableAt(s, table)[it.index], it.next.value)
  {
    var t := TableAt(s, table);
    var h := Index(hash, k, |t|);
    FindInHead(Entry(k, v), t[h], k');
    PosPush(Entry(k, v), t[h], k');
    if it.next.Some? {
      FindInHead(Entry(k, v), t[h], it.next.value);
      PosPush(Entry(k, v), t[h], it.next.value);
    }
    hide FindIn, Pos;
  }

  /** Unlinking an entry other than the saved one changes nothing for other keys. */
  lemma RemovePending<K(!new), V>(hash: K -> Hash, s: State<K, V>, s': State<K, V>, it: Iter<K>, table: nat, k: K,
                                  k': K)
    requires IterOk(hash, s, it) && table <= 1 && k' != k && it.next != Some(k) && TableAt(s, table) != []
    requires TableAt(s', table) == RemoveEntry(hash, Table(TableAt(s, table), 0), k).buckets
    ensures PendingIn(hash, s', it, table, k') <==> PendingIn(hash, s, it, table, k')
    ensures it.next.Some? && it.table == table ==>
              FindIn(TableAt(s', table)[it.index], it.next.value) == FindIn(TableAt(s, table)[it.index], it.next.value)
  {
    var t := TableAt(s, table);
    var h := Index(hash, k, |t|);
    assert DistinctKeys(t[h]);
    RemoveInFinds(t[h], k, k');
    if it.next.Some? {
      var n := it.next.value;
      RemoveInFinds(t[h], k, n);
      if it.table == table && it.index == h && FindIn(t[h], k').Some? {
        PosRemove(t[h], k, n, k');
      }
    }
    hide FindIn, Pos, Valid;
  }

  lemma {:induction false} PosSet<K, V>(c: Chain<K, V>, k: K, v: V, a: K)
    ensures Pos(SetIn(c, k, v), a) == Pos(c, a)
  {
    if c != [] && c[0].key != k {
      PosSet(c[1..], k, v, a);
      PosPush(c[0], SetIn(c[1..], k, v), a);
    } else if c != [] {
      PosPush(Entry(k, v), c[1..], a);
    }
  }

  /** Overwriting a value changes nothing at all. */
  lemma SetPending<K(!new), V>(hash: K -> Hash, s: State<K, V>, s': State<K, V>, it: Iter<K>, table: nat, k: K, v: V,
                               k': K)
    requires table <= 1 && it.table <= 1 && (it.next.Some? ==> 0 <= it.index < |TableAt(s, it.table)|)
    requires TableAt(s', table) == SetEntry(hash, Table(TableAt(s, table), 0), k, v).buckets
    ensures PendingIn(hash, s', it, table, k') <==> PendingIn(hash, s, it, table, k')
    ensures it.next.Some? && it.table == table ==>
              (FindIn(TableAt(s', table)[it.index], it.next.value).Some? <==>
               FindIn(TableAt(s, table)[it.index], it.next.value).Some?)
  {
    var t := TableAt(s, table);
    if t != [] {
      var h := Index(hash, k, |t|);
      SetInFinds(t[h], k, v, k');
      PosSet(t[h], k, v, k');
      if it.next.Some? {
        SetInFinds(t[h], k, v, it.next.value);
        PosSet(t[h], k, v, it.next.value);
      }
    }
    hide FindIn, Pos, SetIn;
  }

  /** From s to s' the iterator stays good, and every key but one keeps being pending or not. */
  ghost predicate KeepsPending<K(!new), V>(hash: K -> Hash, s: State<K, V>, s': State<K, V>, it: Iter<K>,
                                           but: Option<K>) {
    && IterOk(hash, s', it)
    && forall k' :: but != Some(k') ==> (Pending(hash, s', it, k') <==> Pending(hash, s, it, k'))
  }

  /** Before the first call everything in the map is pending, whatever happens to the tables. */
  lemma NotStarted<K(!new), V>(hash: K -> Hash, s: State<K, V>, s': State<K, V>, m: map<K, V>, m': map<K, V>,
                               it: Iter<K>, but: Option<K>)
    requires Represents(hash, s, m) && Represents(hash, s', m') && IterOk(hash, s, it) && it.index == -1
    requires forall k' :: but != Some(k') ==> (k' in m <==> k' in m')
    ensures KeepsPending(hash, s, s', it, but)
  {
    hide Lookup;
    forall k' | but != Some(k') ensures Pending(hash, s', it, k') <==> Pending(hash, s, it, k') {
      StartPending(hash, s, it, k');
      StartPending(hash, s', it, k');
      LookupNone(hash, s, m, k');
      LookupNone(hash, s', m', k');
    }
  }

  /** While a safe iterator is active nothing is rehashed. */
  lemma StepsSuspended<K, V>(hash: K -> Hash, s: State<K, V>)
    requires s.iterators > 0
    ensures RehashStep(hash, s) == s
  {
  }

  /** A table that is made during a pass is empty, and only used for what is added from then on. */
  lemma ExpandPending<K(!new), V>(hash: K -> Hash, s: State<K, V>, m: map<K, V>, it: Iter<K>, size: nat)
    requires Represents(hash, s, m) && IterOk(hash, s, it)
    ensures KeepsPending(hash, s, Expand(s, size).0, it, None) && Expand(s, size).0.iterators == s.iterators
  {
    ExpandKeeps(hash, s, m, size);
    var s' := Expand(s, size).0;
    if it.index == -1 {
      hide Expand, IterOk, Represents;
      NotStarted(hash, s, s', m, m, it, None);
    } else {
      assert Valid(hash, s');
      hide NextPower;
      forall k' ensures Pending(hash, s', it, k') <==> Pending(hash, s, it, k') {
      }
      hide Valid;
    }
  }

  lemma RoomPending<K(!new), V>(hash: K -> Hash, s: State<K, V>, m: map<K, V>, it: Iter<K>)
    requires Represents(hash, s, m) && IterOk(hash, s, it) && it.index >= 0
    ensures KeepsPending(hash, s, WithRoom(hash, s), it, None) && WithRoom(hash, s).iterators == s.iterators
  {
    hide Represents, Expand, KeepsPending, RehashStep, IterOk;
    IterBounds(hash, s, it);
    StepsSuspended(hash, s);
    PendingKept(hash, s, it);
    var size, used := |s.ht0.buckets|, s.ht0.used;
    ExpandPending(hash, s, m, it, INITIAL_SIZE);
    ExpandPending(hash, s, m, it, (if size > used then size else used) * 2);
  }

  lemma PendingKept<K(!new), V>(hash: K -> Hash, s: State<K, V>, it: Iter<K>)
    requires IterOk(hash, s, it)
    ensures KeepsPending(hash, s, s, it, None)
  {
  }

  /** dictResize and the switch that allows it, between calls of dictNext. */
  lemma ResizePending<K(!new), V>(hash: K -> Hash, s: State<K, V>, m: map<K, V>, it: Iter<K>)
    requires Represents(hash, s, m) && IterOk(hash, s, it)
    ensures KeepsPending(hash, s, Resize(s).0, it, None) && Resize(s).0.iterators == s.iterators
  {
    hide Represents, Expand, KeepsPending, IterOk, ToInt;
    PendingKept(hash, s, it);
    var minimal := ToInt(s.ht0.used);
    ExpandPending(hash, s, m, it, if minimal < INITIAL_SIZE then INITIAL_SIZE else minimal);
  }

  lemma AllowPending<K(!new), V>(hash: K -> Hash, s: State<K, V>, it: Iter<K>, allow: bool)
    requires IterOk(hash, s, it)
    ensures KeepsPending(hash, s, s.(canResize := allow), it, None)
  {
  }

  lemma InsertPending<K(!new), V>(hash: K -> Hash, s: State<K, V>, m: map<K, V>, it: Iter<K>, k: K, v: V)
    requires Represents(hash, s, m) && IterOk(hash, s, it) && k !in m
    requires NewTable(s).buckets != []
    ensures KeepsPending(hash, s, WithNewTable(s, InsertEntry(hash, NewTable(s), k, v)), it, Some(k))
  {
    InsertedIsRepresented(hash, s, m, k, v);
    LookupNone(hash, s, m, k);
    var table := if s.Rehashing() then 1 else 0;
    var s' := WithNewTable(s, InsertEntry(hash, NewTable(s), k, v));
    assert it.next != Some(k) by {
      if it.next == Some(k) { NextInChain(hash, s, it, k); }
    }
    hide FindIn, Pos, Valid, Total, InsertEntry;
    forall k' | k' != k ensures Pending(hash, s', it, k') <==> Pending(hash, s, it, k') {
      PushPending(hash, s, s', it, table, k, v, k');
      OtherSame(hash, s, s', it, 1 - table, k');
    }
    if it.next.Some? {
      PushPending(hash, s, s', it, table, k, v, it.next.value);
    }
  }

  lemma OtherSame<K, V>(hash: K -> Hash, s: State<K, V>, s': State<K, V>, it: Iter<K>, table: nat, k: K)
    requires TableAt(s', table) == TableAt(s, table)
    ensures PendingIn(hash, s', it, table, k) <==> PendingIn(hash, s, it, table, k)
  {
  }

  lemma AddPending<K(!new), V>(hash: K -> Hash, s: State<K, V>, m: map<K, V>, it: Iter<K>, k: K, v: V)
    requires Represents(hash, s, m) && IterOk(hash, s, it) && AddFits(hash, s, k)
    ensures KeepsPending(hash, s, Add(hash, s, k, v).0, it, if k in m then None else Some(k))
  {
    hide Represents, WithRoom, IterOk, Pending, InsertEntry, Lookup, Link, ToInt;
    AddKeeps(hash, s, m, k, v);
    IterBounds(hash, s, it);
    if it.index == -1 {
      hide Add;
      var m' := if k in m then m else m[k := v];
      NotStarted(hash, s, Add(hash, s, k, v).0, m, m', it, if k in m then None else Some(k));
    } else {
      var s2 := WithRoom(hash, s);
      WithRoomKeeps(hash, s, m);
      RoomPending(hash, s, m, it);
      LookupNone(hash, s2, m, k);
      if k !in m {
        LinkedIsInserted(hash, s2, k, v);
        InsertPending(hash, s2, m, it, k, v);
      }
    }
  }

  lemma IterBounds<K(!new), V>(hash: K -> Hash, s: State<K, V>, it: Iter<K>)
    requires IterOk(hash, s, it)
    ensures it.index >= -1 && it.table <= 1 && (it.index >= 0 ==> s.iterators > 0)
  {
  }

  lemma FindPending<K(!new), V>(hash: K -> Hash, s: State<K, V>, m: map<K, V>, it: Iter<K>, k: K)
    requires Represents(hash, s, m) && IterOk(hash, s, it)
    ensures KeepsPending(hash, s, Find(hash, s, k).0, it, None)
  {
    hide Represents, IterOk, Pending, Lookup, Rehash;
    IterBounds(hash, s, it);
    FindKeeps(hash, s, m, k);
    if it.index == -1 {
      NotStarted(hash, s, Find(hash, s, k).0, m, m, it, None);
    } else {
      StepsSuspended(hash, s);
    }
  }

  /** Deleting any entry but the one saved to come next. */
  lemma DeletePending<K(!new), V>(hash: K -> Hash, s: State<K, V>, m: map<K, V>, it: Iter<K>, k: K)
    requires Represents(hash, s, m) && IterOk(hash, s, it) && it.next != Some(k)
    ensures KeepsPending(hash, s, Delete(hash, s, k).0, it, Some(k))
  {
    hide Represents, IterOk, Pending, Lookup1, RemoveEntry, Rehash;
    IterBounds(hash, s, it);
    DeleteKeeps(hash, s, m, k);
    var s' := Delete(hash, s, k).0;
    if it.index == -1 {
      NotStarted(hash, s, s', m, m - {k}, it, Some(k));
    } else {
      StepsSuspended(hash, s);
      RepresentsValid(hash, s', m - {k});
      if Delete(hash, s, k).1 {
        var table := if Lookup1(hash, s.ht0.buckets, k).Some? then 0 else 1;
        RemoveEntryUsed(hash, s, table, k);
        EntryRemovedPending(hash, s, s', it, table, k);
      }
    }
  }

  /** Which buckets result does not depend on the entry count. */
  lemma RemoveEntryUsed<K, V>(hash: K -> Hash, s: State<K, V>, table: nat, k: K)
    requires Lookup1(hash, TableAt(s, table), k).Some?
    ensures TableAt(s, table) != []
    ensures var t := if table == 0 then s.ht0 else s.ht1;
            RemoveEntry(hash, t, k).buckets == RemoveEntry(hash, Table(TableAt(s, table), 0), k).buckets
  {
  }

  lemma EntryRemovedPending<K(!new), V>(hash: K -> Hash, s: State<K, V>, s': State<K, V>, it: Iter<K>, table: nat, k: K)
    requires IterOk(hash, s, it) && Valid(hash, s') && table <= 1 && it.next != Some(k) && TableAt(s, table) != []
    requires TableAt(s', table) == RemoveEntry(hash, Table(TableAt(s, table), 0), k).buckets
    requires TableAt(s', 1 - table) == TableAt(s, 1 - table)
    requires s'.rehashidx == s.rehashidx && s'.iterators == s.iterators
    ensures KeepsPending(hash, s, s', it, Some(k))
  {
    assert |TableAt(s', table)| == |TableAt(s, table)|;
    forall k' | k' != k ensures Pending(hash, s', it, k') <==> Pending(hash, s, it, k') {
      RemovePending(hash, s, s', it, table, k, k');
      OtherSame(hash, s, s', it, 1 - table, k');
    }
    if it.next.Some? {
      RemovePending(hash, s, s', it, table, k, it.next.value);
    }
    hide Valid, Pending, RemoveIn, FindIn;
  }

  lemma EntrySetPending<K(!new), V>(hash: K -> Hash, s: State<K, V>, s': State<K, V>, it: Iter<K>, table: nat, k: K,
                                    v: V)
    requires IterOk(hash, s, it) && Valid(hash, s') && table <= 1
    requires TableAt(s', table) == SetEntry(hash, Table(TableAt(s, table), 0), k, v).buckets
    requires TableAt(s', 1 - table) == TableAt(s, 1 - table)
    requires s'.rehashidx == s.rehashidx && s'.iterators == s.iterators
    ensures KeepsPending(hash, s, s', it, None)
  {
    assert |TableAt(s', table)| == |TableAt(s, table)|;
    forall k' ensures Pending(hash, s', it, k') <==> Pending(hash, s, it, k') {
      SetPending(hash, s, s', it, table, k, v, k');
      OtherSame(hash, s, s', it, 1 - table, k');
    }
    if it.next.Some? {
      SetPending(hash, s, s', it, table, k, v, it.next.value);
    }
    hide Valid, Pending, SetIn, FindIn;
  }

  lemma ReplacePending<K(!new), V>(hash: K -> Hash, s: State<K, V>, m: map<K, V>, it: Iter<K>, k: K, v: V)
    requires Represents(hash, s, m) && IterOk(hash, s, it) && AddFits(hash, s, k)
    ensures KeepsPending(hash, s, Replace(hash, s, k, v).0, it, if k in m then None else Some(k))
  {
    hide Represents, IterOk, Pending, Lookup1, SetEntry, Add, Find, AddFits;
    AddKeeps(hash, s, m, k, v);
    AddPending(hash, s, m, it, k, v);
    if k in m {
      var s1 := Add(hash, s, k, v).0;
      var s2 := Find(hash, s1, k).0;
      FindPending(hash, s1, m, it, k);
      FindKeeps(hash, s1, m, k);
      OverwrittenIsRepresented(hash, s2, m, k, v);
      RepresentsValid(hash, Replace(hash, s, k, v).0, m[k := v]);
      ReplaceKeeps(hash, s, m, k, v);
      SetEntryUsed(hash, s2.ht0, k, v);
      SetEntryUsed(hash, s2.ht1, k, v);
      var table := if Lookup1(hash, s2.ht0.buckets, k).Some? then 0 else 1;
      EntrySetPending(hash, s2, Replace(hash, s, k, v).0, it, table, k, v);
    }
  }

  lemma RepresentsValid<K(!new), V>(hash: K -> Hash, s: State<K, V>, m: map<K, V>)
    requires Represents(hash, s, m)
    ensures Valid(hash, s)
  {
  }

  /** Which buckets result does not depend on the entry count. */
  lemma SetEntryUsed<K, V>(hash: K -> Hash, t: Table<K, V>, k: K, v: V)
    ensures SetEntry(hash, t, k, v).buckets == SetEntry(hash, Table(t.buckets, 0), k, v).buckets
  {
  }

  // ---- Passes of several iterators ----

  /** dictReleaseIterator: a safe iterator that was started is counted no more. */
  ghost function Release<K, V>(s: State<K, V>, it: Iter<K>): State<K, V> {
    if !(it.index == -1 && it.table == 0) && s.iterators > 0 then s.(iterators := s.iterators - 1) else s
  }

  /** The pass of one iterator: live holds the keys present from its start on, out the keys it has returned. */
  datatype Pass<K> = Pass(it: Iter<K>, live: set<K>, out: seq<K>, ended: bool, released: bool)

  /** A dictionary, the map that it stands for, and the passes over it. */
  datatype World<K, V> = World(s: State<K, V>, m: map<K, V>, passes: seq<Pass<K>>)

  datatype Event<K, V> = EvOpen | EvNext(i: nat) | EvRelease(i: nat)
                       | EvAdd(k: K, v: V) | EvReplace(k: K, v: V) | EvFind(k: K) | EvDelete(k: K)
                       | EvExpand(size: nat) | EvResize | EvAllowResize(allow: bool)

  predicate Open<K, V>(w: World<K, V>, i: int) {
    0 <= i < |w.passes| && !w.passes[i].released
  }

  /**
    An iterator is not used once it is released, and an entry that some iterator has saved as next is not deleted.  No
    table gets so large that an int cannot run through it.
   */
  ghost predicate Allowed<K, V>(w: World<K, V>, e: Event<K, V>) {
    match e
    case EvNext(i) => Open(w, i) && w.passes[i].it.index >= -1
    case EvRelease(i) => Open(w, i)
    case EvDelete(k) => forall i :: Open(w, i) ==> w.passes[i].it.next != Some(k)
    case EvExpand(size) => size <= MAX_BUCKETS
    case EvAdd(_, _) => 2 * |w.m| <= MAX_BUCKETS
    case EvReplace(_, _) => 2 * |w.m| <= MAX_BUCKETS
    case EvResize => 2 * |w.m| <= MAX_BUCKETS
    case _ => true
  }

  function Returned<K>(p: Pass<K>, it: Iter<K>, r: Option<K>): Pass<K> {
    p.(it := it, out := if r.Some? then p.out + [r.value] else p.out, ended := p.ended || r.None?)
  }

  /** A key that is deleted was not present throughout the passes under way. */
  function Without<K>(passes: seq<Pass<K>>, k: K): seq<Pass<K>> {
    seq(|passes|, i requires 0 <= i < |passes| =>
      if passes[i].released then passes[i] else passes[i].(live := passes[i].live - {k}))
  }

  ghost function Happen<K, V>(hash: K -> Hash, w: World<K, V>, e: Event<K, V>): World<K, V>
    requires Allowed(w, e)
  {
    match e
    case EvOpen => w.(passes := w.passes + [Pass(Start(), w.m.Keys, [], false, false)])
    case EvNext(i) =>
      var (s', it', r) := Next(w.s, w.passes[i].it);
      w.(s := s', passes := w.passes[i := Returned(w.passes[i], it', r)])
    case EvRelease(i) =>
      w.(s := Release(w.s, w.passes[i].it), passes := w.passes[i := w.passes[i].(released := true)])
    case EvAdd(k, v) => w.(s := Add(hash, w.s, k, v).0, m := if k in w.m then w.m else w.m[k := v])
    case EvReplace(k, v) => w.(s := Replace(hash, w.s, k, v).0, m := w.m[k := v])
    case EvFind(k) => w.(s := Find(hash, w.s, k).0)
    case EvDelete(k) => World(Delete(hash, w.s, k).0, w.m - {k}, Without(w.passes, k))
    case EvExpand(size) => w.(s := Expand(w.s, size).0)
    case EvResize => w.(s := Resize(w.s).0)
    case EvAllowResize(allow) => w.(s := w.s.(canResize := allow))
  }

  /** A live key is either still pending and was not returned, or was returned once and will not be again. */
  ghost predicate Accounted<K(!new), V>(hash: K -> Hash, s: State<K, V>, p: Pass<K>, k: K) {
    multiset(p.out)[k] == if Pending(hash, s, p.it, k) then 0 else 1
  }

  ghost predicate PassOk<K(!new), V>(hash: K -> Hash, s: State<K, V>, m: map<K, V>, p: Pass<K>) {
    && IterOk(hash, s, p.it) && p.live <= m.Keys
    && (forall k :: k in p.live ==> Accounted(hash, s, p, k))
    && (p.ended ==> forall k :: k in p.live ==> !Pending(hash, s, p.it, k))
  }

  /** A pass that ended has returned every live key exactly once. */
  ghost predicate Exact<K(!new)>(p: Pass<K>) {
    p.ended ==> forall k :: k in p.live ==> multiset(p.out)[k] == 1
  }

  ghost predicate AnyPassOk<K(!new), V>(hash: K -> Hash, s: State<K, V>, m: map<K, V>, p: Pass<K>) {
    if p.released then Exact(p) else PassOk(hash, s, m, p)
  }

  predicate Started<K>(p: Pass<K>) {
    !p.released && p.it.index >= 0
  }

  function CountStarted<K>(ps: seq<Pass<K>>): nat {
    if ps == [] then 0 else CountStarted(ps[..|ps| - 1]) + if Started(ps[|ps| - 1]) then 1 else 0
  }

  /** The dictionary counts at least the iterators that are started and not released. */
  ghost predicate WorldOk<K(!new), V>(hash: K -> Hash, w: World<K, V>) {
    && Represents(hash, w.s, w.m) && Sizes(w.s, MAX_BUCKETS)
    && CountStarted(w.passes) <= w.s.iterators
    && forall i :: 0 <= i < |w.passes| ==> AnyPassOk(hash, w.s, w.m, w.passes[i])
  }

  lemma {:induction false} CountUpdate<K>(ps: seq<Pass<K>>, i: nat, p: Pass<K>)
    requires i < |ps|
    ensures CountStarted(ps[i := p])
         == CountStarted(ps) - (if Started(ps[i]) then 1 else 0) + if Started(p) then 1 else 0
  {
    var n := |ps| - 1;
    if i < n {
      CountUpdate(ps[..n], i, p);
      assert ps[i := p][..n] == ps[..n][i := p];
    } else {
      assert ps[i := p][..n] == ps[..n];
    }
  }

  lemma CountPositive<K>(ps: seq<Pass<K>>, i: nat)
    requires i < |ps| && Started(ps[i])
    ensures CountStarted(ps) > 0
  {
    CountUpdate(ps, i, ps[i].(released := true));
  }

  lemma {:induction false} CountSame<K>(ps: seq<Pass<K>>, qs: seq<Pass<K>>)
    requires |ps| == |qs| && forall i :: 0 <= i < |ps| ==> Started(ps[i]) == Started(qs[i])
    ensures CountStarted(ps) == CountStarted(qs)
  {
    if ps != [] {
      CountSame(ps[..|ps| - 1], qs[..|qs| - 1]);
    }
  }

  lemma CountSnoc<K>(ps: seq<Pass<K>>, p: Pass<K>)
    ensures CountStarted(ps + [p]) == CountStarted(ps) + if Started(p) then 1 else 0
  {
    assert (ps + [p])[..|ps|] == ps;
  }

  // What the operations do to the count of iterators.

  lemma {:induction false} BucketCounts<K, V>(s: State<K, V>, it: Iter<K>)
    requires it.index >= 0 && it.entry == None && it.next == None && (s.Rehashing() ==> s.ht1.buckets != [])
    ensures NextBucket(s, it).0 == s
    decreases 2 - it.table, |TableAt(s, it.table)| - it.index
  {
    NextBucketIs(s, it);
    hide NextBucket, After;
    var over := it.index + 1 >= |TableAt(s, it.table)|;
    if !over {
      BucketCounts(s, Iter(it.table, it.index + 1, None, None));
    } else if s.Rehashing() && it.table == 0 {
      BucketCounts(s, Iter(1, 0, None, None));
    }
  }

  lemma NextCounts<K(!new), V>(hash: K -> Hash, s: State<K, V>, m: map<K, V>, it: Iter<K>)
    requires Represents(hash, s, m) && IterOk(hash, s, it)
    ensures Next(s, it).0 == s.(iterators := s.iterators + if it.index >= 0 then 0 else 1)
  {
    hide NextBucket, After, FindIn, Lookup, Lookup1;
    var it0 := it.(entry := None, next := None);
    NextBucketIs(s, it0);
    var s1 := s.(iterators := s.iterators + if it.index >= 0 then 0 else 1);
    BucketCounts(s1, Iter(it.table, it.index + 1, None, None));
    BucketCounts(s1, Iter(1, 0, None, None));
  }

  lemma {:induction false} RehashCounts<K, V>(hash: K -> Hash, s: State<K, V>, n: nat)
    ensures Rehash(hash, s, n).iterators == s.iterators
    decreases n
  {
    if n > 0 && s.Rehashing() {
      RehashCounts(hash, RehashOne(hash, s), n - 1);
    }
  }

  lemma AddCounts<K, V>(hash: K -> Hash, s: State<K, V>, k: K, v: V)
    ensures Add(hash, s, k, v).0.iterators == s.iterators
  {
    RehashCounts(hash, s, 1);
    hide Rehash, NextPower, EmptyTable, Lookup, Link;
  }

  lemma FindCounts<K, V>(hash: K -> Hash, s: State<K, V>, k: K)
    ensures Find(hash, s, k).0.iterators == s.iterators && Delete(hash, s, k).0.iterators == s.iterators
  {
    RehashCounts(hash, s, 1);
    hide Rehash, Lookup, Lookup1, RemoveEntry;
  }

  lemma ReplaceCounts<K, V>(hash: K -> Hash, s: State<K, V>, k: K, v: V)
    ensures Replace(hash, s, k, v).0.iterators == s.iterators
  {
    AddCounts(hash, s, k, v);
    FindCounts(hash, Add(hash, s, k, v).0, k);
    hide Add, Find, Lookup1, SetEntry;
  }

  // What happens keeps every pass exact.

  lemma SameTables<K(!new), V>(hash: K -> Hash, s: State<K, V>, s': State<K, V>, m: map<K, V>)
    requires Represents(hash, s, m) && s' == s.(iterators := s'.iterators)
    ensures Represents(hash, s', m)
  {
    forall k ensures Lookup(hash, s', k) == Get(m, k) {
      assert Lookup(hash, s, k) == Get(m, k);
    }
  }

  /** How many iterators there are does not matter to a pass, but for whether there is one. */
  lemma IteratorsChange<K(!new), V>(hash: K -> Hash, s: State<K, V>, s': State<K, V>, m: map<K, V>, p: Pass<K>)
    requires Represents(hash, s, m) && PassOk(hash, s, m, p)
    requires s' == s.(iterators := s'.iterators) && (p.it.index >= 0 ==> s'.iterators > 0)
    ensures PassOk(hash, s', m, p)
  {
    RepresentsValid(hash, s, m);
    CountsIrrelevant(hash, s, s');
    hide Represents, Valid, Pending;
    forall k | k in p.live ensures Accounted(hash, s', p, k) {
      assert Accounted(hash, s, p, k);
    }
  }

  lemma NextAccounts<K(!new), V>(hash: K -> Hash, s: State<K, V>, m: map<K, V>, p: Pass<K>)
    requires Represents(hash, s, m) && PassOk(hash, s, m, p) && Sizes(s, MAX_BUCKETS)
    ensures var (s', it', r) := Next(s, p.it); PassOk(hash, s', m, Returned(p, it', r))
  {
    NextReturns(hash, s, p.it);
    var (s', it', r) := Next(s, p.it);
    hide Represents, Valid, Pending, Lookup, Next;
    var p' := Returned(p, it', r);
    forall k | k in p.live ensures Accounted(hash, s', p', k) {
      assert Accounted(hash, s, p, k);
    }
  }

  /** Everything but dictNext leaves what is pending alone, except for a key that it adds or removes. */
  lemma ChangeAccounts<K(!new), V>(hash: K -> Hash, s: State<K, V>, s': State<K, V>, m: map<K, V>, m': map<K, V>,
                                   p: Pass<K>, p': Pass<K>, but: Option<K>)
    requires PassOk(hash, s, m, p) && KeepsPending(hash, s, s', p.it, but)
    requires p' == p.(live := p'.live) && p'.live <= p.live && p'.live <= m'.Keys
    requires but.Some? ==> but.value !in p'.live
    ensures PassOk(hash, s', m', p')
  {
    hide IterOk, Pending;
    forall k | k in p'.live ensures Accounted(hash, s', p', k) {
      assert Accounted(hash, s, p, k);
    }
  }

  ghost predicate IsChange<K, V>(e: Event<K, V>) {
    !e.EvOpen? && !e.EvNext? && !e.EvRelease?
  }

  /** An operation on the dictionary leaves one pass exact. */
  lemma ChangeKeeps<K(!new), V>(hash: K -> Hash, w: World<K, V>, e: Event<K, V>, i: nat)
    requires Represents(hash, w.s, w.m) && Sizes(w.s, MAX_BUCKETS) && IsChange(e) && Allowed(w, e) && i < |w.passes|
    requires AnyPassOk(hash, w.s, w.m, w.passes[i])
    ensures var w' := Happen(hash, w, e); AnyPassOk(hash, w'.s, w'.m, w'.passes[i])
  {
    hide Represents, IterOk, Pending, Add, Replace, Find, Delete, Accounted, Expand, Resize, Sizes, AddFits;
    var p, w' := w.passes[i], Happen(hash, w, e);
    if !p.released {
      var but := None;
      match e {
        case EvAdd(k, v) =>
          InRangeFits(hash, w.s, w.m, OpAdd(k, v));
          AddPending(hash, w.s, w.m, p.it, k, v);
          but := if k in w.m then None else Some(k);
        case EvReplace(k, v) =>
          InRangeFits(hash, w.s, w.m, OpReplace(k, v));
          ReplacePending(hash, w.s, w.m, p.it, k, v);
          but := if k in w.m then None else Some(k);
        case EvFind(k) =>
          FindPending(hash, w.s, w.m, p.it, k);
        case EvDelete(k) =>
          assert Open(w, i);
          DeletePending(hash, w.s, w.m, p.it, k);
          but := Some(k);
        case EvExpand(size) => ExpandPending(hash, w.s, w.m, p.it, size);
        case EvResize => ResizePending(hash, w.s, w.m, p.it);
        case EvAllowResize(allow) => AllowPending(hash, w.s, p.it, allow);
      }
      hide KeepsPending, PassOk;
      LivePart(hash, w.s, w.m, p);
      ChangeAccounts(hash, w.s, w'.s, w.m, w'.m, p, w'.passes[i], but);
    }
  }

  lemma LivePart<K(!new), V>(hash: K -> Hash, s: State<K, V>, m: map<K, V>, p: Pass<K>)
    requires PassOk(hash, s, m, p)
    ensures p.live <= m.Keys
  {
  }

  /** The operation that an event is. */
  function OpOf<K, V>(e: Event<K, V>): (op: Op<K, V>)
    requires IsChange(e)
  {
    match e
    case EvAdd(k, v) => OpAdd(k, v)
    case EvReplace(k, v) => OpReplace(k, v)
    case EvFind(k) => OpFind(k)
    case EvDelete(k) => OpDelete(k)
    case EvExpand(size) => OpExpand(size)
    case EvResize => OpResize
    case EvAllowResize(allow) => OpAllowResize(allow)
  }

  lemma IsExec<K, V>(hash: K -> Hash, w: World<K, V>, e: Event<K, V>)
    requires IsChange(e) && Allowed(w, e)
    ensures var w' := Happen(hash, w, e);
            && w'.s == Exec(hash, w.s, OpOf(e)).0 && w'.m == MapAfter(w.m, OpOf(e))
            && w'.passes == if e.EvDelete? then Without(w.passes, e.k) else w.passes
  {
    hide Add, Replace, Delete, Find, Expand, Resize, Without;
  }

  lemma WithoutStarted<K>(passes: seq<Pass<K>>, k: K)
    ensures |Without(passes, k)| == |passes|
    ensures forall i :: 0 <= i < |passes| ==> Started(Without(passes, k)[i]) == Started(passes[i])
  {
  }

  lemma SizesKept<K(!new), V>(hash: K -> Hash, w: World<K, V>, e: Event<K, V>)
    requires Represents(hash, w.s, w.m) && Sizes(w.s, MAX_BUCKETS) && IsChange(e) && Allowed(w, e)
    ensures Sizes(Exec(hash, w.s, OpOf(e)).0, MAX_BUCKETS) && Fits(hash, w.s, OpOf(e))
  {
    MaxIsLimit();
    hide Represents, Sizes, IsLimit, Exec, Fits;
    if e.EvFind? || e.EvDelete? {
      SearchSizes(hash, w.s, e.k, MAX_BUCKETS);
      SearchAlwaysFits(hash, w.s, e);
    } else if e.EvExpand? {
      ExpandSizes(w.s, e.size, MAX_BUCKETS);
      SearchAlwaysFits(hash, w.s, e);
    } else if e.EvAllowResize? {
      AllowSizes(w.s, e.allow, MAX_BUCKETS);
      SearchAlwaysFits(hash, w.s, e);
    } else {
      ExecSizes(hash, w.s, w.m, OpOf(e), MAX_BUCKETS);
      InRangeFits(hash, w.s, w.m, OpOf(e));
    }
  }

  lemma SearchAlwaysFits<K, V>(hash: K -> Hash, s: State<K, V>, e: Event<K, V>)
    requires e.EvFind? || e.EvDelete? || e.EvExpand? || e.EvAllowResize?
    ensures Fits(hash, s, OpOf(e))
    ensures e.EvFind? ==> Exec(hash, s, OpOf(e)).0 == Find(hash, s, e.k).0
    ensures e.EvDelete? ==> Exec(hash, s, OpOf(e)).0 == Delete(hash, s, e.k).0
    ensures e.EvExpand? ==> Exec(hash, s, OpOf(e)).0 == Expand(s, e.size).0
    ensures e.EvAllowResize? ==> Exec(hash, s, OpOf(e)).0 == s.(canResize := e.allow)
  {
    hide Find, Delete, Expand, AddFits;
  }

  lemma {:induction false} ExecCounts<K(!new), V>(hash: K -> Hash, s: State<K, V>, m: map<K, V>, op: Op<K, V>)
    requires Represents(hash, s, m)
    ensures Exec(hash, s, op).0.iterators == s.iterators
  {
    hide Add, Replace, Find, Delete, Rehash, Represents, NextPower, EmptyTable, ToInt;
    match op
    case OpAdd(k, v) => AddCounts(hash, s, k, v);
    case OpReplace(k, v) => ReplaceCounts(hash, s, k, v);
    case OpFind(k) => FindCounts(hash, s, k);
    case OpDelete(k) => FindCounts(hash, s, k);
    case OpRehash(n) => RehashCounts(hash, s, n);
    case _ =>
  }

  lemma ChangeIsOk<K(!new), V>(hash: K -> Hash, w: World<K, V>, e: Event<K, V>)
    requires WorldOk(hash, w) && IsChange(e) && Allowed(w, e)
    ensures WorldOk(hash, Happen(hash, w, e))
  {
    hide Represents, AnyPassOk, Exec, MapAfter, MapAnswer, CountStarted, Started, Sizes, Fits, Happen, Allowed;
    var w' := Happen(hash, w, e);
    IsExec(hash, w, e);
    if e.EvDelete? {
      WithoutStarted(w.passes, e.k);
    }
    hide Without;
    forall i | 0 <= i < |w.passes| ensures AnyPassOk(hash, w'.s, w'.m, w'.passes[i]) {
      ChangeKeeps(hash, w, e, i);
    }
    CountSame(w.passes, w'.passes);
    SizesKept(hash, w, e);
    ExecRefinesMap(hash, w.s, w.m, OpOf(e));
    ExecCounts(hash, w.s, w.m, OpOf(e));
  }

  /** Starting, advancing or releasing one iterator leaves the other passes exact. */
  lemma OthersKeep<K(!new), V>(hash: K -> Hash, w: World<K, V>, s': State<K, V>, ps: seq<Pass<K>>, j: nat)
    requires WorldOk(hash, w) && j < |w.passes| && j < |ps| && ps[j] == w.passes[j]
    requires s' == w.s.(iterators := s'.iterators) && CountStarted(ps) <= s'.iterators
    ensures AnyPassOk(hash, s', w.m, ps[j])
  {
    hide Represents, PassOk, CountStarted;
    if !ps[j].released {
      if Started(ps[j]) {
        CountPositive(ps, j);
      }
      IteratorsChange(hash, w.s, s', w.m, ps[j]);
    }
  }

  lemma OpenIsOk<K(!new), V>(hash: K -> Hash, w: World<K, V>)
    requires WorldOk(hash, w)
    ensures WorldOk(hash, Happen(hash, w, EvOpen))
  {
    var p := Pass(Start(), w.m.Keys, [], false, false);
    StartOk(hash, w.s, w.m, p);
    CountSnoc(w.passes, p);
    hide Represents, PassOk, CountStarted;
  }

  lemma StartOk<K(!new), V>(hash: K -> Hash, s: State<K, V>, m: map<K, V>, p: Pass<K>)
    requires Represents(hash, s, m) && p == Pass(Start(), m.Keys, [], false, false)
    ensures PassOk(hash, s, m, p)
  {
    RepresentsValid(hash, s, m);
    hide Represents, Valid, Pending, Lookup;
    forall k | k in m ensures Accounted(hash, s, p, k) {
      StartPending(hash, s, p.it, k);
      LookupNone(hash, s, m, k);
    }
  }

  lemma NextIsOk<K(!new), V>(hash: K -> Hash, w: World<K, V>, i: nat)
    requires WorldOk(hash, w) && Allowed(w, EvNext(i))
    ensures WorldOk(hash, Happen(hash, w, EvNext(i)))
  {
    var p := w.passes[i];
    var (s', it', r) := Next(w.s, p.it);
    var p' := Returned(p, it', r);
    assert AnyPassOk(hash, w.s, w.m, p);
    NextAccounts(hash, w.s, w.m, p);
    NextCounts(hash, w.s, w.m, p.it);
    NextReturns(hash, w.s, p.it);
    assert it'.index >= 0;
    CountUpdate(w.passes, i, p');
    hide *;
    OnePassChanged(hash, w, s', i, p');
  }

  lemma OnePassChanged<K(!new), V>(hash: K -> Hash, w: World<K, V>, s': State<K, V>, i: nat, p': Pass<K>)
    requires WorldOk(hash, w) && i < |w.passes| && AnyPassOk(hash, s', w.m, p')
    requires s' == w.s.(iterators := s'.iterators) && CountStarted(w.passes[i := p']) <= s'.iterators
    ensures WorldOk(hash, w.(s := s', passes := w.passes[i := p']))
  {
    var ps := w.passes[i := p'];
    forall j | 0 <= j < |ps| ensures AnyPassOk(hash, s', w.m, ps[j]) {
      if j != i {
        OthersKeep(hash, w, s', ps, j);
      }
    }
    SameTables(hash, w.s, s', w.m);
    hide Represents, AnyPassOk, CountStarted;
  }

  lemma ReleaseIsOk<K(!new), V>(hash: K -> Hash, w: World<K, V>, i: nat)
    requires WorldOk(hash, w) && Allowed(w, EvRelease(i))
    ensures WorldOk(hash, Happen(hash, w, EvRelease(i)))
  {
    var p := w.passes[i];
    var p' := p.(released := true);
    assert AnyPassOk(hash, w.s, w.m, p);
    EndedIsExact(hash, w.s, w.m, p);
    IterBounds(hash, w.s, p.it);
    CountUpdate(w.passes, i, p');
    hide Represents, PassOk, CountStarted, Exact, IterOk;
    OnePassChanged(hash, w, Release(w.s, p.it), i, p');
  }

  lemma EndedIsExact<K(!new), V>(hash: K -> Hash, s: State<K, V>, m: map<K, V>, p: Pass<K>)
    requires PassOk(hash, s, m, p)
    ensures Exact(p) && Exact(p.(released := true))
  {
    hide IterOk, Pending;
    if p.ended {
      forall k | k in p.live ensures multiset(p.out)[k] == 1 {
        assert Accounted(hash, s, p, k);
      }
    }
  }

  lemma HappenKeeps<K(!new), V>(hash: K -> Hash, w: World<K, V>, e: Event<K, V>)
    requires WorldOk(hash, w) && Allowed(w, e)
    ensures WorldOk(hash, Happen(hash, w, e))
  {
    hide WorldOk, Happen;
    match e
    case EvOpen => OpenIsOk(hash, w);
    case EvNext(i) => NextIsOk(hash, w, i);
    case EvRelease(i) => ReleaseIsOk(hash, w, i);
    case _ => ChangeIsOk(hash, w, e);
  }

  ghost predicate AllAllowed<K(!new), V>(hash: K -> Hash, w: World<K, V>, es: seq<Event<K, V>>)
    decreases |es|
  {
    es == [] || (Allowed(w, es[0]) && AllAllowed(hash, Happen(hash, w, es[0]), es[1..]))
  }

  ghost function HappenAll<K(!new), V>(hash: K -> Hash, w: World<K, V>, es: seq<Event<K, V>>): World<K, V>
    requires AllAllowed(hash, w, es)
    decreases |es|
  {
    if es == [] then w else HappenAll(hash, Happen(hash, w, es[0]), es[1..])
  }

  lemma {:induction false} HappenAllKeeps<K(!new), V>(hash: K -> Hash, w: World<K, V>, es: seq<Event<K, V>>)
    requires WorldOk(hash, w) && AllAllowed(hash, w, es)
    ensures WorldOk(hash, HappenAll(hash, w, es))
    decreases |es|
  {
    hide WorldOk, Happen, Allowed;
    if es != [] {
      HappenKeeps(hash, w, es[0]);
      HappenAllKeeps(hash, Happen(hash, w, es[0]), es[1..]);
    }
  }

  /**
    However many safe iterators are opened, advanced and released in turns, and whatever is found, added (even if that
    starts a rehash), overwritten or deleted on the way: each pass for which dictNext has reported the end has returned
    every entry that was present throughout exactly once.
   */
  lemma FullPassReturnsEachOnce<K(!new), V>(hash: K -> Hash, s: State<K, V>, m: map<K, V>, es: seq<Event<K, V>>)
    requires Represents(hash, s, m) && Sizes(s, MAX_BUCKETS) && AllAllowed(hash, World(s, m, []), es)
    ensures var w := HappenAll(hash, World(s, m, []), es);
            && Represents(hash, w.s, w.m)
            && (forall i, k :: 0 <= i < |w.passes| && w.passes[i].ended && k in w.passes[i].live ==>
                  multiset(w.passes[i].out)[k] == 1)
  {
    var w0 := World(s, m, []);
    assert WorldOk(hash, w0);
    HappenAllKeeps(hash, w0, es);
    var w := HappenAll(hash, w0, es);
    hide HappenAll, AllAllowed, Represents, PassOk, Exact, CountStarted;
    forall i | 0 <= i < |w.passes| ensures Exact(w.passes[i]) {
      assert AnyPassOk(hash, w.s, w.m, w.passes[i]);
      if !w.passes[i].released {
        EndedIsExact(hash, w.s, w.m, w.passes[i]);
      }
    }
    ExactMeans(w.passes);
  }

  lemma ExactMeans<K(!new)>(ps: seq<Pass<K>>)
    requires forall i :: 0 <= i < |ps| ==> Exact(ps[i])
    ensures forall i, k :: 0 <= i < |ps| && ps[i].ended && k in ps[i].live ==> multiset(ps[i].out)[k] == 1
  {
  }

  /**
    An open iterator may always go on, and the entry that it returned last may be deleted unless another iterator has
    saved that entry.
   */
  lemma CurrentMayBeDeleted<K(!new), V>(hash: K -> Hash, w: World<K, V>, i: nat, k: K)
    requires WorldOk(hash, w) && Open(w, i)
    ensures Allowed(w, EvNext(i)) && Allowed(w, EvRelease(i))
    ensures w.passes[i].it.entry == Some(k) && (forall j :: Open(w, j) && j != i ==> w.passes[j].it.next != Some(k)) ==>
              Allowed(w, EvDelete(k))
  {
    assert AnyPassOk(hash, w.s, w.m, w.passes[i]);
  }

  // ---- What breaks a pass ----

  /** An explicit dictRehash, which does not look at the count of iterators, makes what it moves pending again. */
  lemma MovedIsPending<K(!new), V>(hash: K -> Hash, s: State<K, V>, m: map<K, V>, it: Iter<K>, k: K)
    requires Represents(hash, s, m) && s.Rehashing() && s.ht0.used > 0 && it.table == 0
    requires Lookup1(hash, s.ht0.buckets, k).Some?
    requires forall i :: s.rehashidx <= i < Index(hash, k, |s.ht0.buckets|) ==> s.ht0.buckets[i] == []
    ensures Pending(hash, RehashOne(hash, s), it, k)
  {
    var s' := RehashOne(hash, s);
    RehashOneKeeps(hash, s, m);
    LookupNone(hash, s, m, k);
    LookupNone(hash, s', m, k);
    MovedBucket(hash, s, m, k);
    hide Represents, Lookup1, RehashOne, Index;
  }

  lemma MovedBucket<K(!new), V>(hash: K -> Hash, s: State<K, V>, m: map<K, V>, k: K)
    requires Represents(hash, s, m) && s.Rehashing() && s.ht0.used > 0 && Lookup1(hash, s.ht0.buckets, k).Some?
    requires forall i :: s.rehashidx <= i < Index(hash, k, |s.ht0.buckets|) ==> s.ht0.buckets[i] == []
    ensures Lookup1(hash, RehashOne(hash, s).ht0.buckets, k).None?
  {
    ScanFindsBucket(hash, s);
    var b := Index(hash, k, |s.ht0.buckets|);
    assert s.ht0.buckets[b] != [];
    hide Index, MoveChain;
    assert FirstNonEmpty(s.ht0.buckets, s.rehashidx) == b;
  }

  /** So a pass that has returned such a key is no longer exact: it returns the key again. */
  lemma RehashBreaksPass<K(!new), V>(hash: K -> Hash, s: State<K, V>, m: map<K, V>, p: Pass<K>, k: K)
    requires Represents(hash, s, m) && s.Rehashing() && s.ht0.used > 0 && p.it.table == 0
    requires Lookup1(hash, s.ht0.buckets, k).Some?
    requires forall i :: s.rehashidx <= i < Index(hash, k, |s.ht0.buckets|) ==> s.ht0.buckets[i] == []
    requires PassOk(hash, s, m, p) && k in p.live && !Pending(hash, s, p.it, k)
    ensures !PassOk(hash, RehashOne(hash, s), m, p)
  {
    assert Accounted(hash, s, p, k);
    MovedIsPending(hash, s, m, p.it, k);
    hide Represents, Pending, RehashOne, Lookup1, Index, IterOk;
    assert !Accounted(hash, RehashOne(hash, s), p, k);
  }

  /** For a table that is too large for an int, dictNext reports the end at once. */
  lemma HugeTableEnds<K, V>(s: State<K, V>)
    requires !s.Rehashing() && 0x8000_0000 <= |s.ht0.buckets| < 0x1_0000_0000
    ensures Next(s, Start()).2 == None
  {
    hide ToInt;
  }

  // The keys 1 and 2 of a table of four buckets that is rehashed, and a pass that has returned the key 1.

  const SMALL_HASH: int -> Hash := (k: int) => if k == 1 then 1 else 2

  ghost const SMALL: State<int, int> :=
    State(Table([[], [Entry(1, 0)], [Entry(2, 0)], []], 2), Table([[], [], [], [], [], [], [], []], 0), 0, 1, true)

  ghost const SMALL_PASS: Pass<int> := Pass(Iter(0, 1, Some(1), None), {1, 2}, [1], false, false)

  lemma SmallIndex()
    ensures forall k, size :: size == 4 || size == 8 ==> Index(SMALL_HASH, k, size) == if k == 1 then 1 else 2
  {
    assert IsPow2(4) && IsPow2(8);
    forall k, size | size == 4 || size == 8 ensures Index(SMALL_HASH, k, size) == if k == 1 then 1 else 2 {
      MaskIsMod(SMALL_HASH(k), size);
    }
  }

  lemma SmallLooksUp(k: int)
    ensures Lookup1(SMALL_HASH, SMALL.ht0.buckets, k) == if k == 1 || k == 2 then Some(0) else None
    ensures Lookup1(SMALL_HASH, SMALL.ht1.buckets, k) == None
  {
    SmallIndex();
    hide Index, SMALL_HASH;
    var t := SMALL.ht0.buckets;
    assert |t| == 4 && t[1] == [Entry(1, 0)] && t[2] == [Entry(2, 0)];
    assert FindIn(t[1], 1) == Some(0) && FindIn(t[2], k) == if k == 2 then Some(0) else None;
    var u := SMALL.ht1.buckets;
    assert |u| == 8 && u[1] == [] && u[2] == [];
  }

  lemma SmallIsOk()
    ensures Represents(SMALL_HASH, SMALL, map[1 := 0, 2 := 0])
  {
    SmallIndex();
    hide Index, SMALL_HASH;
    forall k: int ensures Lookup1(SMALL_HASH, SMALL.ht0.buckets, k) == if k == 1 || k == 2 then Some(0) else None
                  ensures Lookup1(SMALL_HASH, SMALL.ht1.buckets, k) == None {
      SmallLooksUp(k);
    }
    SmallTotal();
    hide Lookup1, Total;
  }

  lemma TotalSnoc<K, V>(t: Buckets<K, V>, c: Chain<K, V>)
    ensures Total(t + [c]) == Total(t) + |c|
  {
    assert (t + [c])[..|t|] == t;
  }

  lemma SmallTotal()
    ensures Total(SMALL.ht0.buckets) == 2 && Total(SMALL.ht1.buckets) == 0
  {
    var t0: Buckets<int, int>, t1: Buckets<int, int> := [], [[]];
    TotalSnoc(t0, []);
    TotalSnoc(t1, [Entry(1, 0)]);
    TotalSnoc([[], [Entry(1, 0)]], [Entry(2, 0)]);
    TotalSnoc([[], [Entry(1, 0)], [Entry(2, 0)]], []);
    assert t0 + [[]] == t1;
    assert t1 + [[Entry(1, 0)]] == [[], [Entry(1, 0)]];
    assert [[], [Entry(1, 0)]] + [[Entry(2, 0)]] == [[], [Entry(1, 0)], [Entry(2, 0)]];
    assert [[], [Entry(1, 0)], [Entry(2, 0)]] + [[]] == SMALL.ht0.buckets;
    TotalZero(SMALL.ht1.buckets);
    TotalZero(t0);
    hide Total;
  }

  lemma RehashBreaksThisPass()
    ensures PassOk(SMALL_HASH, SMALL, map[1 := 0, 2 := 0], SMALL_PASS)
    ensures !PassOk(SMALL_HASH, RehashOne(SMALL_HASH, SMALL), map[1 := 0, 2 := 0], SMALL_PASS)
  {
    SmallIsOk();
    SmallIndex();
    SmallLooksUp(1);
    SmallLooksUp(2);
    hide Index, SMALL_HASH, Represents, Lookup1;
    RepresentsValid(SMALL_HASH, SMALL, map[1 := 0, 2 := 0]);
    assert Accounted(SMALL_HASH, SMALL, SMALL_PASS, 1);
    assert Accounted(SMALL_HASH, SMALL, SMALL_PASS, 2);
    assert PassOk(SMALL_HASH, SMALL, map[1 := 0, 2 := 0], SMALL_PASS);
    RehashBreaksPass(SMALL_HASH, SMALL, map[1 := 0, 2 := 0], SMALL_PASS, 1);
  }
}
