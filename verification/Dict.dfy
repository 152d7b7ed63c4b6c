/** The dict and dictIterator structures of redis-stable/src/dict.c, updated in place as there. */
module Dict {
  import opened Bytes
  import opened DictSpec
  import DictGrowth
  import opened DictIter

  /** A safe iterator; entry and nextEntry are named by key. */
  class SafeIterator<K(==)> {
    var table: nat
    var index: int
    var entry: Option<K>
    var nextEntry: Option<K>

    /** dictGetSafeIterator. */
    constructor ()
      ensures Abs() == Start()
    {
      table, index, entry, nextEntry := 0, -1, None, None;
    }

    ghost function Abs(): Iter<K>
      reads this
    {
      Iter(table, index, entry, nextEntry)
    }
  }

  class Dict<K(==, !new), V> {
    const hash: K -> Hash
    var table0: array<Chain<K, V>>
    var used0: nat
    var table1: array<Chain<K, V>>
    var used1: nat
    var rehashidx: int
    var iterators: nat
    var canResize: bool

    ghost function Abs(): State<K, V>
      reads this, table0, table1
    {
      State(Table(table0[..], used0), Table(table1[..], used1), rehashidx, iterators, canResize)
    }

    /** The tables are distinct objects and stand for the map m. */
    ghost predicate Holds(m: map<K, V>)
      reads this, table0, table1
    {
      table0 != table1 && Represents(hash, Abs(), m)
    }

    ghost function Repr(): set<object>
      reads this
    {
      {this, table0, table1}
    }

    /** dictCreate. */
    constructor (hash: K -> Hash)
      ensures this.hash == hash && Abs() == Created() && Holds(map[]) && fresh(Repr())
    {
      this.hash := hash;
      table0, used0 := new Chain<K, V>[0](_ => []), 0;
      table1, used1 := new Chain<K, V>[0](_ => []), 0;
      rehashidx, iterators, canResize := -1, 0, true;
      new;
      assert table0[..] == [] && table1[..] == [];
    }

    /** Walks a chain until the key is found; the position of its entry, or the length of the chain. */
    method Search(c: Chain<K, V>, k: K) returns (i: nat)
      ensures FirstAt(c, k, i)
    {
      i := 0;
      while i < |c| && c[i].key != k
        invariant i <= |c| && forall j :: 0 <= j < i ==> c[j].key != k
      {
        i := i + 1;
      }
    }

    /** _dictNextPower. */
    method ComputeNextPower(size: nat) returns (p: nat)
      ensures p == NextPower(size)
    {
      if size >= LONG_MAX { return LONG_MAX; }
      p := INITIAL_SIZE;
      while p < size
        invariant IsPow2(p) && p >= INITIAL_SIZE && (p == INITIAL_SIZE || p / 2 < size)
        invariant DoubleUntil(p, size) == NextPower(size)
        decreases if p < size then size - p else 0
      {
        assert p * 2 / 2 == p && p * 2 % 2 == 0;
        p := p * 2;
      }
    }

    /** dictExpand. */
    method DoExpand(size: nat, ghost m: map<K, V>) returns (ok: bool)
      requires Holds(m)
      modifies this
      ensures Holds(m) && (Abs(), ok) == Expand(old(Abs()), size) && fresh(Repr() - old(Repr()))
      ensures ok <==> old(rehashidx) == -1 && |m| <= size
      ensures ok && size < LONG_MAX ==> DictGrowth.Grown(old(Abs()), Abs(), size)
    {
      ghost var s := Abs();
      ExpandKeeps(hash, s, m, size);
      DictGrowth.ExpandSays(hash, s, m, size);
      hide Represents, NextPower, EmptyTable, DictGrowth.Grown;
      if rehashidx != -1 || used0 > size { return false; }
      var realsize := ComputeNextPower(size);
      var n := new Chain<K, V>[realsize](_ => []);
      assert n[..] == EmptyTable<K, V>(realsize) by {
        EmptyTableIs<K, V>(n[..]);
      }
      if table0.Length == 0 {
        table0, used0 := n, 0;
      } else {
        table1, used1, rehashidx := n, 0, 0;
      }
      return true;
    }

    /** The inner loop of dictRehash: pushes the entries of a chain, first to last, onto the chains of the new table. */
    method MoveEntries(c: Chain<K, V>)
      requires table0 != table1 && table1.Length > 0 && |c| <= used0
      modifies this`used0, this`used1, table1
      ensures table1[..] == MoveChain(hash, c, old(table1[..]))
      ensures used0 == old(used0) - |c| && used1 == old(used1) + |c|
    {
      ghost var t := table1[..];
      var i := 0;
      while i < |c|
        invariant 0 <= i <= |c| && used0 == old(used0) - i && used1 == old(used1) + i
        invariant MoveChain(hash, c[i..], table1[..]) == MoveChain(hash, c, t)
      {
        ghost var u := table1[..];
        var h := Index(hash, c[i].key, table1.Length);
        table1[h] := [c[i]] + table1[h];
        assert table1[..] == u[h := [c[i]] + u[h]];
        assert c[i..][1..] == c[i + 1..];
        used0, used1 := used0 - 1, used1 + 1;
        i := i + 1;
      }
    }

    /** Lines 258-261: the scan for the next bucket that is not empty stays inside the table. */
    method SkipEmpty(ghost b: nat)
      requires 0 <= rehashidx <= b < table0.Length && table0[b] != []
      requires forall i :: rehashidx <= i < b ==> table0[i] == []
      modifies this`rehashidx
      ensures rehashidx == b
    {
      while table0[rehashidx] == []
        invariant 0 <= rehashidx <= b && forall i :: rehashidx <= i < b ==> table0[i] == []
        decreases b - rehashidx
      {
        rehashidx := rehashidx + 1;
      }
    }

    /** Lines 258-277: finds the next bucket that is not empty and moves it. */
    method MoveBucket(ghost m: map<K, V>)
      requires Holds(m) && rehashidx != -1 && used0 != 0
      modifies this, table0, table1
      ensures Holds(m) && Abs() == RehashOne(hash, old(Abs()))
      ensures table0 == old(table0) && table1 == old(table1) && rehashidx != -1
    {
      hide Represents, MoveChain, FirstNonEmpty, RehashOne;
      ghost var s := Abs();
      RehashOneKeeps(hash, s, m);
      BucketToMove(hash, s, m);
      ghost var b := FirstNonEmpty(s.ht0.buckets, s.rehashidx);
      SkipEmpty(b);
      var c := table0[rehashidx];
      MoveEntries(c);
      table0[rehashidx] := [];
      assert table0[..] == s.ht0.buckets[rehashidx := []];
      rehashidx := rehashidx + 1;
    }

    /** One iteration of the loop of dictRehash; true when that finished the rehash. */
    method RehashIteration(ghost m: map<K, V>) returns (done: bool)
      requires Holds(m) && Abs().Rehashing()
      modifies this, table0, table1
      ensures Holds(m) && Abs() == RehashOne(hash, old(Abs())) && done == !Abs().Rehashing()
      ensures if done then table0 == old(table1) && fresh(table1) else table0 == old(table0) && table1 == old(table1)
    {
      hide Represents, RehashOne;
      if used0 == 0 {
        FinishRehash(m);
        return true;
      }
      MoveBucket(m);
      return false;
    }

    /** dictRehash. */
    method DoRehash(n: nat, ghost m: map<K, V>) returns (more: bool)
      requires Holds(m)
      modifies this, table0, table1
      ensures Holds(m) && Abs() == Rehash(hash, old(Abs()), n) && fresh(Repr() - old(Repr()))
      ensures more == Abs().Rehashing()
    {
      RehashNext(hash, Abs(), n);
      if rehashidx == -1 { return false; }
      assert Abs().Rehashing();
      hide Holds, Abs, Rehash, RehashOne;
      more := RehashBuckets(n, m);
    }

    /** The loop of dictRehash. */
    method RehashBuckets(n: nat, ghost m: map<K, V>) returns (more: bool)
      requires Holds(m) && Abs().Rehashing()
      modifies this, table0, table1
      ensures Holds(m) && Abs() == Rehash(hash, old(Abs()), n) && more == Abs().Rehashing()
      ensures if more then table0 == old(table0) && table1 == old(table1) else table0 == old(table1) && fresh(table1)
    {
      hide *;
      ghost var goal := Rehash(hash, Abs(), n);
      var left: nat := n;
      more := true;
      while left > 0
        invariant Abs().Rehashing() && Holds(m) && table0 == old(table0) && table1 == old(table1)
        invariant Rehash(hash, Abs(), left) == goal
      {
        RehashNext(hash, Abs(), left);
        left := left - 1;
        var done := RehashIteration(m);
        RehashNext(hash, Abs(), left);
        if done { return false; }
      }
      RehashNext(hash, Abs(), left);
    }

    /** Lines 250-256: the old table is empty, so the new one takes its place. */
    method FinishRehash(ghost m: map<K, V>)
      requires Holds(m) && rehashidx != -1 && used0 == 0
      modifies this
      ensures Holds(m) && Abs() == RehashOne(hash, old(Abs())) && !Abs().Rehashing()
      ensures table0 == old(table1) && fresh(table1)
    {
      RehashOneKeeps(hash, Abs(), m);
      hide Represents;
      table0, used0 := table1, used1;
      table1, used1 := new Chain<K, V>[0](_ => []), 0;
      rehashidx := -1;
      assert table1[..] == [];
    }

    /** _dictRehashStep. */
    method DoRehashStep(ghost m: map<K, V>)
      requires Holds(m)
      modifies this, table0, table1
      ensures Holds(m) && Abs() == RehashStep(hash, old(Abs())) && fresh(Repr() - old(Repr()))
    {
      hide Represents, Rehash;
      if rehashidx != -1 && iterators == 0 {
        var _ := DoRehash(1, m);
      }
    }

    /** _dictExpandIfNeeded. */
    method DoExpandIfNeeded(ghost m: map<K, V>)
      requires Holds(m)
      modifies this
      ensures Holds(m) && Abs() == ExpandIfNeeded(old(Abs())) && fresh(Repr() - old(Repr()))
      ensures var n, size := |m|, old(table0.Length);
              old(rehashidx) == -1 && DictGrowth.Doubled(n, size) < LONG_MAX ==>
                if DictGrowth.Full(n, size, canResize) then
                  DictGrowth.Grown(old(Abs()), Abs(), DictGrowth.Doubled(n, size))
                else Abs() == old(Abs())
    {
      AllInOld(hash, Abs(), m);
      DictGrowth.FirstTable(hash, Abs(), m);
      hide Represents, Expand, DictGrowth.Grown;
      if rehashidx != -1 { return; }
      var size := table0.Length;
      if size == 0 {
        var _ := DoExpand(INITIAL_SIZE, m);
      } else if used0 >= size && (canResize || used0 / size > FORCE_RESIZE_RATIO) {
        var _ := DoExpand((if size > used0 then size else used0) * 2, m);
      }
    }

    /** The search that all operations make: the old table, then the new one while a rehash is in progress. */
    method Locate(k: K, ghost m: map<K, V>) returns (inNew: bool, b: nat, i: nat, found: bool)
      requires Holds(m) && table0.Length > 0
      ensures found == Lookup(hash, Abs(), k).Some?
      ensures !inNew ==> b == Index(hash, k, table0.Length) && (found ==> FirstAt(table0[b], k, i) && i < |table0[b]|)
      ensures inNew ==> table1.Length > 0 && b == Index(hash, k, table1.Length)
      ensures inNew && found ==> FirstAt(table1[b], k, i) && i < |table1[b]|
      ensures inNew == (rehashidx != -1 && Lookup1(hash, table0[..], k).None?)
    {
      RepresentsValid(hash, Abs(), m);
      b := Index(hash, k, table0.Length);
      i := Search(table0[b], k);
      FirstAtSome(table0[b], k, i);
      assert Lookup1(hash, table0[..], k) == FindIn(table0[b], k);
      if i < |table0[b]| { return false, b, i, true; }
      if rehashidx == -1 { return false, b, i, false; }
      b := Index(hash, k, table1.Length);
      i := Search(table1[b], k);
      FirstAtSome(table1[b], k, i);
      assert Lookup1(hash, table1[..], k) == FindIn(table1[b], k);
      return true, b, i, i < |table1[b]|;
    }

    /**
      Lines 352-359: links the new entry in front of its chain, in the new table while a rehash is in progress.  An
      index outside of the table stands for a write to other memory.
     */
    method PushEntry(k: K, v: V, index: int)
      requires table0 != table1
      modifies this`used0, this`used1, table0, table1
      ensures Abs() == WithNewTable(old(Abs()), Link(NewTable(old(Abs())), index, k, v))
    {
      ghost var s := Abs();
      if rehashidx != -1 {
        if 0 <= index < table1.Length {
          table1[index] := [Entry(k, v)] + table1[index];
          assert table1[..] == s.ht1.buckets[index := [Entry(k, v)] + s.ht1.buckets[index]];
        }
        used1 := used1 + 1;
      } else {
        if 0 <= index < table0.Length {
          table0[index] := [Entry(k, v)] + table0[index];
          assert table0[..] == s.ht0.buckets[index := [Entry(k, v)] + s.ht0.buckets[index]];
        }
        used0 := used0 + 1;
      }
    }

    /** _dictKeyIndex once there is room: -1 when the key is there already, else its bucket as an int. */
    method FindIndex(k: K, ghost m: map<K, V>) returns (index: int)
      requires Holds(m) && NewTable(Abs()).buckets != []
      ensures index == KeyIndex(hash, Abs(), k)
    {
      hide Represents, Lookup, ToInt, Index;
      NewIsLater(hash, Abs(), m, k);
      var inNew, b, i, found := Locate(k, m);
      return if found then -1 else ToInt(b);
    }

    /** dictAdd. */
    method DoAdd(k: K, v: V, ghost m: map<K, V>) returns (added: bool)
      requires Holds(m)
      modifies this, table0, table1
      ensures (Abs(), added) == Add(hash, old(Abs()), k, v) && fresh(Repr() - old(Repr()))
      ensures AddFits(hash, old(Abs()), k) <==> Holds(if k in m then m else m[k := v]) && added == (k !in m)
      ensures AddFits(hash, old(Abs()), k) || added || Holds(m)
    {
      hide Represents, RehashStep, ExpandIfNeeded, Lookup, Lookup1, KeyIndex, Link, NewTable, WithNewTable;
      AddKeeps(hash, Abs(), m, k, v);
      WithRoomKeeps(hash, Abs(), m);
      DoRehashStep(m);
      DoExpandIfNeeded(m);
      var index := FindIndex(k, m);
      if index == -1 { return false; }
      PushEntry(k, v, index);
      return true;
    }

    /** dictFind, as the value of the entry found. */
    method DoFind(k: K, ghost m: map<K, V>) returns (r: Option<V>)
      requires Holds(m)
      modifies this, table0, table1
      ensures Holds(m) && (Abs(), r) == Find(hash, old(Abs()), k) && fresh(Repr() - old(Repr()))
      ensures r == Get(m, k)
    {
      hide Represents, RehashStep;
      FindKeeps(hash, Abs(), m, k);
      if table0.Length == 0 { return None; }
      StepKeepsTable(hash, Abs(), m);
      DoRehashStep(m);
      var inNew, b, i, found := Locate(k, m);
      if !found { return None; }
      if inNew {
        FirstAtFinds(table1[b], k, i, table1[b][i].val);
        return Some(table1[b][i].val);
      } else {
        FirstAtFinds(table0[b], k, i, table0[b][i].val);
        return Some(table0[b][i].val);
      }
    }

    /** Unlinks or overwrites the entry at position i of chain b, which is the first one with key k. */
    method EditEntry(inNew: bool, b: nat, i: nat, k: K, put: Option<V>)
      requires table0 != table1
      requires if inNew then b < table1.Length && b == Index(hash, k, table1.Length)
                             && FirstAt(table1[b], k, i) && i < |table1[b]| && used1 > 0
               else b < table0.Length && b == Index(hash, k, table0.Length)
                    && FirstAt(table0[b], k, i) && i < |table0[b]| && used0 > 0
      modifies this`used0, this`used1, table0, table1
      ensures put.None? && !inNew ==> Abs() == old(Abs()).(ht0 := RemoveEntry(hash, old(Abs()).ht0, k))
      ensures put.None? && inNew ==> Abs() == old(Abs()).(ht1 := RemoveEntry(hash, old(Abs()).ht1, k))
      ensures put.Some? && !inNew ==> Abs() == old(Abs()).(ht0 := SetEntry(hash, old(Abs()).ht0, k, put.value))
      ensures put.Some? && inNew ==> Abs() == old(Abs()).(ht1 := SetEntry(hash, old(Abs()).ht1, k, put.value))
    {
      ghost var s := Abs();
      var c := if inNew then table1[b] else table0[b];
      FirstAtFinds(c, k, i, if put.Some? then put.value else c[i].val);
      hide FirstAt, FindIn, RemoveIn, SetIn;
      var c' := if put.Some? then c[i := Entry(k, put.value)] else c[..i] + c[i + 1..];
      if inNew {
        table1[b] := c';
        assert table1[..] == s.ht1.buckets[b := c'];
        if put.None? { used1 := used1 - 1; }
      } else {
        table0[b] := c';
        assert table0[..] == s.ht0.buckets[b := c'];
        if put.None? { used0 := used0 - 1; }
      }
    }

    /** dictGenericDelete. */
    method DoDelete(k: K, ghost m: map<K, V>) returns (found: bool)
      requires Holds(m)
      modifies this, table0, table1
      ensures Holds(m - {k}) && (Abs(), found) == Delete(hash, old(Abs()), k)
      ensures fresh(Repr() - old(Repr())) && found == (k in m)
    {
      hide Represents, RehashStep, FirstAt, RemoveEntry;
      DeleteKeeps(hash, Abs(), m, k);
      if table0.Length == 0 { return false; }
      StepKeepsTable(hash, Abs(), m);
      DoRehashStep(m);
      ghost var s1 := Abs();
      var inNew, b, i;
      inNew, b, i, found := Locate(k, m);
      LookupPlaces(hash, s1, m, k);
      if found {
        EditEntry(inNew, b, i, k, None);
      }
    }

    /** dictReplace; a key that is neither added nor found, whose entry the source would look into, changes nothing. */
    method DoReplace(k: K, v: V, ghost m: map<K, V>) returns (added: bool)
      requires Holds(m)
      modifies this, table0, table1
      ensures (Abs(), added) == Replace(hash, old(Abs()), k, v) && fresh(Repr() - old(Repr()))
      ensures AddFits(hash, old(Abs()), k) <==> Holds(m[k := v]) && added == (k !in m)
    {
      hide Represents, RehashStep, FirstAt, SetEntry, Add;
      ReplaceKeeps(hash, Abs(), m, k, v);
      added := DoAdd(k, v, m);
      if added { return; }
      ghost var s1 := Abs();
      FindKeeps(hash, s1, m, k);
      AddedTable(hash, old(Abs()), m, k, v);
      StepKeepsTable(hash, s1, m);
      DoRehashStep(m);
      ghost var s2 := Abs();
      LookupPlaces(hash, s2, m, k);
      var inNew, b, i, found := Locate(k, m);
      if found {
        EditEntry(inNew, b, i, k, Some(v));
      } else {
        NothingSet(hash, s2, k, v);
      }
    }

    /** dictResize. */
    method DoResize(ghost m: map<K, V>) returns (ok: bool)
      requires Holds(m)
      modifies this
      ensures Holds(m) && (Abs(), ok) == Resize(old(Abs())) && fresh(Repr() - old(Repr()))
      ensures ok <==> canResize && old(rehashidx) == -1 && |m| <= Wanted(|m|)
      ensures ok && Wanted(|m|) < LONG_MAX ==> DictGrowth.Grown(old(Abs()), Abs(), Wanted(|m|))
    {
      AllInOld(hash, Abs(), m);
      hide Represents, Expand, ToInt, DictGrowth.Grown;
      if !canResize || rehashidx != -1 { return false; }
      var minimal := ToInt(used0);
      if minimal < INITIAL_SIZE { minimal := INITIAL_SIZE; }
      ok := DoExpand(minimal, m);
    }

    /** The key after k in its chain. */
    method ChainNext(c: Chain<K, V>, k: K) returns (n: Option<K>)
      ensures n == After(c, k)
    {
      var i := Search(c, k);
      FirstAtPos(c, k, i);
      return if i + 1 < |c| then Some(c[i + 1].key) else None;
    }

    /** One turn of the loop of dictNext: goes to the next bucket; done when it has an entry or there is no bucket. */
    method TryBucket(it: SafeIterator<K>) returns (done: bool)
      requires it.index >= -1 && it.entry == None && it.nextEntry == None && (rehashidx != -1 ==> table1.Length > 0)
      modifies this`iterators, it
      ensures Abs() == old(Abs()).(iterators := iterators)
      ensures done ==> (Abs(), it.Abs(), it.entry) == NextBucket(old(Abs()), old(it.Abs()))
      ensures !done ==> it.index >= 0 && it.entry == None && it.nextEntry == None
      ensures !done ==> NextBucket(Abs(), it.Abs()) == NextBucket(old(Abs()), old(it.Abs()))
      ensures !done ==> if it.table == old(it.table) then old(it.index) < it.index < |TableAt(Abs(), it.table)|
                        else old(it.table) == 0 && it.table == 1
    {
      hide NextBucket, ReadBucket, After, ToInt;
      NextBucketIs(Abs(), it.Abs());
      if it.index == -1 && it.table == 0 { iterators := iterators + 1; }
      it.index := it.index + 1;
      if it.index >= ToInt(if it.table == 0 then table0.Length else table1.Length) {
        if rehashidx != -1 && it.table == 0 {
          it.table, it.index := 1, 0;
        } else {
          return true;
        }
      }
      var c := if it.table == 0 then table0[it.index] else table1[it.index];
      if c == [] { return false; }
      it.entry := Some(c[0].key);
      it.nextEntry := ChainNext(c, c[0].key);
      return true;
    }

    /** The loop of dictNext from the end of a chain on. */
    method ScanBuckets(it: SafeIterator<K>) returns (r: Option<K>)
      requires it.index >= -1 && (rehashidx != -1 ==> table1.Length > 0)
      modifies this`iterators, it
      ensures (Abs(), it.Abs(), r) == NextBucket(old(Abs()), old(it.Abs()).(entry := None, next := None))
    {
      it.entry, it.nextEntry := None, None;
      hide NextBucket, ReadBucket;
      ghost var goal := NextBucket(Abs(), it.Abs());
      var done := false;
      while !done
        invariant Abs() == old(Abs()).(iterators := iterators)
        invariant !done ==> it.index >= -1 && it.entry == None && it.nextEntry == None
        invariant if done then (Abs(), it.Abs(), it.entry) == goal else NextBucket(Abs(), it.Abs()) == goal
        decreases !done, 2 - it.table, |TableAt(Abs(), it.table)| - it.index
      {
        done := TryBucket(it);
      }
      return it.entry;
    }

    /** dictNext. */
    method DoNext(it: SafeIterator<K>, ghost m: map<K, V>) returns (r: Option<K>)
      requires Holds(m) && IterOk(hash, Abs(), it.Abs())
      modifies this`iterators, it
      ensures Holds(m) && (Abs(), it.Abs(), r) == Next(old(Abs()), old(it.Abs()))
      ensures Sizes(old(Abs()), MAX_BUCKETS) ==> IterOk(hash, Abs(), it.Abs())
    {
      ghost var s, i0 := Abs(), it.Abs();
      hide Represents, NextBucket, Pending, Valid, Sizes;
      NextCounts(hash, s, m, i0);
      TablesWhole(hash, s, m);
      if Sizes(s, MAX_BUCKETS) {
        NextReturns(hash, s, i0);
      }
      if it.entry.Some? && it.nextEntry.Some? {
        var c := if it.table == 0 then table0[it.index] else table1[it.index];
        it.entry := it.nextEntry;
        it.nextEntry := ChainNext(c, it.entry.value);
        return it.entry;
      }
      r := ScanBuckets(it);
      SameTables(hash, s, Abs(), m);
    }

    /** dictReleaseIterator; the iterator is not used again. */
    method DoRelease(it: SafeIterator<K>, ghost m: map<K, V>)
      requires Holds(m) && IterOk(hash, Abs(), it.Abs())
      modifies this`iterators
      ensures Holds(m) && Abs() == Release(old(Abs()), it.Abs())
    {
      ghost var s := Abs();
      IterBounds(hash, s, it.Abs());
      hide Represents, IterOk;
      if !(it.index == -1 && it.table == 0) {
        iterators := iterators - 1;
      }
      SameTables(hash, s, Abs(), m);
    }
  }

  /** Position i is that of the first entry with key k, or the end if there is none. */
  ghost predicate FirstAt<K, V>(c: Chain<K, V>, k: K, i: nat) {
    i <= |c| && (forall j :: 0 <= j < i ==> c[j].key != k) && (i < |c| ==> c[i].key == k)
  }

  /** What a walk along the chain finds, unlinks and overwrites. */
  lemma {:induction false} FirstAtFinds<K, V>(c: Chain<K, V>, k: K, i: nat, v: V)
    requires FirstAt(c, k, i)
    ensures FindIn(c, k) == if i < |c| then Some(c[i].val) else None
    ensures i < |c| ==> RemoveIn(c, k) == c[..i] + c[i + 1..] && SetIn(c, k, v) == c[i := Entry(k, v)]
  {
    if i > 0 {
      assert FirstAt(c[1..], k, i - 1);
      FirstAtFinds(c[1..], k, i - 1, v);
      if i < |c| {
        assert c[..i] + c[i + 1..] == [c[0]] + (c[1..][..i - 1] + c[1..][i..]);
        assert c[i := Entry(k, v)] == [c[0]] + c[1..][i - 1 := Entry(k, v)];
      }
    }
  }

  lemma {:induction false} FirstAtPos<K, V>(c: Chain<K, V>, k: K, i: nat)
    requires FirstAt(c, k, i)
    ensures Pos(c, k) == i
  {
    if i > 0 {
      assert FirstAt(c[1..], k, i - 1);
      FirstAtPos(c[1..], k, i - 1);
    }
  }

  lemma FirstAtSome<K, V>(c: Chain<K, V>, k: K, i: nat)
    requires FirstAt(c, k, i)
    ensures FindIn(c, k).Some? <==> i < |c|
  {
    FindInKey(c, k);
  }

  /** A step never leaves the dictionary without a first table. */
  lemma StepKeepsTable<K(!new), V>(hash: K -> Hash, s: State<K, V>, m: map<K, V>)
    requires Represents(hash, s, m) && s.ht0.buckets != []
    ensures RehashStep(hash, s).ht0.buckets != []
  {
    if s.Rehashing() {
      assert Rehash(hash, s, 1) == Rehash(hash, RehashOne(hash, s), 0);
    }
  }

  lemma LookupPlaces<K(!new), V>(hash: K -> Hash, s: State<K, V>, m: map<K, V>, k: K)
    requires Represents(hash, s, m)
    ensures Lookup(hash, s, k).Some? <==> k in m
    ensures k in m ==> s.ht0.buckets != []
    ensures Lookup1(hash, s.ht0.buckets, k).Some? ==> s.ht0.used > 0
    ensures Lookup1(hash, s.ht1.buckets, k).Some? ==> s.ht1.used > 0 && s.Rehashing()
  {
    LookupNone(hash, s, m, k);
    TotalZero(s.ht0.buckets);
    TotalZero(s.ht1.buckets);
  }

  lemma BucketFits<K(!new), V>(hash: K -> Hash, s: State<K, V>, m: map<K, V>)
    requires Represents(hash, s, m) && s.Rehashing()
    ensures s.ht1.buckets != [] && forall b :: 0 <= b < |s.ht0.buckets| ==> |s.ht0.buckets[b]| <= s.ht0.used
  {
    forall b | 0 <= b < |s.ht0.buckets| ensures |s.ht0.buckets[b]| <= s.ht0.used {
      ClearBucket(hash, s.ht0.buckets, b);
    }
  }

  lemma TablesWhole<K(!new), V>(hash: K -> Hash, s: State<K, V>, m: map<K, V>)
    requires Represents(hash, s, m)
    ensures s.Rehashing() ==> s.ht1.buckets != []
  {
  }

  /** While a rehash is in progress, a key that is not there was last looked for in the new table. */
  lemma NewIsLater<K(!new), V>(hash: K -> Hash, s: State<K, V>, m: map<K, V>, k: K)
    requires Represents(hash, s, m) && NewTable(s).buckets != []
    ensures s.ht0.buckets != []
    ensures Lookup(hash, s, k).None? ==> Lookup1(hash, s.ht0.buckets, k).None?
    ensures s.Rehashing() ==> s.ht1.buckets != []
  {
  }

  lemma AddedTable<K(!new), V>(hash: K -> Hash, s: State<K, V>, m: map<K, V>, k: K, v: V)
    requires Represents(hash, s, m) && !Add(hash, s, k, v).1
    ensures Represents(hash, Add(hash, s, k, v).0, m) && Add(hash, s, k, v).0.ht0.buckets != []
  {
    WithRoomKeeps(hash, s, m);
    NewIsLater(hash, WithRoom(hash, s), m, k);
    hide Represents, WithRoom, KeyIndex;
  }

  lemma NothingSet<K, V>(hash: K -> Hash, s: State<K, V>, k: K, v: V)
    requires Lookup(hash, s, k).None?
    ensures Lookup1(hash, s.ht0.buckets, k).None? && s.(ht1 := SetEntry(hash, s.ht1, k, v)) == s
  {
    if s.ht1.buckets != [] {
      NothingSetIn(s.ht1.buckets[Index(hash, k, |s.ht1.buckets|)], k, v);
    }
    hide SetIn;
  }

  lemma {:induction false} NothingSetIn<K, V>(c: Chain<K, V>, k: K, v: V)
    requires FindIn(c, k).None?
    ensures SetIn(c, k, v) == c
  {
    if c != [] {
      NothingSetIn(c[1..], k, v);
    }
  }

  /** What a rehash step does when there are entries left to move. */
  lemma BucketToMove<K(!new), V>(hash: K -> Hash, s: State<K, V>, m: map<K, V>)
    requires Represents(hash, s, m) && s.Rehashing() && s.ht0.used > 0
    ensures s.ht1.buckets != [] && 0 <= s.rehashidx
    ensures exists i :: s.rehashidx <= i < |s.ht0.buckets| && s.ht0.buckets[i] != []
    ensures var b := FirstNonEmpty(s.ht0.buckets, s.rehashidx);
            && s.rehashidx <= b < |s.ht0.buckets| && s.ht0.buckets[b] != [] && |s.ht0.buckets[b]| <= s.ht0.used
            && (forall i :: s.rehashidx <= i < b ==> s.ht0.buckets[i] == [])
            && RehashOne(hash, s)
            == s.(ht0 := Table(s.ht0.buckets[b := []], s.ht0.used - |s.ht0.buckets[b]|),
                  ht1 := Table(MoveChain(hash, s.ht0.buckets[b], s.ht1.buckets), s.ht1.used + |s.ht0.buckets[b]|),
                  rehashidx := b + 1)
  {
    ScanFindsBucket(hash, s);
    BucketFits(hash, s, m);
    RehashingBounds(hash, s, m);
    hide Represents, FirstNonEmpty, MoveChain;
  }

  lemma RehashingBounds<K(!new), V>(hash: K -> Hash, s: State<K, V>, m: map<K, V>)
    requires Represents(hash, s, m) && s.Rehashing()
    ensures 0 <= s.rehashidx <= |s.ht0.buckets|
  {
  }

  lemma EmptyTableIs<K, V>(t: Buckets<K, V>)
    requires forall b :: 0 <= b < |t| ==> t[b] == []
    ensures t == EmptyTable<K, V>(|t|)
  {
  }
}
