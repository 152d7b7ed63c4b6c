/** When the tables of redis-stable/src/dict.c grow, how far, and that rehashing ends. */
module DictGrowth {
  import opened Bytes
  import opened DictSpec

  // ---- What dictExpand, dictResize and dictAdd do to the tables ----

  /** The smallest table size that is large enough. */
  ghost predicate IsSmallest(p: nat, size: nat) {
    && IsPow2(p) && p >= INITIAL_SIZE && p >= size
    && forall q: nat :: IsPow2(q) && q >= INITIAL_SIZE && q >= size ==> p <= q
  }

  lemma SmallestPower(size: nat)
    requires size < LONG_MAX
    ensures IsSmallest(NextPower(size), size)
  {
    var p := NextPower(size);
    forall q: nat | IsPow2(q) && q >= INITIAL_SIZE && q >= size ensures p <= q {
      if p > INITIAL_SIZE { Pow2Gap(p, q); }
    }
    hide NextPower, IsPow2;
  }

  /** New entries go to an empty table of that size; entries that were there wait in the old one to be moved. */
  ghost predicate Grown<K, V>(s: State<K, V>, s': State<K, V>, size: nat) {
    && IsSmallest(|NewTable(s').buckets|, size) && (forall b <- NewTable(s').buckets :: b == [])
    && NewTable(s').used == 0
    && (if s.ht0.buckets == [] then !s'.Rehashing()
        else s'.Rehashing() && s'.rehashidx == 0 && s'.ht0 == s.ht0)
    && s'.iterators == s.iterators && s'.canResize == s.canResize
  }

  lemma Expanded<K, V>(s: State<K, V>, size: nat)
    requires size < LONG_MAX && (s.ht0.buckets == [] ==> !s.Rehashing() && s.ht0.used == 0)
    ensures var (s', ok) := Expand(s, size);
            && ok == (!s.Rehashing() && s.ht0.used <= size)
            && if ok then Grown(s, s', size) else s' == s
  {
    SmallestPower(size);
    hide IsSmallest, NextPower;
  }

  lemma FirstTable<K(!new), V>(hash: K -> Hash, s: State<K, V>, m: map<K, V>)
    requires Represents(hash, s, m)
    ensures s.ht0.buckets == [] ==> !s.Rehashing() && s.ht0.used == 0 && |m| == 0
  {
  }

  lemma ExpandSays<K(!new), V>(hash: K -> Hash, s: State<K, V>, m: map<K, V>, size: nat)
    requires Represents(hash, s, m)
    ensures var (s', ok) := Expand(s, size);
            ok == (!s.Rehashing() && |m| <= size) && (ok && size < LONG_MAX ==> Grown(s, s', size))
  {
    FirstTable(hash, s, m);
    AllInOld(hash, s, m);
    if size < LONG_MAX { Expanded(s, size); }
    hide Represents, Grown, NextPower, EmptyTable;
  }

  /** dictExpand succeeds exactly if no rehash is under way and the keys fit, and makes the smallest table that does. */
  lemma ExpandResult<K(!new), V>(hash: K -> Hash, s: State<K, V>, m: map<K, V>, size: nat)
    requires Represents(hash, s, m) && size < LONG_MAX
    ensures var (s', a) := Exec(hash, s, OpExpand(size));
            var ok := !s.Rehashing() && |m| <= size;
            a == Flag(ok) && if ok then Grown(s, s', size) else s' == s
  {
    FirstTable(hash, s, m);
    AllInOld(hash, s, m);
    hide Represents, Grown, Expand;
    Expanded(s, size);
  }

  /** dictResize asks for the number of keys, at least for four. */
  lemma ResizeResult<K(!new), V>(hash: K -> Hash, s: State<K, V>, m: map<K, V>)
    requires Represents(hash, s, m) && |m| < LONG_MAX
    ensures var (s', a) := Exec(hash, s, OpResize);
            var ok := s.canResize && !s.Rehashing() && |m| <= Wanted(|m|);
            a == Flag(ok) && if ok then Grown(s, s', Wanted(|m|)) else s' == s
    ensures |m| < 0x8000_0000 ==> |m| <= Wanted(|m|)
  {
    FirstTable(hash, s, m);
    AllInOld(hash, s, m);
    hide Represents, Grown, Expand, ToInt;
    if !s.Rehashing() { Expanded(s, Wanted(|m|)); }
  }

  /** A table that is full, or far too full when resizing is off. */
  predicate Full(keys: nat, size: nat, canResize: bool) {
    size == 0 || (keys >= size && (canResize || keys / size > FORCE_RESIZE_RATIO))
  }

  function Doubled(keys: nat, size: nat): nat {
    if size == 0 then INITIAL_SIZE else 2 * if size > keys then size else keys
  }

  /** Between rehashes dictAdd grows the table exactly if it is full, to twice its size or twice the number of keys. */
  lemma AddGrows<K(!new), V>(hash: K -> Hash, s: State<K, V>, m: map<K, V>)
    requires Represents(hash, s, m) && !s.Rehashing() && Doubled(|m|, |s.ht0.buckets|) < LONG_MAX
    ensures var s', size := WithRoom(hash, s), |s.ht0.buckets|;
            if Full(|m|, size, s.canResize) then Grown(s, s', Doubled(|m|, size)) else s' == s
  {
    FirstTable(hash, s, m);
    AllInOld(hash, s, m);
    var size := |s.ht0.buckets|;
    hide Represents, Grown, Expand;
    Expanded(s, Doubled(|m|, size));
  }

  /** The insertion itself leaves the sizes alone. */
  lemma AddSize<K, V>(hash: K -> Hash, s: State<K, V>, k: K, v: V)
    ensures var s', s2 := Add(hash, s, k, v).0, WithRoom(hash, s);
            && |s'.ht0.buckets| == |s2.ht0.buckets| && |s'.ht1.buckets| == |s2.ht1.buckets|
            && s'.rehashidx == s2.rehashidx && s'.iterators == s2.iterators && s'.canResize == s2.canResize
  {
    hide WithRoom, Lookup, KeyIndex;
  }

  // ---- Rehashing ends ----

  /** An upper bound of the rehash steps that are left. */
  ghost function Left<K, V>(s: State<K, V>): int {
    if s.Rehashing() then |s.ht0.buckets| - s.rehashidx + 1 else 0
  }

  /** What changes are contents, not sizes. */
  ghost predicate SameSizes<K, V>(s: State<K, V>, s': State<K, V>) {
    && |NewTable(s').buckets| == |NewTable(s).buckets| && s'.iterators == s.iterators && s'.canResize == s.canResize
    && (s'.Rehashing() ==> s.Rehashing() && |s'.ht0.buckets| == |s.ht0.buckets|)
  }

  /** A rehash step empties a bucket or ends the rehash. */
  lemma RehashOneAdvances<K(!new), V>(hash: K -> Hash, s: State<K, V>, m: map<K, V>)
    requires Represents(hash, s, m) && s.Rehashing()
    ensures var s' := RehashOne(hash, s);
            && SameSizes(s, s') && 0 <= Left(s') < Left(s)
            && (s'.Rehashing() ==> s'.ht0.used < s.ht0.used && s'.rehashidx > s.rehashidx)
            && (s'.Rehashing() <==> s.ht0.used > 0)
  {
    if s.ht0.used > 0 {
      ScanFindsBucket(hash, s);
      RehashOneKeeps(hash, s, m);
      var b := FirstNonEmpty(s.ht0.buckets, s.rehashidx);
      TotalUpdate(s.ht0.buckets, b, []);
    }
    hide WellPlaced, Lookup1, MoveChain, Total, Lookup;
  }

  /** Each step counts, so that dictRehash with as many steps as the old table has buckets left, and one, is done. */
  lemma {:induction false} RehashEnds<K(!new), V>(hash: K -> Hash, s: State<K, V>, m: map<K, V>, n: nat)
    requires Represents(hash, s, m)
    ensures var s' := Rehash(hash, s, n);
            && SameSizes(s, s') && 0 <= Left(s') <= (if Left(s) > n then Left(s) - n else 0)
            && (n >= Left(s) ==> !s'.Rehashing())
    decreases n
  {
    assert Left(s) >= 0;
    hide Represents, RehashOne;
    if n > 0 && s.Rehashing() {
      RehashOneKeeps(hash, s, m);
      RehashOneAdvances(hash, s, m);
      RehashEnds(hash, RehashOne(hash, s), m, n - 1);
    }
  }

  /** While a rehash is under way and no iterator is active, each operation on a key moves it on by a step. */
  lemma OperationsAdvance<K(!new), V>(hash: K -> Hash, s: State<K, V>, m: map<K, V>, k: K)
    requires Represents(hash, s, m) && s.Rehashing() && s.iterators == 0
    ensures Left(Find(hash, s, k).0) < Left(s) && Left(Delete(hash, s, k).0) < Left(s)
    ensures WithRoom(hash, s) == ExpandIfNeeded(RehashOne(hash, s))
  {
    RehashOneAdvances(hash, s, m);
    RehashNext(hash, s, 1);
    RehashNext(hash, RehashOne(hash, s), 0);
    DeleteSize(hash, s, k);
    hide Represents, RehashOne, Rehash, Lookup, Delete, ExpandIfNeeded;
  }

  // ---- The load of the table ----

  /**
    Room for n keys in a dictionary that grows by itself: the new table has a bucket for each, but for one, also if one
    more key arrives with each rehash step.
   */
  ghost predicate Calm<K, V>(s: State<K, V>, n: nat) {
    && s.canResize && s.iterators == 0
    && if s.Rehashing() then n + |s.ht0.buckets| - s.rehashidx <= |s.ht1.buckets| + 1
       else n <= |s.ht0.buckets| + 1 && (s.ht0.buckets == [] ==> n == 0)
  }

  lemma RehashOneCalm<K(!new), V>(hash: K -> Hash, s: State<K, V>, m: map<K, V>)
    requires Represents(hash, s, m) && s.Rehashing() && Calm(s, |m|)
    ensures var s' := RehashOne(hash, s);
            Calm(s', |m|) && (s'.Rehashing() ==> Calm(s', |m| + 1)) && (!s'.Rehashing() ==> s'.ht0.buckets != [])
  {
    RehashOneAdvances(hash, s, m);
    assert s.rehashidx <= |s.ht0.buckets| && s.ht1.buckets != [];
    hide Represents, RehashOne;
  }

  lemma {:induction false} RehashCalm<K(!new), V>(hash: K -> Hash, s: State<K, V>, m: map<K, V>, n: nat)
    requires Represents(hash, s, m) && Calm(s, |m|)
    ensures Calm(Rehash(hash, s, n), |m|)
    decreases n
  {
    hide Represents, RehashOne, Calm;
    if n > 0 && s.Rehashing() {
      RehashOneKeeps(hash, s, m);
      RehashOneCalm(hash, s, m);
      RehashCalm(hash, RehashOne(hash, s), m, n - 1);
    }
  }

  lemma StepCalm<K(!new), V>(hash: K -> Hash, s: State<K, V>, m: map<K, V>)
    requires Represents(hash, s, m) && Calm(s, |m|)
    ensures var s1 := RehashStep(hash, s);
            Represents(hash, s1, m) && Calm(s1, |m|) && (s1.Rehashing() ==> Calm(s1, |m| + 1))
  {
    RehashStepKeeps(hash, s, m);
    RehashNext(hash, s, 1);
    if s.Rehashing() {
      RehashNext(hash, RehashOne(hash, s), 0);
      RehashOneCalm(hash, s, m);
    }
    hide Represents, RehashOne, Rehash;
  }

  /** There is room for one more key when dictAdd looks for its place. */
  lemma RoomCalm<K(!new), V>(hash: K -> Hash, s: State<K, V>, m: map<K, V>)
    requires Represents(hash, s, m) && Calm(s, |m|) && 2 * |m| <= MAX_BUCKETS
    ensures Calm(WithRoom(hash, s), |m| + 1)
  {
    var s1 := RehashStep(hash, s);
    StepCalm(hash, s, m);
    if !s1.Rehashing() {
      RehashStepIdle(hash, s1);
      FirstTable(hash, s1, m);
      if Full(|m|, |s1.ht0.buckets|, s1.canResize) {
        AddGrows(hash, s1, m);
      } else if 2 * |s1.ht0.buckets| < LONG_MAX {
        AddGrows(hash, s1, m);
      }
    }
    AllInOld(hash, s1, m);
    hide Represents, RehashStep, Expand, IsSmallest;
  }

  lemma RehashStepIdle<K, V>(hash: K -> Hash, s: State<K, V>)
    ensures !s.Rehashing() ==> RehashStep(hash, s) == s && WithRoom(hash, s) == ExpandIfNeeded(s)
    ensures s.Rehashing() ==> ExpandIfNeeded(s) == s
    ensures WithRoom(hash, s) == ExpandIfNeeded(RehashStep(hash, s))
  {
    hide Rehash, Expand;
  }

  /** Calm depends on the sizes alone. */
  lemma CalmSizes<K, V>(s: State<K, V>, s': State<K, V>, n: nat, n': nat)
    requires Calm(s, n) && n' <= n
    requires |s'.ht0.buckets| == |s.ht0.buckets| && |s'.ht1.buckets| == |s.ht1.buckets|
    requires s'.rehashidx == s.rehashidx && s'.iterators == s.iterators && s'.canResize == s.canResize
    ensures Calm(s', n')
  {
  }

  lemma AddCalm<K(!new), V>(hash: K -> Hash, s: State<K, V>, m: map<K, V>, k: K, v: V, m': map<K, V>)
    requires Represents(hash, s, m) && Calm(s, |m|) && 2 * |m| <= MAX_BUCKETS && |m'| <= |m| + 1
    ensures Calm(Add(hash, s, k, v).0, |m'|)
  {
    hide *;
    RoomCalm(hash, s, m);
    AddSize(hash, s, k, v);
    CalmSizes(WithRoom(hash, s), Add(hash, s, k, v).0, |m| + 1, |m'|);
  }

  lemma ReplaceSize<K, V>(hash: K -> Hash, s: State<K, V>, k: K, v: V)
    ensures var s1 := Add(hash, s, k, v).0;
            var s2, s' := if Add(hash, s, k, v).1 then s1 else Find(hash, s1, k).0, Replace(hash, s, k, v).0;
            && |s'.ht0.buckets| == |s2.ht0.buckets| && |s'.ht1.buckets| == |s2.ht1.buckets|
            && s'.rehashidx == s2.rehashidx && s'.iterators == s2.iterators && s'.canResize == s2.canResize
  {
    hide Add, Find, Lookup1, SetIn;
  }

  lemma FindCalm<K(!new), V>(hash: K -> Hash, s: State<K, V>, m: map<K, V>, k: K)
    requires Represents(hash, s, m) && Calm(s, |m|)
    ensures Calm(Find(hash, s, k).0, |m|)
  {
    StepCalm(hash, s, m);
    hide Represents, RehashStep, Calm, Lookup;
  }

  lemma ReplaceCalm<K(!new), V>(hash: K -> Hash, s: State<K, V>, m: map<K, V>, k: K, v: V)
    requires Represents(hash, s, m) && Calm(s, |m|) && 2 * |m| <= MAX_BUCKETS && AddFits(hash, s, k)
    ensures Calm(Replace(hash, s, k, v).0, |m[k := v]|)
  {
    hide *;
    AddKeeps(hash, s, m, k, v);
    ReplaceSize(hash, s, k, v);
    var s1, m1 := Add(hash, s, k, v).0, if k in m then m else m[k := v];
    AddCalm(hash, s, m, k, v, m1);
    var s2 := if Add(hash, s, k, v).1 then s1 else Find(hash, s1, k).0;
    if !Add(hash, s, k, v).1 {
      FindCalm(hash, s1, m1, k);
    }
    CalmSizes(s2, Replace(hash, s, k, v).0, |m1|, |m[k := v]|);
  }

  lemma DeleteSize<K, V>(hash: K -> Hash, s: State<K, V>, k: K)
    ensures var s1, s' := if s.ht0.buckets == [] then s else RehashStep(hash, s), Delete(hash, s, k).0;
            && |s'.ht0.buckets| == |s1.ht0.buckets| && |s'.ht1.buckets| == |s1.ht1.buckets|
            && s'.rehashidx == s1.rehashidx && s'.iterators == s1.iterators && s'.canResize == s1.canResize
  {
    hide RehashStep, RemoveIn, Lookup1;
  }

  lemma DeleteCalm<K(!new), V>(hash: K -> Hash, s: State<K, V>, m: map<K, V>, k: K)
    requires Represents(hash, s, m) && Calm(s, |m|)
    ensures Calm(Delete(hash, s, k).0, |m - {k}|)
  {
    hide *;
    StepCalm(hash, s, m);
    DeleteSize(hash, s, k);
    var s1 := if s.ht0.buckets == [] then s else RehashStep(hash, s);
    assert |m - {k}| <= |m|;
    CalmSizes(s1, Delete(hash, s, k).0, |m|, |m - {k}|);
  }

  /** The tables are resized by dictAdd alone, which is always allowed to. */
  predicate Automatic<K, V>(op: Op<K, V>) {
    !op.OpExpand? && !op.OpResize? && (op.OpAllowResize? ==> op.allow)
  }

  lemma ExecCalm<K(!new), V>(hash: K -> Hash, s: State<K, V>, m: map<K, V>, op: Op<K, V>)
    requires Represents(hash, s, m) && Calm(s, |m|) && 2 * |m| <= MAX_BUCKETS && Automatic(op) && Fits(hash, s, op)
    ensures Calm(Exec(hash, s, op).0, |MapAfter(m, op)|)
  {
    hide Represents, Calm, AddFits, Add, Replace, Delete, Find, Rehash;
    match op
    case OpAdd(k, v) => AddCalm(hash, s, m, k, v, MapAfter(m, op));
    case OpReplace(k, v) => ReplaceCalm(hash, s, m, k, v);
    case OpDelete(k) => DeleteCalm(hash, s, m, k);
    case OpFind(k) => FindCalm(hash, s, m, k);
    case OpRehash(n) => RehashCalm(hash, s, m, n);
    case OpAllowResize(allow) => AllowCalm(s, |m|);
  }

  lemma AllowCalm<K, V>(s: State<K, V>, n: nat)
    requires Calm(s, n)
    ensures Calm(s.(canResize := true), n)
  {
  }

  lemma {:induction false} RunCalm<K(!new), V>(hash: K -> Hash, s: State<K, V>, m: map<K, V>, ops: seq<Op<K, V>>)
    requires Represents(hash, s, m) && Calm(s, |m|) && AllFit(hash, s, ops) && AllInRange(m, ops, MAX_BUCKETS)
    requires forall op :: op in ops ==> Automatic(op)
    ensures Calm(ExecAll(hash, s, ops).0, |MapAfterAll(m, ops)|)
    decreases |ops|
  {
    hide Represents, Calm, Exec, MapAfter, MapAnswer, Fits, Automatic;
    if ops != [] {
      assert ops[0] in ops;
      ExecCalm(hash, s, m, ops[0]);
      ExecRefinesMap(hash, s, m, ops[0]);
      RunCalm(hash, Exec(hash, s, ops[0]).0, MapAfter(m, ops[0]), ops[1..]);
    }
  }

  /**
    A dictionary that is left to itself never gets crowded: after any number of additions, deletions, lookups and rehash
    steps it has at most one key more than buckets in the table that new entries go to.
   */
  lemma LoadStaysLow<K(!new), V>(hash: K -> Hash, ops: seq<Op<K, V>>)
    requires AllInRange(map[], ops, MAX_BUCKETS) && forall op :: op in ops ==> Automatic(op)
    ensures |MapAfterAll(map[], ops)| <= |NewTable(ExecAll(hash, Created(), ops).0).buckets| + 1
  {
    var s0, m0: map<K, V> := Created<K, V>(), map[];
    CreatedIsEmpty<K, V>(hash);
    assert Sizes(s0, MAX_BUCKETS) && Calm(s0, 0);
    NewDictionaryIsMap(hash, ops);
    hide Created, Sizes, Exec, MapAfter, MapAnswer, Automatic;
    AllInRangeFit(hash, s0, m0, ops);
    RunCalm(hash, s0, m0, ops);
    CalmLoad(hash, ExecAll(hash, s0, ops).0, MapAfterAll(m0, ops));
  }

  lemma CalmLoad<K(!new), V>(hash: K -> Hash, s: State<K, V>, m: map<K, V>)
    requires Represents(hash, s, m) && Calm(s, |m|)
    ensures |m| <= |NewTable(s).buckets| + 1
  {
    hide TableOk, Lookup, Lookup1;
  }
}
