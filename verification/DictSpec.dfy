/**
  The incrementally rehashed hash table of redis-stable/src/dict.c as functions on its state: two bucket tables, a
  rehash cursor and a count of safe iterators.  The class in Dict.dfy computes these functions.
 */
module DictSpec {
  import opened Bytes

  const INITIAL_SIZE := 4
  const FORCE_RESIZE_RATIO := 5
  const LONG_MAX := 0x7fff_ffff_ffff_ffff

  /** Tables of at most so many buckets are those over which an int can run. */
  const MAX_BUCKETS := 0x4000_0000

  /** What a hash function returns, an unsigned int. */
  type Hash = h: nat | h < 0x1_0000_0000

  /** The conversion of an unsigned value to an int. */
  function ToInt(n: nat): (i: int)
    ensures i <= n && (n < 0x8000_0000 ==> i == n)
    ensures 0x8000_0000 <= n < 0x1_0000_0000 ==> i == n - 0x1_0000_0000 < 0
  {
    var low := n % 0x1_0000_0000;
    if low < 0x8000_0000 then low else low - 0x1_0000_0000
  }

  datatype Entry<K, V> = Entry(key: K, val: V)
  type Chain<K, V> = seq<Entry<K, V>>
  type Buckets<K, V> = seq<Chain<K, V>>

  /** A table with its entry count; the NULL table is the one without buckets. */
  datatype Table<K, V> = Table(buckets: Buckets<K, V>, used: nat)

  datatype State<K, V> = State(ht0: Table<K, V>, ht1: Table<K, V>, rehashidx: int, iterators: nat, canResize: bool) {
    predicate Rehashing() { rehashidx != -1 }
  }

  // ---- Bucket index ----

  /** Bitwise and. */
  function BitAnd(x: nat, y: nat): (r: nat)
    ensures r <= y
  {
    if x == 0 || y == 0 then 0
    else 2 * BitAnd(x / 2, y / 2) + (if x % 2 == 1 && y % 2 == 1 then 1 else 0)
  }

  function Pow2(k: nat): (p: nat)
    ensures p > 0
  {
    if k == 0 then 1 else 2 * Pow2(k - 1)
  }

  predicate IsPow2(n: nat) {
    n == 1 || (n > 1 && n % 2 == 0 && IsPow2(n / 2))
  }

  /** For sizes that are powers of two, masking is reduction modulo the size. */
  lemma {:induction false} MaskIsMod(h: nat, size: nat)
    requires IsPow2(size)
    ensures BitAnd(h, size - 1) == h % size
    decreases size
  {
    if size > 1 {
      MaskIsMod(h / 2, size / 2);
      assert (size - 1) / 2 == size / 2 - 1;
      DivModTwice(h, size / 2);
    }
  }

  lemma DivModTwice(h: nat, m: nat)
    requires m > 0
    ensures h % (2 * m) == 2 * (h / 2 % m) + h % 2
  {
    var q, r := h / 2 / m, h / 2 % m;
    assert h == 2 * (q * m + r) + h % 2;
    assert h == q * (2 * m) + (2 * r + h % 2);
    QuotientUnique(h, 2 * m, q, 2 * r + h % 2);
  }

  lemma QuotientUnique(h: int, m: int, q: int, r: int)
    requires 0 <= r < m && h == q * m + r
    ensures h % m == r
  {
    var d := h / m - q;
    assert h == h / m * m + h % m;
    assert d * m == r - h % m;
    MultipleBounds(d, m);
  }

  lemma MultipleBounds(d: int, m: int)
    requires m > 0
    ensures d >= 1 ==> d * m >= m
    ensures d <= -1 ==> d * m <= -m
  {
  }

  function Index<K>(hash: K -> Hash, k: K, size: nat): (i: nat)
    requires size > 0
    ensures i < size
  {
    BitAnd(hash(k), size - 1)
  }

  // ---- Chains ----

  ghost function FindIn<K, V>(c: Chain<K, V>, k: K): Option<V> {
    if c == [] then None else if c[0].key == k then Some(c[0].val) else FindIn(c[1..], k)
  }

  /** Unlinks the first entry with this key. */
  ghost function RemoveIn<K, V>(c: Chain<K, V>, k: K): Chain<K, V> {
    if c == [] then [] else if c[0].key == k then c[1..] else [c[0]] + RemoveIn(c[1..], k)
  }

  /** Overwrites the value of the first entry with this key. */
  ghost function SetIn<K, V>(c: Chain<K, V>, k: K, v: V): Chain<K, V> {
    if c == [] then [] else if c[0].key == k then [Entry(k, v)] + c[1..] else [c[0]] + SetIn(c[1..], k, v)
  }

  ghost predicate DistinctKeys<K, V>(c: Chain<K, V>) {
    forall i, j :: 0 <= i < j < |c| ==> c[i].key != c[j].key
  }

  lemma {:induction false} FindInKey<K, V>(c: Chain<K, V>, k: K)
    ensures FindIn(c, k).Some? <==> exists i :: 0 <= i < |c| && c[i].key == k
  {
    if c != [] {
      FindInKey(c[1..], k);
      if i :| 0 <= i < |c| && c[i].key == k {
        assert i > 0 ==> c[1..][i - 1].key == k;
      }
    }
  }

  lemma FindInHead<K, V>(e: Entry<K, V>, c: Chain<K, V>, k: K)
    ensures FindIn([e] + c, k) == if e.key == k then Some(e.val) else FindIn(c, k)
  {
    assert ([e] + c)[1..] == c;
  }

  lemma {:induction false} RemoveInFinds<K, V>(c: Chain<K, V>, k: K, k': K)
    requires DistinctKeys(c)
    ensures FindIn(RemoveIn(c, k), k') == if k' == k then None else FindIn(c, k')
    ensures DistinctKeys(RemoveIn(c, k))
    ensures |RemoveIn(c, k)| == |c| - if FindIn(c, k).Some? then 1 else 0
    ensures forall e :: e in RemoveIn(c, k) ==> e in c
  {
    if c != [] {
      if c[0].key == k {
        FindInKey(c[1..], k);
      } else {
        RemoveInFinds(c[1..], k, k');
        var r := RemoveIn(c[1..], k);
        FindInHead(c[0], r, k');
        forall j | 0 <= j < |r| ensures r[j].key != c[0].key {
          assert r[j] in c[1..];
        }
      }
    }
  }

  lemma {:induction false} SetInFinds<K, V>(c: Chain<K, V>, k: K, v: V, k': K)
    ensures FindIn(SetIn(c, k, v), k') == if k' == k && FindIn(c, k).Some? then Some(v) else FindIn(c, k')
    ensures |SetIn(c, k, v)| == |c| && forall i :: 0 <= i < |c| ==> SetIn(c, k, v)[i].key == c[i].key
  {
    if c != [] {
      SetInFinds(c[1..], k, v, k');
      if c[0].key == k {
        FindInHead(Entry(k, v), c[1..], k');
      } else {
        FindInHead(c[0], SetIn(c[1..], k, v), k');
      }
    }
  }

  // ---- Tables ----

  ghost function Lookup1<K, V>(hash: K -> Hash, t: Buckets<K, V>, k: K): Option<V> {
    if t == [] then None else FindIn(t[Index(hash, k, |t|)], k)
  }

  /** Every entry is in the bucket of its hash, and no chain holds a key twice. */
  ghost predicate WellPlaced<K, V>(hash: K -> Hash, t: Buckets<K, V>) {
    && (forall b :: 0 <= b < |t| ==> DistinctKeys(t[b]))
    && (forall b, i :: 0 <= b < |t| && 0 <= i < |t[b]| ==> Index(hash, t[b][i].key, |t|) == b)
  }

  /** The number of entries. */
  ghost function Total<K, V>(t: Buckets<K, V>): nat {
    if t == [] then 0 else Total(t[..|t| - 1]) + |t[|t| - 1]|
  }

  lemma {:induction false} TotalUpdate<K, V>(t: Buckets<K, V>, b: nat, c: Chain<K, V>)
    requires b < |t|
    ensures Total(t[b := c]) == Total(t) - |t[b]| + |c|
  {
    var init := t[..|t| - 1];
    if b == |t| - 1 {
      assert t[b := c][..|t| - 1] == init;
    } else {
      TotalUpdate(init, b, c);
      assert t[b := c][..|t| - 1] == init[b := c];
    }
  }

  lemma {:induction false} TotalZero<K, V>(t: Buckets<K, V>)
    ensures Total(t) == 0 <==> forall b :: 0 <= b < |t| ==> t[b] == []
  {
    if t != [] {
      TotalZero(t[..|t| - 1]);
      assert forall b :: 0 <= b < |t| - 1 ==> t[b] == t[..|t| - 1][b];
    }
  }

  function EmptyTable<K, V>(size: nat): (t: Buckets<K, V>)
    ensures |t| == size && forall b :: 0 <= b < size ==> t[b] == []
  {
    seq(size, b => [])
  }

  // ---- State invariant and the map it stands for ----

  ghost predicate TableOk<K, V>(hash: K -> Hash, t: Table<K, V>) {
    WellPlaced(hash, t.buckets) && t.used == Total(t.buckets)
  }

  ghost predicate Valid<K(!new), V>(hash: K -> Hash, s: State<K, V>) {
    && TableOk(hash, s.ht0) && TableOk(hash, s.ht1)
    && (if s.Rehashing() then
          && 0 <= s.rehashidx <= |s.ht0.buckets| && s.ht0.buckets != [] && s.ht1.buckets != []
          && (forall b :: 0 <= b < s.rehashidx ==> s.ht0.buckets[b] == [])
        else s.ht1 == Table([], 0))
    && (forall k :: Lookup1(hash, s.ht0.buckets, k).None? || Lookup1(hash, s.ht1.buckets, k).None?)
  }

  /** What a search of both tables finds. */
  ghost function Lookup<K, V>(hash: K -> Hash, s: State<K, V>, k: K): Option<V> {
    match Lookup1(hash, s.ht0.buckets, k)
    case Some(v) => Some(v)
    case None => Lookup1(hash, s.ht1.buckets, k)
  }

  ghost function Get<K, V>(m: map<K, V>, k: K): Option<V> {
    if k in m then Some(m[k]) else None
  }

  /** The two tables stand for the finite map m. */
  ghost predicate Represents<K(!new), V>(hash: K -> Hash, s: State<K, V>, m: map<K, V>) {
    && Valid(hash, s)
    && s.ht0.used + s.ht1.used == |m|
    && forall k :: Lookup(hash, s, k) == Get(m, k)
  }

  // ---- Growing (lines 198-237, 608-641) ----

  /** _dictNextPower, which stops doubling at LONG_MAX. */
  function NextPower(size: nat): (p: nat)
    ensures size < LONG_MAX ==> IsPow2(p) && p >= size && p < 0x1_0000_0000_0000_0000
    ensures p >= INITIAL_SIZE
    ensures p > INITIAL_SIZE && size < LONG_MAX ==> p / 2 < size
  {
    if size >= LONG_MAX then LONG_MAX else DoubleUntil(INITIAL_SIZE, size)
  }

  function DoubleUntil(i: nat, size: nat): (p: nat)
    requires IsPow2(i) && i >= INITIAL_SIZE && (i == INITIAL_SIZE || i / 2 < size)
    ensures IsPow2(p) && p >= size && p >= i && (p == INITIAL_SIZE || p / 2 < size)
    decreases if i < size then size - i else 0
  {
    if i >= size then i else DoubleUntil(i * 2, size)
  }

  /** dictExpand; the result says whether it was done. */
  ghost function Expand<K, V>(s: State<K, V>, size: nat): (State<K, V>, bool) {
    if s.Rehashing() || s.ht0.used > size then (s, false)
    else
      var n := Table(EmptyTable<K, V>(NextPower(size)), 0);
      if s.ht0.buckets == [] then (s.(ht0 := n), true)
      else (s.(ht1 := n, rehashidx := 0), true)
  }

  /** dictResize; the wanted size is an int. */
  ghost function Resize<K, V>(s: State<K, V>): (State<K, V>, bool) {
    if !s.canResize || s.Rehashing() then (s, false)
    else
      var minimal := ToInt(s.ht0.used);
      Expand(s, if minimal < INITIAL_SIZE then INITIAL_SIZE else minimal)
  }

  /** _dictExpandIfNeeded. */
  ghost function ExpandIfNeeded<K, V>(s: State<K, V>): State<K, V> {
    var size, used := |s.ht0.buckets|, s.ht0.used;
    if s.Rehashing() then s
    else if size == 0 then Expand(s, INITIAL_SIZE).0
    else if used >= size && (s.canResize || used / size > FORCE_RESIZE_RATIO) then
      Expand(s, (if size > used then size else used) * 2).0
    else s
  }

  // ---- Rehashing (lines 243-311) ----

  /** Moves the entries of a chain, first to last, each to the front of its chain in the new table. */
  ghost function MoveChain<K, V>(hash: K -> Hash, c: Chain<K, V>, t: Buckets<K, V>): (r: Buckets<K, V>)
    requires t != []
    ensures |r| == |t|
  {
    if c == [] then t
    else
      var h := Index(hash, c[0].key, |t|);
      MoveChain(hash, c[1..], t[h := [c[0]] + t[h]])
  }

  ghost function FirstNonEmpty<K, V>(t: Buckets<K, V>, from: nat): (b: nat)
    requires exists i :: from <= i < |t| && t[i] != []
    ensures from <= b < |t| && t[b] != [] && forall i :: from <= i < b ==> t[i] == []
    decreases |t| - from
  {
    if t[from] != [] then from else FirstNonEmpty(t, from + 1)
  }

  /** The scan for a bucket to move never runs off the table: entries that remain are at or after the cursor. */
  lemma ScanFindsBucket<K(!new), V>(hash: K -> Hash, s: State<K, V>)
    requires Valid(hash, s) && s.Rehashing() && s.ht0.used > 0
    ensures s.rehashidx < |s.ht0.buckets|
    ensures exists i :: s.rehashidx <= i < |s.ht0.buckets| && s.ht0.buckets[i] != []
  {
    TotalZero(s.ht0.buckets);
  }

  /** One iteration of dictRehash while a rehash is in progress. */
  ghost function RehashOne<K, V>(hash: K -> Hash, s: State<K, V>): State<K, V> {
    var t := s.ht0.buckets;
    if s.ht0.used == 0 then s.(ht0 := s.ht1, ht1 := Table([], 0), rehashidx := -1)
    else if s.ht1.buckets != [] && exists i :: 0 <= s.rehashidx <= i < |t| && t[i] != [] then
      var b := FirstNonEmpty(t, s.rehashidx);
      s.(ht0 := Table(t[b := []], if |t[b]| <= s.ht0.used then s.ht0.used - |t[b]| else 0),
         ht1 := Table(MoveChain(hash, t[b], s.ht1.buckets), s.ht1.used + |t[b]|),
         rehashidx := b + 1)
    else s  // excluded by ScanFindsBucket
  }

  /** dictRehash with n steps. */
  ghost function Rehash<K, V>(hash: K -> Hash, s: State<K, V>, n: nat): State<K, V>
    decreases n
  {
    if n == 0 || !s.Rehashing() then s else Rehash(hash, RehashOne(hash, s), n - 1)
  }

  lemma RehashNext<K, V>(hash: K -> Hash, s: State<K, V>, n: nat)
    ensures Rehash(hash, s, n) == if n == 0 || !s.Rehashing() then s else Rehash(hash, RehashOne(hash, s), n - 1)
  {
  }

  /** The step that lookups and updates perform: none while a safe iterator is active. */
  ghost function RehashStep<K, V>(hash: K -> Hash, s: State<K, V>): State<K, V> {
    if s.Rehashing() && s.iterators == 0 then Rehash(hash, s, 1) else s
  }

  lemma InsertFront<K(!new), V>(hash: K -> Hash, t: Buckets<K, V>, e: Entry<K, V>)
    requires t != [] && WellPlaced(hash, t) && Lookup1(hash, t, e.key).None?
    ensures var h := Index(hash, e.key, |t|);
            var t' := t[h := [e] + t[h]];
            && WellPlaced(hash, t') && Total(t') == Total(t) + 1
            && forall k :: Lookup1(hash, t', k) == if k == e.key then Some(e.val) else Lookup1(hash, t, k)
  {
    var h := Index(hash, e.key, |t|);
    var t' := t[h := [e] + t[h]];
    FindInKey(t[h], e.key);
    TotalUpdate(t, h, [e] + t[h]);
    forall k ensures Lookup1(hash, t', k) == if k == e.key then Some(e.val) else Lookup1(hash, t, k) {
      FindInHead(e, t[h], k);
    }
  }

  lemma {:induction false} MoveChainFinds<K(!new), V>(hash: K -> Hash, c: Chain<K, V>, t: Buckets<K, V>)
    requires t != [] && WellPlaced(hash, t) && DistinctKeys(c)
    requires forall k :: FindIn(c, k).None? || Lookup1(hash, t, k).None?
    ensures var r := MoveChain(hash, c, t);
            && WellPlaced(hash, r) && Total(r) == Total(t) + |c|
            && forall k :: Lookup1(hash, r, k) == if FindIn(c, k).Some? then FindIn(c, k) else Lookup1(hash, t, k)
  {
    if c != [] {
      var e, rest := c[0], c[1..];
      var h := Index(hash, e.key, |t|);
      var t' := t[h := [e] + t[h]];
      assert FindIn(c, e.key).Some?;
      InsertFront(hash, t, e);
      FindInKey(rest, e.key);
      assert FindIn(rest, e.key).None?;
      hide WellPlaced, Lookup1, Total;
      forall k ensures FindIn(rest, k).None? || Lookup1(hash, t', k).None? {
        assert FindIn(c, k) == if e.key == k then Some(e.val) else FindIn(rest, k);
      }
      MoveChainFinds(hash, rest, t');
    }
  }

  lemma ClearBucket<K(!new), V>(hash: K -> Hash, t: Buckets<K, V>, b: nat)
    requires b < |t| && WellPlaced(hash, t)
    ensures WellPlaced(hash, t[b := []]) && Total(t[b := []]) == Total(t) - |t[b]| && Total(t) >= |t[b]|
    ensures forall k :: FindIn(t[b], k).Some? ==> Index(hash, k, |t|) == b && Lookup1(hash, t, k) == FindIn(t[b], k)
    ensures forall k :: Lookup1(hash, t[b := []], k) == if FindIn(t[b], k).Some? then None else Lookup1(hash, t, k)
  {
    TotalUpdate(t, b, []);
    forall k ensures FindIn(t[b], k).Some? ==> Index(hash, k, |t|) == b {
      FindInKey(t[b], k);
    }
  }

  /** The state after bucket b, the first one that is not empty, has moved, given what the move does to each table. */
  lemma BucketMoved<K(!new), V>(hash: K -> Hash, s: State<K, V>, m: map<K, V>, b: nat)
    requires Represents(hash, s, m) && s.Rehashing() && s.rehashidx <= b < |s.ht0.buckets|
    requires forall i :: s.rehashidx <= i < b ==> s.ht0.buckets[i] == []
    requires var (t0, t1, c) := (s.ht0.buckets, s.ht1.buckets, s.ht0.buckets[b]);
             var (t0', t1') := (t0[b := []], MoveChain(hash, c, t1));
             && WellPlaced(hash, t0') && Total(t0') == Total(t0) - |c|
             && WellPlaced(hash, t1') && Total(t1') == Total(t1) + |c|
             && (forall k :: FindIn(c, k).Some? ==> Lookup1(hash, t0, k) == FindIn(c, k))
             && (forall k :: Lookup1(hash, t0', k) == if FindIn(c, k).Some? then None else Lookup1(hash, t0, k))
             && (forall k :: Lookup1(hash, t1', k) == if FindIn(c, k).Some? then FindIn(c, k) else Lookup1(hash, t1, k))
    ensures var c := s.ht0.buckets[b];
            && |c| <= s.ht0.used
            && Represents(hash, s.(ht0 := Table(s.ht0.buckets[b := []], s.ht0.used - |c|),
                                   ht1 := Table(MoveChain(hash, c, s.ht1.buckets), s.ht1.used + |c|),
                                   rehashidx := b + 1), m)
  {
    hide WellPlaced, Lookup1, MoveChain, FindIn, Get;
  }

  lemma RehashFinishKeeps<K(!new), V>(hash: K -> Hash, s: State<K, V>, m: map<K, V>)
    requires Represents(hash, s, m) && s.Rehashing() && s.ht0.used == 0
    ensures Represents(hash, RehashOne(hash, s), m)
  {
    TotalZero(s.ht0.buckets);
    forall k ensures Lookup1(hash, s.ht0.buckets, k).None? {
    }
  }

  lemma RehashMoveKeeps<K(!new), V>(hash: K -> Hash, s: State<K, V>, m: map<K, V>)
    requires Represents(hash, s, m) && s.Rehashing() && s.ht0.used > 0
    ensures Represents(hash, RehashOne(hash, s), m)
  {
    ScanFindsBucket(hash, s);
    var b := FirstNonEmpty(s.ht0.buckets, s.rehashidx);
    var c := s.ht0.buckets[b];
    ClearBucket(hash, s.ht0.buckets, b);
    assert DistinctKeys(c);
    hide WellPlaced, Lookup1, MoveChain, DistinctKeys, Total;
    MoveChainFinds(hash, c, s.ht1.buckets);
    BucketMoved(hash, s, m, b);
    hide Represents;
  }

  /** One rehash step changes neither the map nor any part of the invariant. */
  lemma RehashOneKeeps<K(!new), V>(hash: K -> Hash, s: State<K, V>, m: map<K, V>)
    requires Represents(hash, s, m) && s.Rehashing()
    ensures Represents(hash, RehashOne(hash, s), m)
  {
    hide Represents, RehashOne;
    if s.ht0.used == 0 {
      RehashFinishKeeps(hash, s, m);
    } else {
      RehashMoveKeeps(hash, s, m);
    }
  }

  lemma {:induction false} RehashKeeps<K(!new), V>(hash: K -> Hash, s: State<K, V>, m: map<K, V>, n: nat)
    requires Represents(hash, s, m)
    ensures Represents(hash, Rehash(hash, s, n), m)
    decreases n
  {
    hide Represents, RehashOne;
    if n > 0 && s.Rehashing() {
      RehashOneKeeps(hash, s, m);
      RehashKeeps(hash, RehashOne(hash, s), m, n - 1);
    }
  }

  lemma RehashStepKeeps<K(!new), V>(hash: K -> Hash, s: State<K, V>, m: map<K, V>)
    requires Represents(hash, s, m)
    ensures Represents(hash, RehashStep(hash, s), m)
  {
    hide Represents, Rehash;
    RehashKeeps(hash, s, m, 1);
  }

  lemma EmptyTableOk<K(!new), V>(hash: K -> Hash, size: nat)
    requires size > 0
    ensures TableOk(hash, Table(EmptyTable<K, V>(size), 0))
    ensures forall k :: Lookup1(hash, EmptyTable<K, V>(size), k) == None
  {
    TotalZero(EmptyTable<K, V>(size));
  }

  lemma ExpandKeeps<K(!new), V>(hash: K -> Hash, s: State<K, V>, m: map<K, V>, size: nat)
    requires Represents(hash, s, m)
    ensures Represents(hash, Expand(s, size).0, m)
    ensures Expand(s, size).1 ==> Expand(s, size).0.ht0.buckets != []
  {
    EmptyTableOk<K, V>(hash, NextPower(size));
    hide NextPower, EmptyTable;
    if s.ht0.buckets == [] {
      assert Total(s.ht0.buckets) == 0;
    }
  }

  /** _dictExpandIfNeeded never fails, and leaves a table to insert into. */
  lemma ExpandIfNeededKeeps<K(!new), V>(hash: K -> Hash, s: State<K, V>, m: map<K, V>)
    requires Represents(hash, s, m)
    ensures Represents(hash, ExpandIfNeeded(s), m)
    ensures ExpandIfNeeded(s).ht0.buckets != []
    ensures ExpandIfNeeded(s).Rehashing() ==> ExpandIfNeeded(s).ht1.buckets != []
  {
    var size, used := |s.ht0.buckets|, s.ht0.used;
    if size == 0 {
      assert Total(s.ht0.buckets) == 0;
    }
    ExpandKeeps(hash, s, m, INITIAL_SIZE);
    ExpandKeeps(hash, s, m, (if size > used then size else used) * 2);
    hide TableOk, NextPower, EmptyTable, Total;
  }

  // ---- Operations (lines 314-498) ----

  ghost function InsertEntry<K, V>(hash: K -> Hash, t: Table<K, V>, k: K, v: V): Table<K, V>
    requires t.buckets != []
  {
    var h := Index(hash, k, |t.buckets|);
    Table(t.buckets[h := [Entry(k, v)] + t.buckets[h]], t.used + 1)
  }

  /** The table that new entries go to. */
  ghost function NewTable<K, V>(s: State<K, V>): Table<K, V> {
    if s.Rehashing() then s.ht1 else s.ht0
  }

  ghost function WithNewTable<K, V>(s: State<K, V>, t: Table<K, V>): State<K, V> {
    if s.Rehashing() then s.(ht1 := t) else s.(ht0 := t)
  }

  /** The result of _dictKeyIndex once the table has room: an int, -1 when the key is there already. */
  ghost function KeyIndex<K, V>(hash: K -> Hash, s: State<K, V>, k: K): int {
    var t := NewTable(s).buckets;
    if Lookup(hash, s, k).Some? || t == [] then -1 else ToInt(Index(hash, k, |t|))
  }

  /** Links a new entry at index i; what is written at an index outside of the table is lost. */
  ghost function Link<K, V>(t: Table<K, V>, i: int, k: K, v: V): Table<K, V> {
    Table(if 0 <= i < |t.buckets| then t.buckets[i := [Entry(k, v)] + t.buckets[i]] else t.buckets, t.used + 1)
  }

  /** The dictionary in which dictAddRaw looks for the key. */
  ghost function WithRoom<K, V>(hash: K -> Hash, s: State<K, V>): State<K, V> {
    ExpandIfNeeded(RehashStep(hash, s))
  }

  /** dictAdd: false when the key is there already. */
  ghost function Add<K, V>(hash: K -> Hash, s: State<K, V>, k: K, v: V): (State<K, V>, bool) {
    var s2 := WithRoom(hash, s);
    var i := KeyIndex(hash, s2, k);
    if i == -1 then (s2, false) else (WithNewTable(s2, Link(NewTable(s2), i, k, v)), true)
  }

  /** The key is there already, or the number of its bucket is an int. */
  ghost predicate AddFits<K, V>(hash: K -> Hash, s: State<K, V>, k: K) {
    var s2 := WithRoom(hash, s);
    Lookup(hash, s2, k).Some? || KeyIndex(hash, s2, k) >= 0
  }

  /** dictFind, which also performs a rehash step. */
  ghost function Find<K, V>(hash: K -> Hash, s: State<K, V>, k: K): (State<K, V>, Option<V>) {
    if s.ht0.buckets == [] then (s, None)
    else
      var s1 := RehashStep(hash, s);
      (s1, Lookup(hash, s1, k))
  }

  ghost function SetEntry<K, V>(hash: K -> Hash, t: Table<K, V>, k: K, v: V): Table<K, V> {
    if t.buckets == [] then t
    else
      var h := Index(hash, k, |t.buckets|);
      t.(buckets := t.buckets[h := SetIn(t.buckets[h], k, v)])
  }

  /** dictReplace: true when the key was added, false when its value was overwritten. */
  ghost function Replace<K, V>(hash: K -> Hash, s: State<K, V>, k: K, v: V): (State<K, V>, bool) {
    var (s1, added) := Add(hash, s, k, v);
    if added then (s1, true)
    else
      var s2 := Find(hash, s1, k).0;
      if Lookup1(hash, s2.ht0.buckets, k).Some? then (s2.(ht0 := SetEntry(hash, s2.ht0, k, v)), false)
      else (s2.(ht1 := SetEntry(hash, s2.ht1, k, v)), false)
  }

  ghost function RemoveEntry<K, V>(hash: K -> Hash, t: Table<K, V>, k: K): Table<K, V>
    requires t.buckets != []
  {
    var h := Index(hash, k, |t.buckets|);
    Table(t.buckets[h := RemoveIn(t.buckets[h], k)], if t.used > 0 then t.used - 1 else 0)
  }

  /** dictGenericDelete: false when there is no such key. */
  ghost function Delete<K, V>(hash: K -> Hash, s: State<K, V>, k: K): (State<K, V>, bool) {
    if s.ht0.buckets == [] then (s, false)
    else
      var s1 := RehashStep(hash, s);
      if Lookup1(hash, s1.ht0.buckets, k).Some? then (s1.(ht0 := RemoveEntry(hash, s1.ht0, k)), true)
      else if Lookup1(hash, s1.ht1.buckets, k).Some? then (s1.(ht1 := RemoveEntry(hash, s1.ht1, k)), true)
      else (s1, false)
  }

  // ---- Each operation acts on the map ----

  lemma InsertEntryOk<K(!new), V>(hash: K -> Hash, t: Table<K, V>, k: K, v: V)
    requires TableOk(hash, t) && t.buckets != [] && Lookup1(hash, t.buckets, k).None?
    ensures var t' := InsertEntry(hash, t, k, v);
            && TableOk(hash, t') && t'.buckets != []
            && forall k' :: Lookup1(hash, t'.buckets, k') == if k' == k then Some(v) else Lookup1(hash, t.buckets, k')
  {
    InsertFront(hash, t.buckets, Entry(k, v));
  }

  /** Table t answers like u, except that k has the answer o. */
  ghost predicate Changed<K(!new), V>(hash: K -> Hash, u: Table<K, V>, t: Table<K, V>, k: K, o: Option<V>) {
    && TableOk(hash, t) && |t.buckets| == |u.buckets|
    && forall k' :: Lookup1(hash, t.buckets, k') == if k' == k then o else Lookup1(hash, u.buckets, k')
  }

  /** Map m' is m, except that k has the answer o. */
  ghost predicate MapChanged<K(!new), V>(m: map<K, V>, m': map<K, V>, k: K, o: Option<V>) {
    forall k' :: Get(m', k') == if k' == k then o else Get(m, k')
  }

  lemma NewHt0<K(!new), V>(hash: K -> Hash, s: State<K, V>, m: map<K, V>, m': map<K, V>, t: Table<K, V>, k: K,
                          o: Option<V>)
    requires Represents(hash, s, m) && Changed(hash, s.ht0, t, k, o) && MapChanged(m, m', k, o)
    requires Lookup1(hash, s.ht1.buckets, k).None? && t.used + s.ht1.used == |m'|
    requires forall b :: 0 <= b < s.rehashidx && s.Rehashing() ==> t.buckets[b] == []
    ensures Represents(hash, s.(ht0 := t), m')
  {
    hide TableOk, Lookup1, Get;
  }

  lemma NewHt1<K(!new), V>(hash: K -> Hash, s: State<K, V>, m: map<K, V>, m': map<K, V>, t: Table<K, V>, k: K,
                          o: Option<V>)
    requires Represents(hash, s, m) && Changed(hash, s.ht1, t, k, o) && MapChanged(m, m', k, o)
    requires Lookup1(hash, s.ht0.buckets, k).None? && s.ht0.used + t.used == |m'| && s.Rehashing()
    ensures Represents(hash, s.(ht1 := t), m')
  {
    hide TableOk, Lookup1, Get;
  }

  lemma LookupNone<K(!new), V>(hash: K -> Hash, s: State<K, V>, m: map<K, V>, k: K)
    requires Represents(hash, s, m)
    ensures Lookup(hash, s, k) == Get(m, k)
    ensures k !in m ==> Lookup1(hash, s.ht0.buckets, k).None? && Lookup1(hash, s.ht1.buckets, k).None?
    ensures Lookup1(hash, s.ht0.buckets, k).Some? ==> Lookup1(hash, s.ht1.buckets, k).None?
    ensures Lookup1(hash, s.ht1.buckets, k).Some? ==> s.Rehashing()
    ensures TableOk(hash, s.ht0) && TableOk(hash, s.ht1) && s.ht0.used + s.ht1.used == |m|
  {
    assert Lookup(hash, s, k) == Get(m, k);
  }

  lemma InsertedIsRepresented<K(!new), V>(hash: K -> Hash, s: State<K, V>, m: map<K, V>, k: K, v: V)
    requires Represents(hash, s, m) && k !in m
    ensures !s.Rehashing() && s.ht0.buckets != [] ==>
              Represents(hash, s.(ht0 := InsertEntry(hash, s.ht0, k, v)), m[k := v])
    ensures s.Rehashing() && s.ht1.buckets != [] ==>
              Represents(hash, s.(ht1 := InsertEntry(hash, s.ht1, k, v)), m[k := v])
  {
    hide Represents, TableOk, Lookup1, Lookup;
    LookupNone(hash, s, m, k);
    var t := if s.Rehashing() then s.ht1 else s.ht0;
    if t.buckets != [] {
      InsertEntryOk(hash, t, k, v);
      var t' := InsertEntry(hash, t, k, v);
      if s.Rehashing() {
        NewHt1(hash, s, m, m[k := v], t', k, Some(v));
      } else {
        NewHt0(hash, s, m, m[k := v], t', k, Some(v));
      }
    }
  }

  lemma WithRoomKeeps<K(!new), V>(hash: K -> Hash, s: State<K, V>, m: map<K, V>)
    requires Represents(hash, s, m)
    ensures Represents(hash, WithRoom(hash, s), m) && NewTable(WithRoom(hash, s)).buckets != []
  {
    hide RehashStep, ExpandIfNeeded, Represents;
    RehashStepKeeps(hash, s, m);
    ExpandIfNeededKeeps(hash, RehashStep(hash, s), m);
  }

  /** With an int for the bucket, the entry lands there. */
  lemma LinkedIsInserted<K(!new), V>(hash: K -> Hash, s: State<K, V>, k: K, v: V)
    requires Lookup(hash, s, k).None? && NewTable(s).buckets != [] && KeyIndex(hash, s, k) >= 0
    ensures Link(NewTable(s), KeyIndex(hash, s, k), k, v) == InsertEntry(hash, NewTable(s), k, v)
  {
    hide Lookup, ToInt, BitAnd;
    HashBounds(hash, k, |NewTable(s).buckets|);
  }

  lemma {:induction false} AndBounds(x: nat, y: nat)
    ensures BitAnd(x, y) <= x
    decreases x
  {
    if x != 0 && y != 0 {
      AndBounds(x / 2, y / 2);
    }
  }

  lemma HashBounds<K>(hash: K -> Hash, k: K, size: nat)
    requires size > 0
    ensures Index(hash, k, size) < 0x1_0000_0000
    ensures ToInt(Index(hash, k, size)) >= 0 ==> ToInt(Index(hash, k, size)) == Index(hash, k, size)
  {
    AndBounds(hash(k), size - 1);
    hide BitAnd;
  }

  /** Otherwise the key is not found afterwards. */
  lemma LinkedIsLost<K(!new), V>(hash: K -> Hash, s: State<K, V>, m: map<K, V>, k: K, v: V)
    requires Lookup(hash, s, k).None? && KeyIndex(hash, s, k) < 0 && k in m
    ensures !Represents(hash, WithNewTable(s, Link(NewTable(s), KeyIndex(hash, s, k), k, v)), m)
  {
    var s' := WithNewTable(s, Link(NewTable(s), KeyIndex(hash, s, k), k, v));
    assert s'.ht0.buckets == s.ht0.buckets && s'.ht1.buckets == s.ht1.buckets;
    assert Lookup(hash, s', k) == None;
    hide Lookup, Valid;
  }

  /** Adding acts as on a map exactly if the key is there already or the number of its bucket is an int. */
  lemma AddKeeps<K(!new), V>(hash: K -> Hash, s: State<K, V>, m: map<K, V>, k: K, v: V)
    requires Represents(hash, s, m)
    ensures var (s', added) := Add(hash, s, k, v);
            added == (k !in m) && Represents(hash, s', if k in m then m else m[k := v]) <==> AddFits(hash, s, k)
  {
    hide WithRoom, InsertEntry, Represents, Lookup, Link;
    var s2 := WithRoom(hash, s);
    WithRoomKeeps(hash, s, m);
    LookupNone(hash, s2, m, k);
    if k !in m {
      if KeyIndex(hash, s2, k) >= 0 {
        InsertedIsRepresented(hash, s2, m, k, v);
        LinkedIsInserted(hash, s2, k, v);
      } else {
        LinkedIsLost(hash, s2, m[k := v], k, v);
      }
    }
  }

  lemma FindKeeps<K(!new), V>(hash: K -> Hash, s: State<K, V>, m: map<K, V>, k: K)
    requires Represents(hash, s, m)
    ensures Find(hash, s, k).1 == Get(m, k) && Represents(hash, Find(hash, s, k).0, m)
  {
    RehashStepKeeps(hash, s, m);
    hide RehashStep;
    assert Lookup(hash, s, k) == Get(m, k);
  }

  lemma SetEntryOk<K(!new), V>(hash: K -> Hash, t: Table<K, V>, k: K, v: V)
    requires TableOk(hash, t) && Lookup1(hash, t.buckets, k).Some?
    ensures Changed(hash, t, SetEntry(hash, t, k, v), k, Some(v)) && SetEntry(hash, t, k, v).used == t.used
    ensures forall b :: 0 <= b < |t.buckets| && t.buckets[b] == [] ==> SetEntry(hash, t, k, v).buckets[b] == []
  {
    var h := Index(hash, k, |t.buckets|);
    TotalUpdate(t.buckets, h, SetIn(t.buckets[h], k, v));
    forall k' ensures Lookup1(hash, SetEntry(hash, t, k, v).buckets, k')
                   == if k' == k then Some(v) else Lookup1(hash, t.buckets, k') {
      SetInFinds(t.buckets[h], k, v, k');
    }
    SetInFinds(t.buckets[h], k, v, k);
  }

  lemma RemovedWellPlaced<K(!new), V>(hash: K -> Hash, t: Buckets<K, V>, k: K, h: nat)
    requires WellPlaced(hash, t) && h < |t|
    ensures WellPlaced(hash, t[h := RemoveIn(t[h], k)])
  {
    var c := RemoveIn(t[h], k);
    RemoveInFinds(t[h], k, k);
    forall i | 0 <= i < |c| ensures Index(hash, c[i].key, |t|) == h {
      assert c[i] in t[h];
    }
  }

  lemma RemoveEntryOk<K(!new), V>(hash: K -> Hash, t: Table<K, V>, k: K)
    requires TableOk(hash, t) && Lookup1(hash, t.buckets, k).Some?
    ensures Changed(hash, t, RemoveEntry(hash, t, k), k, None) && RemoveEntry(hash, t, k).used == t.used - 1
    ensures forall b :: 0 <= b < |t.buckets| && t.buckets[b] == [] ==> RemoveEntry(hash, t, k).buckets[b] == []
  {
    var h := Index(hash, k, |t.buckets|);
    var c := t.buckets[h];
    TotalUpdate(t.buckets, h, RemoveIn(c, k));
    RemovedWellPlaced(hash, t.buckets, k, h);
    assert DistinctKeys(c);
    RemoveInFinds(c, k, k);
    hide WellPlaced, DistinctKeys;
    forall k' ensures Lookup1(hash, RemoveEntry(hash, t, k).buckets, k')
                   == if k' == k then None else Lookup1(hash, t.buckets, k') {
      RemoveInFinds(c, k, k');
    }
  }

  lemma RemovedIsRepresented<K(!new), V>(hash: K -> Hash, s: State<K, V>, m: map<K, V>, k: K)
    requires Represents(hash, s, m)
    ensures Lookup1(hash, s.ht0.buckets, k).Some? ==>
              Represents(hash, s.(ht0 := RemoveEntry(hash, s.ht0, k)), m - {k})
    ensures Lookup1(hash, s.ht1.buckets, k).Some? ==>
              Represents(hash, s.(ht1 := RemoveEntry(hash, s.ht1, k)), m - {k})
  {
    LookupNone(hash, s, m, k);
    hide TableOk, RemoveEntry;
    if k in m {
      assert |m - {k}| == |m| - 1 by { assert m == (m - {k})[k := m[k]]; }
    }
    if Lookup1(hash, s.ht0.buckets, k).Some? {
      RemoveEntryOk(hash, s.ht0, k);
      NewHt0(hash, s, m, m - {k}, RemoveEntry(hash, s.ht0, k), k, None);
    } else if Lookup1(hash, s.ht1.buckets, k).Some? {
      RemoveEntryOk(hash, s.ht1, k);
      NewHt1(hash, s, m, m - {k}, RemoveEntry(hash, s.ht1, k), k, None);
    }
  }

  lemma DeleteKeeps<K(!new), V>(hash: K -> Hash, s: State<K, V>, m: map<K, V>, k: K)
    requires Represents(hash, s, m)
    ensures var (s', found) := Delete(hash, s, k);
            found == (k in m) && Represents(hash, s', m - {k})
  {
    hide RehashStep, RemoveEntry, Represents;
    RehashStepKeeps(hash, s, m);
    var s1 := RehashStep(hash, s);
    LookupNone(hash, s, m, k);
    LookupNone(hash, s1, m, k);
    RemovedIsRepresented(hash, s1, m, k);
    if k !in m {
      assert m - {k} == m;
    }
    if s.ht0.buckets == [] {
      NoTableNoKeys(hash, s, m);
    }
  }

  lemma NoTableNoKeys<K(!new), V>(hash: K -> Hash, s: State<K, V>, m: map<K, V>)
    requires Represents(hash, s, m) && s.ht0.buckets == []
    ensures m == map[]
  {
    assert Total(s.ht0.buckets) == 0 == Total(s.ht1.buckets);
  }

  lemma OverwrittenIsRepresented<K(!new), V>(hash: K -> Hash, s: State<K, V>, m: map<K, V>, k: K, v: V)
    requires Represents(hash, s, m) && k in m
    ensures Lookup1(hash, s.ht0.buckets, k).Some? ==>
              Represents(hash, s.(ht0 := SetEntry(hash, s.ht0, k, v)), m[k := v])
    ensures Lookup1(hash, s.ht0.buckets, k).None? ==>
              Represents(hash, s.(ht1 := SetEntry(hash, s.ht1, k, v)), m[k := v])
  {
    LookupNone(hash, s, m, k);
    hide TableOk, SetEntry;
    assert m[k := v].Keys == m.Keys;
    assert |m[k := v]| == |m|;
    if Lookup1(hash, s.ht0.buckets, k).Some? {
      SetEntryOk(hash, s.ht0, k, v);
      NewHt0(hash, s, m, m[k := v], SetEntry(hash, s.ht0, k, v), k, Some(v));
    } else {
      SetEntryOk(hash, s.ht1, k, v);
      NewHt1(hash, s, m, m[k := v], SetEntry(hash, s.ht1, k, v), k, Some(v));
    }
  }

  lemma ReplaceKeeps<K(!new), V>(hash: K -> Hash, s: State<K, V>, m: map<K, V>, k: K, v: V)
    requires Represents(hash, s, m)
    ensures var (s', added) := Replace(hash, s, k, v);
            added == (k !in m) && Represents(hash, s', m[k := v]) <==> AddFits(hash, s, k)
  {
    hide Add, Find, SetEntry, Represents, Lookup1, AddFits;
    AddKeeps(hash, s, m, k, v);
    if k in m {
      PresentFits(hash, s, m, k);
      var s1 := Add(hash, s, k, v).0;
      FindKeeps(hash, s1, m, k);
      OverwrittenIsRepresented(hash, Find(hash, s1, k).0, m, k, v);
    }
  }

  lemma PresentFits<K(!new), V>(hash: K -> Hash, s: State<K, V>, m: map<K, V>, k: K)
    requires Represents(hash, s, m) && k in m
    ensures AddFits(hash, s, k)
  {
    hide WithRoom, Represents, Lookup;
    WithRoomKeeps(hash, s, m);
    LookupNone(hash, WithRoom(hash, s), m, k);
  }

  // ---- Runs ----

  datatype Op<K, V> = OpAdd(k: K, v: V) | OpReplace(k: K, v: V) | OpDelete(k: K) | OpFind(k: K)
                    | OpExpand(size: nat) | OpResize | OpRehash(n: nat) | OpAllowResize(allow: bool)

  datatype Answer<V> = Flag(b: bool) | Found(v: Option<V>) | Silent

  ghost function Exec<K, V>(hash: K -> Hash, s: State<K, V>, op: Op<K, V>): (State<K, V>, Answer<V>) {
    match op
    case OpAdd(k, v) => var (s', b) := Add(hash, s, k, v); (s', Flag(b))
    case OpReplace(k, v) => var (s', b) := Replace(hash, s, k, v); (s', Flag(b))
    case OpDelete(k) => var (s', b) := Delete(hash, s, k); (s', Flag(b))
    case OpFind(k) => var (s', o) := Find(hash, s, k); (s', Found(o))
    case OpExpand(size) => var (s', b) := Expand(s, size); (s', Flag(b))
    case OpResize => var (s', b) := Resize(s); (s', Flag(b))
    case OpRehash(n) => (Rehash(hash, s, n), Silent)
    case OpAllowResize(allow) => (s.(canResize := allow), Silent)
  }

  /** A rehash that is under way keeps dictExpand and dictResize from starting another, and resizing may be off. */
  ghost predicate MayResize<K, V>(s: State<K, V>, op: Op<K, V>) {
    !s.Rehashing() && (op.OpResize? ==> s.canResize)
  }

  /** The size dictResize asks for. */
  function Wanted(n: nat): nat {
    if ToInt(n) < INITIAL_SIZE then INITIAL_SIZE else ToInt(n)
  }

  /** The same operation on a plain finite map. */
  function MapAfter<K(==), V>(m: map<K, V>, op: Op<K, V>): map<K, V> {
    match op
    case OpAdd(k, v) => if k in m then m else m[k := v]
    case OpReplace(k, v) => m[k := v]
    case OpDelete(k) => m - {k}
    case _ => m
  }

  /** Its answer; free says whether a table may be resized. */
  ghost function MapAnswer<K, V>(m: map<K, V>, op: Op<K, V>, free: bool): Answer<V> {
    match op
    case OpAdd(k, v) => Flag(k !in m)
    case OpReplace(k, v) => Flag(k !in m)
    case OpDelete(k) => Flag(k in m)
    case OpFind(k) => Found(Get(m, k))
    case OpExpand(size) => Flag(free && |m| <= size)
    case OpResize => Flag(free && |m| <= Wanted(|m|))
    case _ => Silent
  }

  lemma AllowResizeKeeps<K(!new), V>(hash: K -> Hash, s: State<K, V>, m: map<K, V>, allow: bool)
    requires Represents(hash, s, m)
    ensures Represents(hash, s.(canResize := allow), m)
  {
    forall k ensures Lookup(hash, s.(canResize := allow), k) == Get(m, k) {
      assert Lookup(hash, s, k) == Get(m, k);
    }
  }

  /** While no rehash is under way all entries are in the first table. */
  lemma AllInOld<K(!new), V>(hash: K -> Hash, s: State<K, V>, m: map<K, V>)
    requires Represents(hash, s, m)
    ensures !s.Rehashing() ==> s.ht0.used == |m|
  {
  }

  lemma ExpandAnswers<K(!new), V>(hash: K -> Hash, s: State<K, V>, m: map<K, V>, size: nat)
    requires Represents(hash, s, m)
    ensures Represents(hash, Expand(s, size).0, m) && Expand(s, size).1 == (!s.Rehashing() && |m| <= size)
  {
    AllInOld(hash, s, m);
    ExpandKeeps(hash, s, m, size);
    hide Represents, NextPower, EmptyTable;
  }

  lemma ResizeAnswers<K(!new), V>(hash: K -> Hash, s: State<K, V>, m: map<K, V>)
    requires Represents(hash, s, m)
    ensures Represents(hash, Resize(s).0, m)
    ensures Resize(s).1 == (!s.Rehashing() && s.canResize && |m| <= Wanted(|m|))
  {
    AllInOld(hash, s, m);
    ExpandAnswers(hash, s, m, Wanted(|m|));
    hide Represents, Expand, ToInt;
  }

  /** When an operation can act as on a map: always, except that a key may need a bucket whose number is no int. */
  ghost predicate Fits<K, V>(hash: K -> Hash, s: State<K, V>, op: Op<K, V>) {
    op.OpAdd? || op.OpReplace? ==> AddFits(hash, s, op.k)
  }

  lemma ExecRefinesMap<K(!new), V>(hash: K -> Hash, s: State<K, V>, m: map<K, V>, op: Op<K, V>)
    requires Represents(hash, s, m)
    ensures && Represents(hash, Exec(hash, s, op).0, MapAfter(m, op))
            && Exec(hash, s, op).1 == MapAnswer(m, op, MayResize(s, op))
            <==> Fits(hash, s, op)
  {
    hide Represents, Add, Replace, Delete, Find, Rehash, Get, AddFits, Expand, Resize, Wanted;
    match op
    case OpAdd(k, v) => AddKeeps(hash, s, m, k, v);
    case OpReplace(k, v) => ReplaceKeeps(hash, s, m, k, v);
    case OpDelete(k) => DeleteKeeps(hash, s, m, k);
    case OpFind(k) => FindKeeps(hash, s, m, k);
    case OpExpand(size) => ExpandAnswers(hash, s, m, size);
    case OpResize => ResizeAnswers(hash, s, m);
    case OpRehash(n) => RehashKeeps(hash, s, m, n);
    case OpAllowResize(allow) => AllowResizeKeeps(hash, s, m, allow);
  }

  ghost function ExecAll<K, V>(hash: K -> Hash, s: State<K, V>, ops: seq<Op<K, V>>): (State<K, V>, seq<Answer<V>>)
    decreases |ops|
  {
    if ops == [] then (s, [])
    else
      var (s1, a) := Exec(hash, s, ops[0]);
      var (s2, rest) := ExecAll(hash, s1, ops[1..]);
      (s2, [a] + rest)
  }

  function MapAfterAll<K(==), V>(m: map<K, V>, ops: seq<Op<K, V>>): map<K, V>
    decreases |ops|
  {
    if ops == [] then m else MapAfterAll(MapAfter(m, ops[0]), ops[1..])
  }

  ghost function MapAnswers<K, V>(m: map<K, V>, ops: seq<Op<K, V>>, free: seq<bool>): seq<Answer<V>>
    requires |free| == |ops|
    decreases |ops|
  {
    if ops == [] then []
    else [MapAnswer(m, ops[0], free[0])] + MapAnswers(MapAfter(m, ops[0]), ops[1..], free[1..])
  }

  /** Before which operations of a run a table may be resized. */
  ghost function Free<K, V>(hash: K -> Hash, s: State<K, V>, ops: seq<Op<K, V>>): (r: seq<bool>)
    ensures |r| == |ops|
    decreases |ops|
  {
    if ops == [] then [] else [MayResize(s, ops[0])] + Free(hash, Exec(hash, s, ops[0]).0, ops[1..])
  }

  /** The state dictCreate makes. */
  ghost function Created<K, V>(): State<K, V> {
    State(Table([], 0), Table([], 0), -1, 0, true)
  }

  lemma CreatedIsEmpty<K(!new), V>(hash: K -> Hash)
    ensures Represents(hash, Created<K, V>(), map[])
  {
  }

  ghost predicate AllFit<K, V>(hash: K -> Hash, s: State<K, V>, ops: seq<Op<K, V>>)
    decreases |ops|
  {
    ops == [] || (Fits(hash, s, ops[0]) && AllFit(hash, Exec(hash, s, ops[0]).0, ops[1..]))
  }

  /** Over any sequence of operations the two tables answer exactly as one finite map, and keep the invariant. */
  lemma {:induction false} RunRefinesMap<K(!new), V>(hash: K -> Hash, s: State<K, V>, m: map<K, V>, ops: seq<Op<K, V>>)
    requires Represents(hash, s, m) && AllFit(hash, s, ops)
    ensures Represents(hash, ExecAll(hash, s, ops).0, MapAfterAll(m, ops))
    ensures ExecAll(hash, s, ops).1 == MapAnswers(m, ops, Free(hash, s, ops))
    decreases |ops|
  {
    hide Represents, Exec, MapAfter, MapAnswer, MayResize, Fits;
    if ops != [] {
      ExecRefinesMap(hash, s, m, ops[0]);
      RunRefinesMap(hash, Exec(hash, s, ops[0]).0, MapAfter(m, ops[0]), ops[1..]);
    }
  }

  // ---- Table sizes ----

  /** Sizes are powers of two up to a limit. */
  predicate IsSize(n: nat, limit: nat) {
    n == 0 || (IsPow2(n) && n <= limit)
  }

  ghost predicate Sizes<K, V>(s: State<K, V>, limit: nat) {
    IsSize(|s.ht0.buckets|, limit) && IsSize(|s.ht1.buckets|, limit)
  }

  predicate IsLimit(limit: nat) {
    IsPow2(limit) && INITIAL_SIZE <= limit < LONG_MAX
  }

  /** The operation asks for no table above the limit, and the map is small enough not to need one. */
  predicate InRange<K, V>(m: map<K, V>, op: Op<K, V>, limit: nat) {
    2 * |m| <= limit && (op.OpExpand? ==> op.size <= limit)
  }

  predicate AllInRange<K(==), V>(m: map<K, V>, ops: seq<Op<K, V>>, limit: nat)
    decreases |ops|
  {
    ops == [] || (InRange(m, ops[0], limit) && AllInRange(MapAfter(m, ops[0]), ops[1..], limit))
  }

  lemma {:induction false} RehashSizes<K, V>(hash: K -> Hash, s: State<K, V>, n: nat, limit: nat)
    requires Sizes(s, limit)
    ensures Sizes(Rehash(hash, s, n), limit)
    decreases n
  {
    hide MoveChain, IsSize;
    if n > 0 && s.Rehashing() {
      assert IsSize(0, limit) by { NoSize(limit); }
      RehashSizes(hash, RehashOne(hash, s), n - 1, limit);
    }
  }

  lemma NoSize(limit: nat)
    ensures IsSize(0, limit)
  {
  }

  lemma {:induction false} Pow2Gap(p: nat, q: nat)
    requires IsPow2(p) && IsPow2(q) && p / 2 < q
    ensures p <= q
    decreases p
  {
    if p > 1 && q > 1 {
      Pow2Gap(p / 2, q / 2);
    }
  }

  lemma ExpandSizes<K, V>(s: State<K, V>, size: nat, limit: nat)
    requires Sizes(s, limit) && IsLimit(limit) && size <= limit
    ensures Sizes(Expand(s, size).0, limit)
  {
    var p := NextPower(size);
    if p > INITIAL_SIZE {
      Pow2Gap(p, limit);
    }
    hide NextPower, IsPow2;
  }

  lemma RoomSizes<K(!new), V>(hash: K -> Hash, s: State<K, V>, m: map<K, V>, limit: nat)
    requires Represents(hash, s, m) && Sizes(s, limit) && IsLimit(limit) && 2 * |m| <= limit
    ensures Sizes(WithRoom(hash, s), limit) && Sizes(RehashStep(hash, s), limit)
  {
    hide Rehash, Expand, TableOk, Sizes, IsLimit;
    RehashSizes(hash, s, 1, limit);
    RehashStepKeeps(hash, s, m);
    var s1 := RehashStep(hash, s);
    LimitIs(limit);
    ExpandSizes(s1, INITIAL_SIZE, limit);
    if s1.ht0.used >= |s1.ht0.buckets| {
      ExpandSizes(s1, (if |s1.ht0.buckets| > s1.ht0.used then |s1.ht0.buckets| else s1.ht0.used) * 2, limit);
    }
  }

  lemma LimitIs(limit: nat)
    requires IsLimit(limit)
    ensures INITIAL_SIZE <= limit
  {
  }

  lemma AddSizes<K(!new), V>(hash: K -> Hash, s: State<K, V>, m: map<K, V>, k: K, v: V, limit: nat)
    requires Represents(hash, s, m) && Sizes(s, limit) && IsLimit(limit) && 2 * |m| <= limit
    ensures Sizes(Add(hash, s, k, v).0, limit)
  {
    RoomSizes(hash, s, m, limit);
    hide WithRoom, Represents, Lookup, IsSize;
  }

  lemma ReplaceSizes<K(!new), V>(hash: K -> Hash, s: State<K, V>, m: map<K, V>, k: K, v: V, limit: nat)
    requires Represents(hash, s, m) && Sizes(s, limit) && IsLimit(limit) && 2 * |m| <= limit
    ensures Sizes(Replace(hash, s, k, v).0, limit)
  {
    hide Add, Represents, Rehash, Lookup, IsSize;
    AddSizes(hash, s, m, k, v, limit);
    RehashSizes(hash, Add(hash, s, k, v).0, 1, limit);
  }

  lemma SearchSizes<K, V>(hash: K -> Hash, s: State<K, V>, k: K, limit: nat)
    requires Sizes(s, limit)
    ensures Sizes(Find(hash, s, k).0, limit) && Sizes(Delete(hash, s, k).0, limit)
  {
    RehashSizes(hash, s, 1, limit);
    hide Rehash, Lookup, Lookup1, RemoveIn, IsSize;
  }

  lemma ResizeSizes<K(!new), V>(hash: K -> Hash, s: State<K, V>, m: map<K, V>, limit: nat)
    requires Represents(hash, s, m) && Sizes(s, limit) && IsLimit(limit) && 2 * |m| <= limit
    ensures Sizes(Resize(s).0, limit)
  {
    hide Expand, TableOk, Sizes, IsLimit, ToInt;
    LimitIs(limit);
    var minimal := ToInt(s.ht0.used);
    ExpandSizes(s, if minimal < INITIAL_SIZE then INITIAL_SIZE else minimal, limit);
  }

  lemma AllowSizes<K, V>(s: State<K, V>, allow: bool, limit: nat)
    requires Sizes(s, limit)
    ensures Sizes(s.(canResize := allow), limit)
  {
    hide IsSize;
  }

  lemma ExecSizes<K(!new), V>(hash: K -> Hash, s: State<K, V>, m: map<K, V>, op: Op<K, V>, limit: nat)
    requires Represents(hash, s, m) && Sizes(s, limit) && IsLimit(limit) && InRange(m, op, limit)
    ensures Sizes(Exec(hash, s, op).0, limit)
  {
    hide Add, Replace, Delete, Find, Expand, Rehash, Represents, Sizes, IsLimit, Resize;
    match op
    case OpAdd(k, v) => AddSizes(hash, s, m, k, v, limit);
    case OpReplace(k, v) => ReplaceSizes(hash, s, m, k, v, limit);
    case OpDelete(k) => SearchSizes(hash, s, k, limit);
    case OpFind(k) => SearchSizes(hash, s, k, limit);
    case OpExpand(size) => ExpandSizes(s, size, limit);
    case OpResize => ResizeSizes(hash, s, m, limit);
    case OpRehash(n) => RehashSizes(hash, s, n, limit);
    case OpAllowResize(allow) => AllowSizes(s, allow, limit);
  }

  lemma SizedBuckets<K, V>(hash: K -> Hash, s: State<K, V>, limit: nat)
    requires Sizes(s, limit)
    ensures forall k :: s.ht0.buckets != [] ==> Index(hash, k, |s.ht0.buckets|) == hash(k) % |s.ht0.buckets|
    ensures forall k :: s.ht1.buckets != [] ==> Index(hash, k, |s.ht1.buckets|) == hash(k) % |s.ht1.buckets|
  {
    forall k ensures s.ht0.buckets != [] ==> Index(hash, k, |s.ht0.buckets|) == hash(k) % |s.ht0.buckets|
             ensures s.ht1.buckets != [] ==> Index(hash, k, |s.ht1.buckets|) == hash(k) % |s.ht1.buckets| {
      if s.ht0.buckets != [] { MaskIsMod(hash(k), |s.ht0.buckets|); }
      if s.ht1.buckets != [] { MaskIsMod(hash(k), |s.ht1.buckets|); }
    }
  }

  /**
    For any limit below LONG_MAX that no operation needs to exceed: sizes stay powers of two up to the limit, and the
    bucket of a key is its hash modulo the size.
   */
  lemma {:induction false} RunKeepsSizes<K(!new), V>(hash: K -> Hash, s: State<K, V>, m: map<K, V>, ops: seq<Op<K, V>>,
                                                     limit: nat)
    requires Represents(hash, s, m) && AllFit(hash, s, ops)
    requires Sizes(s, limit) && IsLimit(limit) && AllInRange(m, ops, limit)
    ensures var s' := ExecAll(hash, s, ops).0;
            && Sizes(s', limit)
            && (forall k :: s'.ht0.buckets != [] ==> Index(hash, k, |s'.ht0.buckets|) == hash(k) % |s'.ht0.buckets|)
            && (forall k :: s'.ht1.buckets != [] ==> Index(hash, k, |s'.ht1.buckets|) == hash(k) % |s'.ht1.buckets|)
    decreases |ops|
  {
    hide Represents, Exec, MapAfter, MapAnswer, Fits, Sizes, Index, IsLimit;
    if ops == [] {
      SizedBuckets(hash, s, limit);
    } else {
      ExecSizes(hash, s, m, ops[0], limit);
      ExecRefinesMap(hash, s, m, ops[0]);
      RunKeepsSizes(hash, Exec(hash, s, ops[0]).0, MapAfter(m, ops[0]), ops[1..], limit);
    }
  }

  // ---- Where an int is enough ----

  /** In a table of up to 2 to the 31 buckets every bucket has a number that is an int. */
  lemma SmallTablesFit<K(!new), V>(hash: K -> Hash, s: State<K, V>, m: map<K, V>, k: K)
    requires Represents(hash, s, m) && |NewTable(WithRoom(hash, s)).buckets| <= 0x8000_0000
    ensures AddFits(hash, s, k)
  {
    WithRoomKeeps(hash, s, m);
    hide WithRoom, Represents, Lookup, ToInt, BitAnd;
  }

  lemma MaxIsLimit()
    ensures IsLimit(MAX_BUCKETS)
  {
    assert IsPow2(0x1000);
    assert IsPow2(0x100_0000);
    assert IsPow2(0x4000_0000);
  }

  lemma InRangeFits<K(!new), V>(hash: K -> Hash, s: State<K, V>, m: map<K, V>, op: Op<K, V>)
    requires Represents(hash, s, m) && Sizes(s, MAX_BUCKETS) && InRange(m, op, MAX_BUCKETS)
    ensures Fits(hash, s, op)
  {
    MaxIsLimit();
    hide Represents, WithRoom, IsLimit, AddFits, IsPow2;
    RoomSizes(hash, s, m, MAX_BUCKETS);
    if op.OpAdd? || op.OpReplace? {
      SmallTablesFit(hash, s, m, op.k);
    }
  }

  lemma {:induction false} AllInRangeFit<K(!new), V>(hash: K -> Hash, s: State<K, V>, m: map<K, V>, ops: seq<Op<K, V>>)
    requires Represents(hash, s, m) && Sizes(s, MAX_BUCKETS) && AllInRange(m, ops, MAX_BUCKETS)
    ensures AllFit(hash, s, ops)
    decreases |ops|
  {
    MaxIsLimit();
    hide Represents, Exec, MapAfter, MapAnswer, Fits, Sizes, IsLimit, InRange;
    if ops != [] {
      InRangeFits(hash, s, m, ops[0]);
      ExecSizes(hash, s, m, ops[0], MAX_BUCKETS);
      ExecRefinesMap(hash, s, m, ops[0]);
      AllInRangeFit(hash, Exec(hash, s, ops[0]).0, MapAfter(m, ops[0]), ops[1..]);
    }
  }

  /**
    A new dictionary answers every sequence of operations as a map that starts empty, as long as no size that is asked
    for, nor twice the number of keys, exceeds MAX_BUCKETS; and then the rehash cursor is an int as well.
   */
  lemma NewDictionaryIsMap<K(!new), V>(hash: K -> Hash, ops: seq<Op<K, V>>)
    requires AllInRange(map[], ops, MAX_BUCKETS)
    ensures ExecAll(hash, Created(), ops).1 == MapAnswers(map[], ops, Free(hash, Created(), ops))
    ensures var s := ExecAll(hash, Created(), ops).0;
            && Represents(hash, s, MapAfterAll(map[], ops)) && Sizes(s, MAX_BUCKETS)
            && -1 <= s.rehashidx <= MAX_BUCKETS
  {
    CreatedIsEmpty<K, V>(hash);
    MaxIsLimit();
    var s0 := Created<K, V>();
    assert Sizes(s0, MAX_BUCKETS);
    hide IsLimit, Exec, MapAfter, MapAnswer, Created, Sizes;
    AllInRangeFit(hash, s0, map[], ops);
    RunRefinesMap(hash, s0, map[], ops);
    RunKeepsSizes(hash, s0, map[], ops, MAX_BUCKETS);
    CursorFits(hash, ExecAll(hash, s0, ops).0, MapAfterAll(map[], ops));
  }

  lemma CursorFits<K(!new), V>(hash: K -> Hash, s: State<K, V>, m: map<K, V>)
    requires Represents(hash, s, m) && Sizes(s, MAX_BUCKETS)
    ensures -1 <= s.rehashidx <= MAX_BUCKETS
  {
    hide TableOk, IsPow2;
  }

  lemma AllBits(size: nat)
    requires IsPow2(size) && size >= 0x1_0000_0000
    ensures ToInt(BitAnd(0xffff_ffff, size - 1)) == -1
  {
    hide *;
    MaskIsMod(0xffff_ffff, size);
    QuotientUnique(0xffff_ffff, size, 0, 0xffff_ffff);
  }

  lemma EmptyHasRoom<K(!new), V>(hash: K -> Hash, s: State<K, V>)
    requires Represents(hash, s, map[]) && !s.Rehashing() && s.ht0.buckets != []
    ensures WithRoom(hash, s) == s
  {
    hide Valid, Lookup;
  }

  lemma HugeTable<K(!new), V>(hash: K -> Hash, s: State<K, V>, k: K, v: V)
    requires Represents(hash, s, map[]) && !s.Rehashing() && hash(k) == 0xffff_ffff
    requires IsPow2(|s.ht0.buckets|) && |s.ht0.buckets| >= 0x1_0000_0000
    ensures Add(hash, s, k, v) == (s, false)
  {
    EmptyHasRoom(hash, s);
    AllBits(|s.ht0.buckets|);
    hide Represents, Lookup, BitAnd, IsPow2, ToInt, WithRoom, Link;
  }

  lemma HugeExpand<K(!new), V>(hash: K -> Hash)
    ensures var s := Expand(Created<K, V>(), 0x1_0000_0000).0;
            && Represents(hash, s, map[]) && !s.Rehashing() && Expand(Created<K, V>(), 0x1_0000_0000).1
            && IsPow2(|s.ht0.buckets|) && |s.ht0.buckets| >= 0x1_0000_0000
  {
    CreatedIsEmpty<K, V>(hash);
    ExpandKeeps(hash, Created<K, V>(), map[], 0x1_0000_0000);
    hide Represents, IsPow2, NextPower;
  }

  /** Beyond that it does not: after dictExpand to 2 to the 32, a key whose hash has all bits set cannot be added. */
  lemma HugeTableRefuses<K(!new), V>(hash: K -> Hash, k: K, v: V)
    requires hash(k) == 0xffff_ffff
    ensures var ops := [OpExpand(0x1_0000_0000), OpAdd(k, v)];
            && ExecAll(hash, Created(), ops).1 == [Flag(true), Flag(false)]
            && forall free :: MapAnswers(map[], ops, [true, free]) == [Flag(true), Flag(true)]
  {
    hide *;
    HugeExpand<K, V>(hash);
    HugeTable(hash, Expand(Created<K, V>(), 0x1_0000_0000).0, k, v);
    var m: map<K, V>, op1, op2 := map[], OpExpand(0x1_0000_0000), OpAdd(k, v);
    TwoOps<K, V>(hash, Created(), m, op1, op2);
    HugeAnswers(hash, Created(), k, v);
    forall free: bool ensures MapAnswers(m, [op1, op2], [true, free]) == [Flag(true), Flag(true)] {
      assert MapAnswer(MapAfter(m, op1), op2, free) == Flag(true);
    }
  }

  lemma HugeAnswers<K(!new), V>(hash: K -> Hash, s: State<K, V>, k: K, v: V)
    ensures Exec(hash, s, OpExpand(0x1_0000_0000))
         == (Expand(s, 0x1_0000_0000).0, Flag(Expand(s, 0x1_0000_0000).1))
    ensures var s' := Expand(s, 0x1_0000_0000).0; Exec(hash, s', OpAdd(k, v)).1 == Flag(Add(hash, s', k, v).1)
    ensures var m: map<K, V> := map[];
            && MapAnswer(m, OpExpand(0x1_0000_0000), true) == Flag(true)
            && forall free :: MapAnswer(MapAfter(m, OpExpand(0x1_0000_0000)), OpAdd(k, v), free) == Flag(true)
  {
    hide Expand, Add;
  }

  lemma TwoOps<K, V>(hash: K -> Hash, s: State<K, V>, m: map<K, V>, op1: Op<K, V>, op2: Op<K, V>)
    ensures ExecAll(hash, s, [op1, op2]).1 == [Exec(hash, s, op1).1, Exec(hash, Exec(hash, s, op1).0, op2).1]
    ensures forall f, g ::
              MapAnswers(m, [op1, op2], [f, g]) == [MapAnswer(m, op1, f), MapAnswer(MapAfter(m, op1), op2, g)]
  {
    hide Exec, MapAfter, MapAnswer;
    var s1, m1 := Exec(hash, s, op1).0, MapAfter(m, op1);
    assert [op1, op2][1..] == [op2] && [op2][1..] == [];
    assert ExecAll(hash, s1, [op2]).1 == [Exec(hash, s1, op2).1];
    forall f, g
      ensures MapAnswers(m, [op1, op2], [f, g]) == [MapAnswer(m, op1, f), MapAnswer(m1, op2, g)]
    {
      assert [f, g][1..] == [g] && [g][1..] == [];
      assert MapAnswers(m1, [op2], [g]) == [MapAnswer(m1, op2, g)];
    }
  }
}
