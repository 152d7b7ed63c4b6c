/**
  Which matches lzf_compress takes (redis-stable/src/lzf_c.c:142-294), stated on its output: what the hash table held is
  told from the tokens alone.
 */
module LzfGreedy {
  import opened Bytes
  import opened LzfFormat

  const HSIZE := 65536

  type Slot = s: nat | s < HSIZE

  /** FRST and NEXT in unsigned 32-bit arithmetic. */
  function FirstHash(src: seq<byte>, p: nat): nat
    requires p + 1 < |src|
  {
    var b0: int, b1: int := src[p], src[p + 1];
    b0 * 256 + b1
  }

  function NextHash(v: nat, src: seq<byte>, p: nat): nat
    requires p + 2 < |src|
  {
    var b2: int := src[p + 2];
    v * 256 % 0x1_0000_0000 + b2
  }

  /** IDX for HLOG 16 with VERY_FAST. */
  function HashSlot(h: nat): Slot {
    (h / 256 - h * 5) % HSIZE
  }

  predicate Matching(src: seq<byte>, ref: nat, ip: nat, len: nat) {
    ref < ip && ip + len <= |src| && src[ref..ref + len] == src[ip..ip + len]
  }

  /** A stretch of the text that was replaced by a reference to an earlier one. */
  datatype Ref = Ref(start: nat, end: nat, from: int)

  function Size(t: Token): nat {
    if t.Literal? then |t.data| else t.len + 2
  }

  function TextLength(ts: seq<Token>): nat {
    if ts == [] then 0 else TextLength(ts[..|ts| - 1]) + Size(ts[|ts| - 1])
  }

  /** What a token after n bytes refers to. */
  function RefsOf(t: Token, n: nat): seq<Ref> {
    if t.Literal? then [] else [Ref(n, n + t.len + 2, n - t.off - 1)]
  }

  function Refs(ts: seq<Token>): seq<Ref> {
    if ts == [] then [] else Refs(ts[..|ts| - 1]) + RefsOf(ts[|ts| - 1], TextLength(ts[..|ts| - 1]))
  }

  lemma RefsOfLiteral(t: Token, n: nat)
    requires t.Literal?
    ensures RefsOf(t, n) == []
  {
  }

  lemma RefsOfRef(t: Token, n: nat)
    requires t.BackRef?
    ensures RefsOf(t, n) == [Ref(n, n + t.len + 2, n - t.off - 1)]
  {
  }

  lemma {:induction false} TextLengthIs(ts: seq<Token>)
    requires Valid(ts)
    ensures TextLength(ts) == |Expand(ts)|
  {
    if ts != [] {
      TextLengthIs(ts[..|ts| - 1]);
    }
  }

  /** Every token of literals but the last before a reference, or at the end, is full. */
  predicate Merged(ts: seq<Token>) {
    forall i :: 0 <= i < |ts| - 1 && ts[i].Literal? && ts[i + 1].Literal? ==> |ts[i].data| == MAX_LIT
  }

  /** The last token, if of literals, is full. */
  predicate EndsFull(ts: seq<Token>) {
    ts != [] && ts[|ts| - 1].Literal? ==> |ts[|ts| - 1].data| == MAX_LIT
  }

  /** Merged, and stays so whatever token comes next. */
  predicate Runs(ts: seq<Token>) {
    Merged(ts) && EndsFull(ts)
  }

  lemma RunsOn(ts: seq<Token>, t: Token)
    requires Runs(ts)
    ensures Merged(ts + [t]) && (t.Literal? && |t.data| == MAX_LIT ==> Runs(ts + [t]))
  {
  }

  lemma RunsAfterRef(ts: seq<Token>, t: Token)
    requires Merged(ts) && t.BackRef?
    ensures Runs(ts + [t])
  {
  }

  // ---- What the hash table holds ----

  predicate Replaced(rs: seq<Ref>, p: nat) {
    exists i :: 0 <= i < |rs| && rs[i].start <= p < rs[i].end
  }

  /** Position p was hashed: all are but those inside a match that are not among its last two. */
  predicate Hashed(rs: seq<Ref>, p: nat) {
    forall i :: 0 <= i < |rs| ==> !(rs[i].start < p < rs[i].end - 2)
  }

  /** The rolling hash was started afresh at p. */
  predicate Restarts(rs: seq<Ref>, p: nat) {
    p == 0 || exists i :: 0 <= i < |rs| && rs[i].end == p + 2
  }

  /** The hash value of position p, which also covers the byte before it unless it was started there. */
  function HashAt(src: seq<byte>, rs: seq<Ref>, p: nat): nat
    requires p + 2 < |src|
  {
    if Restarts(rs, p) then NextHash(FirstHash(src, p), src, p)
    else NextHash(NextHash(FirstHash(src, p - 1), src, p - 1), src, p)
  }

  /** Position q is the last one before p that was hashed to slot v. */
  ghost predicate Newest(src: seq<byte>, slot: nat -> Slot, rs: seq<Ref>, q: nat, p: nat, v: Slot) {
    && q < p && q + 2 < |src| && Hashed(rs, q) && slot(HashAt(src, rs, q)) == v
    && forall r :: q < r < p && r + 2 < |src| && Hashed(rs, r) ==> slot(HashAt(src, rs, r)) != v
  }

  /** Position q is the last one before p that was hashed to the same slot. */
  ghost predicate Found(src: seq<byte>, slot: nat -> Slot, rs: seq<Ref>, q: nat, p: nat) {
    p + 2 < |src| && Newest(src, slot, rs, q, p, slot(HashAt(src, rs, p)))
  }

  /** The three bytes at q and p are equal, and q is near enough, is not the first byte, and p is far from the end. */
  predicate Usable(src: seq<byte>, q: int, p: nat) {
    0 < q < p && p - q - 1 < MAX_OFF && p + 4 < |src| && Matching(src, q, p, 3)
  }

  // ---- The greedy law ----

  /** A match that was taken is as long as token and text allow, and goes to what the table holds, if anything. */
  ghost predicate Taken(src: seq<byte>, slot: nat -> Slot, rs: seq<Ref>, r: Ref) {
    var len := r.end - r.start;
    && r.start + 3 <= r.end <= |src| && Usable(src, r.from, r.start) && Matching(src, r.from, r.start, len)
    && (len >= MAX_REF || r.end + 2 >= |src| || src[r.from + len] != src[r.end])
    && forall q: nat :: Found(src, slot, rs, q, r.start) ==> q == r.from
  }

  /** At p no usable match was found. */
  ghost predicate Missed(src: seq<byte>, slot: nat -> Slot, rs: seq<Ref>, p: nat) {
    forall q: nat :: Found(src, slot, rs, q, p) ==> !Usable(src, q, p)
  }

  /** Up to n, matches were taken wherever the table held one, and nowhere else. */
  ghost predicate Greedy(src: seq<byte>, slot: nat -> Slot, rs: seq<Ref>, n: nat) {
    && (forall i :: 0 <= i < |rs| ==> Taken(src, slot, rs, rs[i]) && rs[i].end <= n)
    && (forall p: nat :: p < n && !Replaced(rs, p) ==> Missed(src, slot, rs, p))
  }

  /** The tokens stand for the first n bytes and were chosen greedily. */
  ghost predicate GreedyTokens(src: seq<byte>, slot: nat -> Slot, ts: seq<Token>, n: nat) {
    && n <= |src| && Valid(ts) && Expand(ts) == src[..n] && Merged(ts) && Greedy(src, slot, Refs(ts), n)
  }

  /**
    Why the output was too small: the tokens chosen so far leave less room than the next step asks for, which is three
    bytes for a match and one for a literal besides the header of a run.
   */
  ghost predicate NoRoom(src: seq<byte>, slot: nat -> Slot, ts: seq<Token>, n: nat, outLen: nat) {
    && GreedyTokens(src, slot, ts, n)
    && (if n + 2 < |src| then |Encode(ts)| + (if n + 4 < |src| then 4 else 1) >= outLen
        else |Encode(ts)| + 3 >= outLen && (n + 2 <= |src| || n == 0 || ts[|ts| - 1].BackRef?))
  }

  lemma RefsSnoc(ts: seq<Token>, t: Token)
    ensures Refs(ts + [t]) == Refs(ts) + RefsOf(t, TextLength(ts))
  {
    hide TextLength, RefsOf;
    var us := ts + [t];
    assert us[..|us| - 1] == ts && us[|us| - 1] == t;
  }

  /** The bytes encode the text by the greedy law. */
  ghost predicate GreedyEncoding(src: seq<byte>, slot: nat -> Slot, bytes: seq<byte>) {
    exists ts :: GreedyTokens(src, slot, ts, |src|) && bytes == Encode(ts)
  }

  /** Some tokens chosen by the greedy law leave too little room. */
  ghost predicate TooSmall(src: seq<byte>, slot: nat -> Slot, outLen: nat) {
    exists ts, n: nat :: NoRoom(src, slot, ts, n, outLen)
  }

  // ---- One more reference changes nothing before it ----

  lemma SameBefore(src: seq<byte>, rs: seq<Ref>, r: Ref, p: nat)
    requires p <= r.start && r.start + 3 <= r.end && p + 2 < |src|
    ensures Hashed(rs + [r], p) == Hashed(rs, p) && HashAt(src, rs + [r], p) == HashAt(src, rs, p)
    ensures p < r.start ==> Replaced(rs + [r], p) == Replaced(rs, p)
  {
    var rs' := rs + [r];
    assert forall i :: 0 <= i < |rs| ==> rs'[i] == rs[i];
    assert rs'[|rs|] == r;
    assert Restarts(rs', p) == Restarts(rs, p);
    hide FirstHash, NextHash;
  }

  lemma NewestBefore(src: seq<byte>, slot: nat -> Slot, rs: seq<Ref>, r: Ref, q: nat, p: nat, v: Slot)
    requires p <= r.start && r.start + 3 <= r.end
    ensures Newest(src, slot, rs + [r], q, p, v) == Newest(src, slot, rs, q, p, v)
  {
    if q < p && q + 2 < |src| { SameBefore(src, rs, r, q); }
    forall m: nat | q < m < p && m + 2 < |src|
      ensures Hashed(rs + [r], m) == Hashed(rs, m) && HashAt(src, rs + [r], m) == HashAt(src, rs, m)
    {
      SameBefore(src, rs, r, m);
    }
    hide Hashed, HashAt;
  }

  lemma FoundBefore(src: seq<byte>, slot: nat -> Slot, rs: seq<Ref>, r: Ref, q: nat, p: nat)
    requires p <= r.start && r.start + 3 <= r.end
    ensures Found(src, slot, rs + [r], q, p) == Found(src, slot, rs, q, p)
  {
    if p + 2 < |src| {
      SameBefore(src, rs, r, p);
      NewestBefore(src, slot, rs, r, q, p, slot(HashAt(src, rs, p)));
    }
    hide Hashed, HashAt, Newest;
  }

  lemma TakenBefore(src: seq<byte>, slot: nat -> Slot, rs: seq<Ref>, r: Ref, old_: Ref)
    requires r.start + 3 <= r.end && old_.start <= r.start
    ensures Taken(src, slot, rs + [r], old_) == Taken(src, slot, rs, old_)
  {
    forall q: nat ensures Found(src, slot, rs + [r], q, old_.start) == Found(src, slot, rs, q, old_.start) {
      FoundBefore(src, slot, rs, r, q, old_.start);
    }
    hide Found, Usable, Matching;
  }

  lemma MissedBefore(src: seq<byte>, slot: nat -> Slot, rs: seq<Ref>, r: Ref, p: nat)
    requires r.start + 3 <= r.end && p <= r.start
    ensures Missed(src, slot, rs + [r], p) == Missed(src, slot, rs, p)
  {
    forall q: nat ensures Found(src, slot, rs + [r], q, p) == Found(src, slot, rs, q, p) {
      FoundBefore(src, slot, rs, r, q, p);
    }
    hide Found, Usable;
  }

  /** A literal at n, where no usable match was found. */
  lemma GreedyLiteral(src: seq<byte>, slot: nat -> Slot, rs: seq<Ref>, n: nat)
    requires Greedy(src, slot, rs, n) && Missed(src, slot, rs, n)
    ensures Greedy(src, slot, rs, n + 1)
  {
    hide Taken, Missed, Replaced;
  }

  /** A reference for the bytes from n. */
  lemma GreedyRef(src: seq<byte>, slot: nat -> Slot, rs: seq<Ref>, r: Ref)
    requires Greedy(src, slot, rs, r.start) && Taken(src, slot, rs, r)
    ensures Greedy(src, slot, rs + [r], r.end)
  {
    var rs' := rs + [r];
    assert r.start + 3 <= r.end <= |src|;
    TakenBefore(src, slot, rs, r, r);
    forall i | 0 <= i < |rs| ensures Taken(src, slot, rs', rs[i]) && rs[i].end <= r.end {
      assert Taken(src, slot, rs, rs[i]);
      TakenBefore(src, slot, rs, r, rs[i]);
    }
    forall p: nat | p < r.end && !Replaced(rs', p) ensures Missed(src, slot, rs', p) {
      assert rs'[|rs|] == r;
      assert p < r.start;
      SameBefore(src, rs, r, p);
      MissedBefore(src, slot, rs, r, p);
    }
    hide Taken, Missed, Replaced;
  }

  lemma NothingYet(src: seq<byte>, slot: nat -> Slot)
    ensures Greedy(src, slot, [], 0)
  {
  }

  // ---- The hash table during the run ----

  /** The table holds the last position before n that was hashed to each slot; other slots hold anything. */
  ghost predicate TableOk(src: seq<byte>, slot: nat -> Slot, rs: seq<Ref>, n: nat, base: nat, h: seq<word64>) {
    |h| == HSIZE && forall q: nat, v: Slot :: Newest(src, slot, rs, q, n, v) ==> h[v] == base + q
  }

  /** All references lie before n. */
  predicate Before(rs: seq<Ref>, n: nat) {
    forall i :: 0 <= i < |rs| ==> rs[i].end <= n
  }

  lemma TableStart(src: seq<byte>, slot: nat -> Slot, base: nat, h: seq<word64>)
    requires |h| == HSIZE
    ensures TableOk(src, slot, [], 0, base, h)
  {
  }

  /** Position n enters the table. */
  lemma TableNext(src: seq<byte>, slot: nat -> Slot, rs: seq<Ref>, n: nat, base: nat, h: seq<word64>)
    requires TableOk(src, slot, rs, n, base, h) && Hashed(rs, n) && n + 2 < |src|
    requires base + |src| <= 0x1_0000_0000_0000_0000
    ensures TableOk(src, slot, rs, n + 1, base, h[slot(HashAt(src, rs, n)) := base + n])
  {
    var w, n' := slot(HashAt(src, rs, n)), n + 1;
    var h' := h[w := base + n];
    forall q: nat, v: Slot | Newest(src, slot, rs, q, n', v) ensures h'[v] == base + q {
      if q < n {
        assert Newest(src, slot, rs, q, n, v);
      }
    }
    hide Hashed, HashAt;
  }

  /** The positions inside a match do not enter the table. */
  lemma TableSkips(src: seq<byte>, slot: nat -> Slot, rs: seq<Ref>, r: Ref, base: nat, h: seq<word64>)
    requires TableOk(src, slot, rs, r.start + 1, base, h) && r.start + 3 <= r.end <= |src|
    ensures TableOk(src, slot, rs + [r], r.end - 2, base, h)
  {
    var rs', n := rs + [r], r.end - 2;
    forall q: nat, v: Slot | Newest(src, slot, rs', q, n, v) ensures h[v] == base + q {
      assert rs'[|rs|] == r;
      assert q <= r.start;
      NewestShorter(src, slot, rs', q, n, v, r.start + 1);
      NewestUpTo(src, slot, rs, r, q, v);
    }
    hide Newest;
  }

  lemma NewestShorter(src: seq<byte>, slot: nat -> Slot, rs: seq<Ref>, q: nat, p: nat, v: Slot, p': nat)
    requires Newest(src, slot, rs, q, p, v) && q < p' <= p
    ensures Newest(src, slot, rs, q, p', v)
  {
    hide Hashed, HashAt;
  }

  lemma NewestUpTo(src: seq<byte>, slot: nat -> Slot, rs: seq<Ref>, r: Ref, q: nat, v: Slot)
    requires Newest(src, slot, rs + [r], q, r.start + 1, v) && r.start + 3 <= r.end <= |src|
    ensures Newest(src, slot, rs, q, r.start + 1, v)
  {
    SameBefore(src, rs, r, q);
    forall m: nat | q < m < r.start + 1
      ensures Hashed(rs + [r], m) == Hashed(rs, m) && HashAt(src, rs + [r], m) == HashAt(src, rs, m)
    {
      SameBefore(src, rs, r, m);
    }
    hide Hashed, HashAt;
  }

  /** If the slot of n holds the last position hashed to it, a literal is due unless that position is usable. */
  lemma MissedNow(src: seq<byte>, slot: nat -> Slot, rs: seq<Ref>, n: nat, base: nat, h: seq<word64>)
    requires TableOk(src, slot, rs, n, base, h) && n + 2 < |src|
    requires !Usable(src, h[slot(HashAt(src, rs, n))] - base, n)
    ensures Missed(src, slot, rs, n)
  {
    hide Usable, Newest, HashAt;
  }

  lemma TakenNow(src: seq<byte>, slot: nat -> Slot, rs: seq<Ref>, r: Ref, base: nat, h: seq<word64>)
    requires TableOk(src, slot, rs, r.start, base, h) && r.start + 3 <= r.end <= |src|
    requires r.from == h[slot(HashAt(src, rs, r.start))] - base && Usable(src, r.from, r.start)
    requires Matching(src, r.from, r.start, r.end - r.start)
    requires r.end - r.start >= MAX_REF || r.end + 2 >= |src| || src[r.from + (r.end - r.start)] != src[r.end]
    ensures Taken(src, slot, rs, r)
  {
    hide Usable, Newest, HashAt, Matching;
  }

  lemma HashedNow(rs: seq<Ref>, n: nat)
    requires Before(rs, n + 2)
    ensures Hashed(rs, n)
  {
  }

  // ---- The rolling hash ----

  /** The value carried from the position before n gives the hash value of n. */
  predicate Rolls(src: seq<byte>, rs: seq<Ref>, n: nat, hval: nat) {
    n + 2 < |src| ==> NextHash(hval, src, n) == HashAt(src, rs, n)
  }

  lemma RollsOn(src: seq<byte>, rs: seq<Ref>, n: nat)
    requires n + 2 < |src| && !Restarts(rs, n + 1)
    ensures Rolls(src, rs, n + 1, HashAt(src, rs, n))
  {
    if n + 3 < |src| && !Restarts(rs, n) {
      Oldest(src, n);
    }
    hide FirstHash, NextHash;
  }

  lemma Small(v: nat)
    requires v < 0x100_0000
    ensures v * 256 % 0x1_0000_0000 == v * 256
  {
  }

  lemma Overflow(b: nat, v: nat)
    ensures (b * 0x100_0000 + v) * 256 % 0x1_0000_0000 == v * 256 % 0x1_0000_0000
  {
    assert (b * 0x100_0000 + v) * 256 == b * 0x1_0000_0000 + v * 256;
  }

  /** The fifth byte back falls out of the 32 bits. */
  lemma Oldest(src: seq<byte>, n: nat)
    requires 0 < n && n + 3 < |src|
    ensures NextHash(NextHash(NextHash(FirstHash(src, n - 1), src, n - 1), src, n), src, n + 1)
         == NextHash(NextHash(FirstHash(src, n), src, n), src, n + 1)
  {
    var b0: int, b1: int, b2: int, b3: int := src[n - 1], src[n], src[n + 1], src[n + 2];
    var three := b1 * 0x1_0000 + b2 * 256 + b3;
    Small(b1 * 256 + b2);
    Small(b0 * 256 + b1);
    Small(b0 * 0x1_0000 + b1 * 256 + b2);
    assert NextHash(FirstHash(src, n), src, n) == three;
    assert NextHash(NextHash(FirstHash(src, n - 1), src, n - 1), src, n) == b0 * 0x100_0000 + three;
    hide FirstHash;
    Overflow(b0, three);
  }

  // ---- A text of equal bytes ----

  predicate AllEqual(src: seq<byte>) {
    forall i :: 0 <= i < |src| ==> src[i] == src[0]
  }

  lemma RunMatches(src: seq<byte>, q: nat, p: nat, len: nat)
    requires AllEqual(src) && q < p && p + len <= |src|
    ensures Matching(src, q, p, len)
  {
  }

  lemma SameHash(src: seq<byte>, p: nat)
    requires AllEqual(src) && 2 <= p && p + 2 < |src|
    ensures FirstHash(src, p - 1) == FirstHash(src, p - 2)
    ensures NextHash(NextHash(FirstHash(src, p - 1), src, p - 1), src, p)
         == NextHash(NextHash(FirstHash(src, p - 2), src, p - 2), src, p - 1)
  {
  }

  /** Past the first two bytes there is always a match, up to the last four. */
  lemma NeverMissed(src: seq<byte>, slot: nat -> Slot, rs: seq<Ref>, p: nat)
    requires AllEqual(src) && Before(rs, p) && 2 <= p && p + 4 < |src|
    ensures !Missed(src, slot, rs, p)
  {
    HashedNow(rs, p - 1);
    SameHash(src, p);
    RunMatches(src, p - 1, p, 3);
    assert !Restarts(rs, p) && !Restarts(rs, p - 1);
    assert HashAt(src, rs, p) == HashAt(src, rs, p - 1);
    hide Hashed, HashAt, Matching, Restarts, FirstHash, NextHash;
    assert Found(src, slot, rs, p - 1, p);
    assert Usable(src, p - 1, p);
  }

  // What is left of the law when the last token is taken away.

  lemma GreedyEarlier(src: seq<byte>, slot: nat -> Slot, rs: seq<Ref>, n: nat, n': nat)
    requires Greedy(src, slot, rs, n) && n' <= n && Before(rs, n')
    ensures Greedy(src, slot, rs, n')
  {
    hide Taken, Missed, Replaced;
  }

  lemma GreedyWithout(src: seq<byte>, slot: nat -> Slot, rs: seq<Ref>, r: Ref, n: nat)
    requires Greedy(src, slot, rs + [r], n) && Before(rs, r.start) && r.start <= n
    ensures Greedy(src, slot, rs, r.start) && Taken(src, slot, rs, r)
  {
    var rs' := rs + [r];
    assert rs'[|rs|] == r;
    assert r.start + 3 <= r.end <= |src|;
    TakenBefore(src, slot, rs, r, r);
    forall i | 0 <= i < |rs| ensures Taken(src, slot, rs, rs[i]) {
      assert rs'[i] == rs[i];
      assert Taken(src, slot, rs, rs'[i]) by {
        assert Taken(src, slot, rs', rs'[i]);
        assert rs[i].start <= r.start;
        TakenBefore(src, slot, rs, r, rs[i]);
      }
    }
    forall p: nat | p < r.start && !Replaced(rs, p) ensures Missed(src, slot, rs, p) {
      SameBefore(src, rs, r, p);
      MissedBefore(src, slot, rs, r, p);
    }
    hide Taken, Missed, Replaced;
  }

  /** What stands after the last reference was not found. */
  lemma NotFoundAfter(src: seq<byte>, slot: nat -> Slot, rs: seq<Ref>, n: nat, m: nat)
    requires Greedy(src, slot, rs, n) && Before(rs, m) && m <= n
    ensures Greedy(src, slot, rs, m) && forall p: nat :: m <= p < n ==> Missed(src, slot, rs, p)
  {
    hide Taken, Missed;
    forall p: nat | m <= p < n ensures Missed(src, slot, rs, p) {
      assert !Replaced(rs, p);
    }
    GreedyEarlier(src, slot, rs, n, m);
  }

  lemma GreedyTokensIs(src: seq<byte>, slot: nat -> Slot, ts: seq<Token>, n: nat)
    ensures GreedyTokens(src, slot, ts, n) <==>
            n <= |src| && Valid(ts) && Expand(ts) == src[..n] && Merged(ts) && Greedy(src, slot, Refs(ts), n)
  {
  }

  lemma MergedEarlier(ts: seq<Token>)
    requires Merged(ts) && ts != []
    ensures Merged(ts[..|ts| - 1])
  {
  }

  lemma TokenSizes(t: Token, n: nat)
    requires WellFormed(t)
    ensures t.Literal? ==> |EncodeToken(t)| == 1 + Size(t) && 0 < Size(t) == |t.data| <= MAX_LIT && RefsOf(t, n) == []
    ensures t.BackRef? ==> |EncodeToken(t)| <= 3 && RefsOf(t, n) == [Ref(n, n + Size(t), n - t.off - 1)]
  {
  }

  /** The last token, of literals, stands at positions where no match was found. */
  lemma LastLiteral(src: seq<byte>, slot: nat -> Slot, ts: seq<Token>, n: nat)
    requires GreedyTokens(src, slot, ts, n) && ts != [] && ts[|ts| - 1].Literal?
    ensures var init, m := ts[..|ts| - 1], n - Size(ts[|ts| - 1]);
            && 0 <= m < n && n - m == |ts[|ts| - 1].data| <= MAX_LIT
            && GreedyTokens(src, slot, init, m) && Refs(ts) == Refs(init)
            && |Encode(ts)| == |Encode(init)| + 1 + n - m && Before(Refs(init), m)
            && forall p: nat :: m <= p < n ==> Missed(src, slot, Refs(init), p)
  {
    hide *;
    var init, t := ts[..|ts| - 1], ts[|ts| - 1];
    GreedyTokensIs(src, slot, ts, n);
    Unfolded(src, ts, n);
    var m: nat := n - Size(t);
    MergedEarlier(ts);
    TokenSizes(t, m);
    assert Refs(init) + [] == Refs(init);
    NotFoundAfter(src, slot, Refs(init), n, m);
    GreedyTokensIs(src, slot, init, m);
  }

  /** The last token refers to a match that was taken. */
  lemma LastRef(src: seq<byte>, slot: nat -> Slot, ts: seq<Token>, n: nat)
    requires GreedyTokens(src, slot, ts, n) && ts != [] && ts[|ts| - 1].BackRef?
    ensures var init, m := ts[..|ts| - 1], n - Size(ts[|ts| - 1]);
            && 0 <= m && GreedyTokens(src, slot, init, m) && |Refs(ts)| == |Refs(init)| + 1
            && |Encode(ts)| <= |Encode(init)| + 3
            && Taken(src, slot, Refs(init), Ref(m, n, m - ts[|ts| - 1].off - 1))
  {
    hide *;
    var init, t := ts[..|ts| - 1], ts[|ts| - 1];
    GreedyTokensIs(src, slot, ts, n);
    Unfolded(src, ts, n);
    var m: nat := n - Size(t);
    MergedEarlier(ts);
    TokenSizes(t, m);
    GreedyWithout(src, slot, Refs(init), Ref(m, n, m - t.off - 1), n);
    GreedyTokensIs(src, slot, init, m);
  }

  lemma Unfolded(src: seq<byte>, ts: seq<Token>, n: nat)
    requires Valid(ts) && n <= |src| && Expand(ts) == src[..n] && ts != []
    ensures var init, t := ts[..|ts| - 1], ts[|ts| - 1];
            var m := n - Size(t);
            && WellFormed(t) && 0 <= m && Valid(init) && Expand(init) == src[..m]
            && |Encode(ts)| == |Encode(init)| + |EncodeToken(t)|
            && Refs(ts) == Refs(init) + RefsOf(t, m) && Before(Refs(init), m)
  {
    var init, t := ts[..|ts| - 1], ts[|ts| - 1];
    UnfoldedText(ts);
    UnfoldedRefs(ts);
    TextLengthIs(init);
    RefsEnd(init);
    hide *;
    assert src[..n][..n - Size(t)] == src[..n - Size(t)];
  }

  lemma UnfoldedText(ts: seq<Token>)
    requires Valid(ts) && ts != []
    ensures var init, t := ts[..|ts| - 1], ts[|ts| - 1];
            && Valid(init) && Applies(t, Expand(init)) && WellFormed(t) && Encode(ts) == Encode(init) + EncodeToken(t)
            && |Expand(ts)| == |Expand(init)| + Size(t) && Expand(ts)[..|Expand(init)|] == Expand(init)
  {
    hide CopyBack, EncodeToken;
  }

  lemma UnfoldedRefs(ts: seq<Token>)
    requires ts != []
    ensures Refs(ts) == Refs(ts[..|ts| - 1]) + RefsOf(ts[|ts| - 1], TextLength(ts[..|ts| - 1]))
  {
    hide RefsOf, TextLength;
  }

  lemma {:induction false} RefsEnd(ts: seq<Token>)
    ensures Before(Refs(ts), TextLength(ts))
  {
    if ts != [] {
      RefsEnd(ts[..|ts| - 1]);
    }
  }

  // How long the tokens get.

  predicate EndsInRef(ts: seq<Token>) {
    ts != [] && ts[|ts| - 1].BackRef?
  }

  /**
    The size of the first n of len equal bytes: at most two literals, k references for 264 bytes each but the last one,
    and at most four literals if the last token is no reference.
   */
  predicate Short(size: nat, k: nat, inRef: bool, n: nat, len: nat) {
    if k == 0 then !inRef && n <= 2 && size <= n + 1
    else
      && 264 * (k - 1) + 3 <= n
      && (inRef ==> size <= 3 + 3 * k && (n + 2 >= len || n >= 264 * k))
      && (!inRef ==> n + 4 > len && size <= n + 8 - len + 3 * k && (n + 2 <= len ==> n >= 264))
  }

  lemma ShortLiteral(size: nat, k: nat, inRef: bool, n: nat, m: nat, len: nat)
    requires Short(size, k, inRef, m, len) && (inRef || (size == 0 && m == 0)) && len >= 16 && m < n <= len
    requires (m < 2 ==> n <= 2) && (m >= 2 ==> m + 4 >= len)
    ensures Short(size + 1 + n - m, k, false, n, len)
  {
  }

  lemma ShortRef(size: nat, k: nat, inRef: bool, size': nat, n: nat, m: nat, len: nat)
    requires Short(size, k, inRef, m, len) && 2 <= m && m + 4 < len && m + 3 <= n <= len
    requires size' <= size + 3 && (n - m >= 264 || n + 2 >= len)
    ensures Short(size', k + 1, true, n, len)
  {
  }

  /** Two tokens of literals in a row would hold a position at which a match is found. */
  lemma OneRunOfLiterals(src: seq<byte>, slot: nat -> Slot, ts: seq<Token>, n: nat)
    requires AllEqual(src) && |src| >= 16 && GreedyTokens(src, slot, ts, n) && ts != [] && ts[|ts| - 1].Literal?
    ensures var init, m := ts[..|ts| - 1], n - Size(ts[|ts| - 1]);
            && 0 <= m && (init == [] || EndsInRef(init)) && (m < 2 ==> n <= 2) && (m >= 2 ==> m + 4 >= |src|)
  {
    hide *;
    LastLiteral(src, slot, ts, n);
    var init, m: nat := ts[..|ts| - 1], n - Size(ts[|ts| - 1]);
    EqualLiterals(src, slot, Refs(init), n, m);
    if init != [] && !EndsInRef(init) {
      FullBefore(src, slot, ts, n);
      LastLiteral(src, slot, init, m);
      EqualLiterals(src, slot, Refs(init[..|init| - 1]), m, m - Size(init[|init| - 1]));
      GreedyTokensIs(src, slot, ts, n);
      assert false;
    }
  }

  lemma EqualLiterals(src: seq<byte>, slot: nat -> Slot, rs: seq<Ref>, n: nat, m: nat)
    requires AllEqual(src) && |src| >= 16 && Before(rs, m) && m < n
    requires forall p: nat :: m <= p < n ==> Missed(src, slot, rs, p)
    ensures (m < 2 ==> n <= 2) && (m >= 2 ==> m + 4 >= |src|)
  {
    hide Missed, AllEqual;
    assert Before(rs, 2) || m >= 2;
    if m < 2 < n {
      NeverMissed(src, slot, rs, 2);
    } else if m >= 2 && m + 4 < |src| {
      NeverMissed(src, slot, rs, m);
    }
  }

  lemma FullBefore(src: seq<byte>, slot: nat -> Slot, ts: seq<Token>, n: nat)
    requires GreedyTokens(src, slot, ts, n) && |ts| >= 2 && ts[|ts| - 1].Literal? && !EndsInRef(ts[..|ts| - 1])
    ensures ts[..|ts| - 1][|ts| - 2].Literal? && |ts[..|ts| - 1][|ts| - 2].data| == MAX_LIT == 32
  {
    assert ts[..|ts| - 1][|ts| - 2] == ts[|ts| - 2];
    hide Valid, Expand, Refs, Greedy;
  }

  lemma {:induction false} EqualIsShort(src: seq<byte>, slot: nat -> Slot, ts: seq<Token>, n: nat)
    requires AllEqual(src) && |src| >= 16 && GreedyTokens(src, slot, ts, n)
    ensures Valid(ts) && Short(|Encode(ts)|, |Refs(ts)|, EndsInRef(ts), n, |src|)
  {
    hide *;
    GreedyTokensIs(src, slot, ts, n);
    LastKind(ts);
    if ts == [] {
      NoTokens(n, |src|, src);
    } else {
      var init, m := ts[..|ts| - 1], n - Size(ts[|ts| - 1]);
      if ts[|ts| - 1].Literal? {
        LastLiteral(src, slot, ts, n);
        OneRunOfLiterals(src, slot, ts, n);
        EqualIsShort(src, slot, init, m);
        GreedyTokensIs(src, slot, init, m);
        NoTokens(m, |src|, src);
        ShortLiteral(|Encode(init)|, |Refs(init)|, EndsInRef(init), n, m, |src|);
      } else {
        LastRef(src, slot, ts, n);
        EqualIsShort(src, slot, init, m);
        EqualTaken(src, slot, Refs(init), Ref(m, n, m - ts[|ts| - 1].off - 1));
        ShortRef(|Encode(init)|, |Refs(init)|, EndsInRef(init), |Encode(ts)|, n, m, |src|);
      }
    }
  }

  lemma NoTokens(n: nat, len: nat, src: seq<byte>)
    requires n <= |src|
    ensures Valid([]) && Encode([]) == [] && !EndsInRef([]) && Refs([]) == []
    ensures Expand([]) == src[..n] ==> n == 0 && Short(0, 0, false, n, len)
  {
  }

  lemma LastKind(ts: seq<Token>)
    ensures ts != [] ==> EndsInRef(ts) == ts[|ts| - 1].BackRef? == !ts[|ts| - 1].Literal?
  {
  }

  lemma EqualTaken(src: seq<byte>, slot: nat -> Slot, rs: seq<Ref>, r: Ref)
    requires AllEqual(src) && Taken(src, slot, rs, r)
    ensures 2 <= r.start && r.start + 4 < |src| && r.start + 3 <= r.end <= |src|
    ensures r.end - r.start >= 264 || r.end + 2 >= |src|
  {
    hide Found, Matching;
  }

  lemma ShortAll(size: nat, k: nat, inRef: bool, len: nat)
    requires Short(size, k, inRef, len, len) && len >= 16
    ensures size <= 8 + 3 * (len / 264 + 1)
  {
    assert k - 1 <= len / 264;
  }

  /** Equal bytes become two literals, a reference for each 264 of them, and up to four literals. */
  lemma EqualBytesShrink(src: seq<byte>, slot: nat -> Slot, ts: seq<Token>)
    requires AllEqual(src) && |src| >= 16 && GreedyTokens(src, slot, ts, |src|)
    ensures Valid(ts) && |Encode(ts)| <= 8 + 3 * (|src| / 264 + 1)
  {
    EqualIsShort(src, slot, ts, |src|);
    hide *;
    ShortAll(|Encode(ts)|, |Refs(ts)|, EndsInRef(ts), |src|);
  }

  /** A buffer four bytes smaller than the text has room for them at every step. */
  lemma EqualBytesFit(src: seq<byte>, slot: nat -> Slot, ts: seq<Token>, n: nat, outLen: nat)
    requires AllEqual(src) && |src| >= 16 && NoRoom(src, slot, ts, n, outLen)
    ensures outLen + 4 < |src|
  {
    EqualIsShort(src, slot, ts, n);
    assert n <= |src|;
    hide GreedyTokens, AllEqual, Encode, Refs, Valid;
  }
}
