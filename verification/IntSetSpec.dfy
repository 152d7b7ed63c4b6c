/** The elements of an intset as they lie in its bytes (redis-stable/src/intset.c), on values. */
module IntSetSpec {
  import opened Bytes
  import opened LittleEndian

  /** INTSET_ENC_INT16, INTSET_ENC_INT32 and INTSET_ENC_INT64: the width of an element in bytes. */
  predicate IsWidth(w: nat) { w == 2 || w == 4 || w == 8 }

  /** One more than the largest value of a width. */
  function Limit(w: nat): int {
    if w == 8 then 0x8000_0000_0000_0000 else if w == 4 then 0x8000_0000 else 0x8000
  }

  predicate Fits(v: int, w: nat) {
    -Limit(w) <= v < Limit(w)
  }

  predicate IsInt64(v: int) { Fits(v, 8) }

  /** _intsetValueEncoding. */
  function ValueWidth(v: int): (w: nat)
    requires IsInt64(v)
    ensures IsWidth(w) && Fits(v, w)
    ensures forall u :: IsWidth(u) && Fits(v, u) ==> w <= u
  {
    if v < -0x8000_0000 || v > 0x7fff_ffff then 8 else if v < -0x8000 || v > 0x7fff then 4 else 2
  }

  /** Where element i starts. */
  function Off(i: nat, w: nat): nat {
    if w == 8 then 8 * i else if w == 4 then 4 * i else 2 * i
  }

  /** The bytes of element i. */
  function Slot(b: seq<byte>, i: nat, w: nat): (r: seq<byte>)
    requires IsWidth(w) && Off(i + 1, w) <= |b|
    ensures |r| == w
  {
    b[Off(i, w)..Off(i + 1, w)]
  }

  /** _intsetGetEncoded. */
  function Get(b: seq<byte>, i: nat, w: nat): int
    requires IsWidth(w) && Off(i + 1, w) <= |b|
  {
    Signed(FromLe(Slot(b, i, w)), Limit(w))
  }

  /** _intsetSet. */
  function Put(b: seq<byte>, i: nat, w: nat, v: int): (r: seq<byte>)
    requires IsWidth(w) && Off(i + 1, w) <= |b|
    ensures |r| == |b|
  {
    b[..Off(i, w)] + LeBytes(v, w) + b[Off(i + 1, w)..]
  }

  /** The first n elements. */
  function Elements(b: seq<byte>, n: nat, w: nat): (xs: seq<int>)
    requires IsWidth(w) && Off(n, w) <= |b|
    ensures |xs| == n
  {
    seq(n, i requires 0 <= i < n => Get(b, i, w))
  }

  lemma {:induction false} FromLeBound(s: seq<byte>)
    ensures FromLe(s) < Pow256(|s|)
    decreases |s|
  {
    if s != [] { FromLeBound(s[1..]); }
  }

  /** Every element fits the width. */
  lemma GetFits(b: seq<byte>, i: nat, w: nat)
    requires IsWidth(w) && Off(i + 1, w) <= |b|
    ensures Fits(Get(b, i, w), w)
  {
    FromLeBound(Slot(b, i, w));
    Widths();
    hide FromLe, Pow256, Slot;
  }

  /** What is written at a place is read back there. */
  lemma GetPut(b: seq<byte>, i: nat, w: nat, v: int)
    requires IsWidth(w) && Off(i + 1, w) <= |b| && Fits(v, w)
    ensures Get(Put(b, i, w, v), i, w) == v
  {
    Widths();
    SignedRoundTrip(v, w, Limit(w), []);
    hide FromLe, Pow256, LeBytes, Signed;
    assert Slot(Put(b, i, w, v), i, w) == LeBytes(v, w);
  }

  lemma OffNext(i: nat, w: nat)
    requires IsWidth(w)
    ensures Off(i + 1, w) == Off(i, w) + w
  {
  }

  /** Elements of any width that lie elsewhere are left alone. */
  lemma GetPutElsewhere(b: seq<byte>, i: nat, w: nat, v: int, j: nat, u: nat)
    requires IsWidth(w) && Off(i + 1, w) <= |b| && IsWidth(u) && Off(j + 1, u) <= |b|
    requires Off(j + 1, u) <= Off(i, w) || Off(i + 1, w) <= Off(j, u)
    ensures Get(Put(b, i, w, v), j, u) == Get(b, j, u)
  {
    hide FromLe, LeBytes, Signed;
    var p, q, m, n := Off(i, w), Off(i + 1, w), Off(j, u), Off(j + 1, u);
    OffNext(i, w);
    OffNext(j, u);
    hide Off;
    var c := Put(b, i, w, v);
    assert c == b[..p] + LeBytes(v, w) + b[q..];
    assert forall k :: m <= k < n ==> c[k] == b[k];
    assert Slot(c, j, u) == Slot(b, j, u);
  }

  lemma ElementsPut(b: seq<byte>, n: nat, i: nat, w: nat, v: int)
    requires IsWidth(w) && Off(n, w) <= |b| && i < n && Fits(v, w)
    ensures Elements(Put(b, i, w, v), n, w) == Elements(b, n, w)[i := v]
  {
    hide Get, Put;
    GetPut(b, i, w, v);
    forall j | 0 <= j < n && j != i ensures Get(Put(b, i, w, v), j, w) == Get(b, j, w) {
      GetPutElsewhere(b, i, w, v, j, w);
    }
  }

  /** memmove of the elements from position from on to position dest (intsetMoveTail). */
  function Moved(b: seq<byte>, from: nat, dest: nat, n: nat, w: nat): (r: seq<byte>)
    requires IsWidth(w) && from <= n && Off(n, w) <= |b| && Off(dest + n - from, w) <= |b|
    ensures |r| == |b|
  {
    b[..Off(dest, w)] + b[Off(from, w)..Off(n, w)] + b[Off(dest + n - from, w)..]
  }

  lemma MovedBefore(b: seq<byte>, from: nat, dest: nat, n: nat, w: nat, j: nat)
    requires IsWidth(w) && from <= n && Off(n, w) <= |b| && Off(dest + n - from, w) <= |b| && j < dest
    ensures Get(Moved(b, from, dest, n, w), j, w) == Get(b, j, w)
  {
    hide FromLe, Signed;
    assert Slot(Moved(b, from, dest, n, w), j, w) == Slot(b, j, w);
  }

  lemma MovedSlice(b: seq<byte>, f: nat, d: nat, m: nat, k: nat, w: nat)
    requires f + m <= |b| && d + m <= |b| && k + w <= m
    ensures (b[..d] + b[f..f + m] + b[d + m..])[d + k..d + k + w] == b[f + k..f + k + w]
  {
    var mid := b[f..f + m];
    var r := b[..d] + mid + b[d + m..];
    assert r[d..d + m] == mid;
    assert r[d + k..d + k + w] == r[d..d + m][k..k + w];
    var x, y := mid[k..k + w], b[f + k..f + k + w];
    forall i | 0 <= i < w ensures x[i] == y[i] {
      assert x[i] == mid[k + i] && mid[k + i] == b[f + (k + i)];
    }
    assert x == y;
  }

  lemma MovedAfter(b: seq<byte>, from: nat, dest: nat, n: nat, w: nat, j: nat)
    requires IsWidth(w) && from <= n && Off(n, w) <= |b| && Off(dest + n - from, w) <= |b|
    requires dest <= j < dest + n - from
    ensures Get(Moved(b, from, dest, n, w), j, w) == Get(b, j - dest + from, w)
  {
    hide FromLe, Signed;
    var k := Off(j - dest, w);
    assert Off(j, w) == Off(dest, w) + k && Off(j - dest + from, w) == Off(from, w) + k;
    assert Off(j + 1, w) == Off(j, w) + w && Off(j - dest + from + 1, w) == Off(from, w) + k + w;
    MovedSlice(b, Off(from, w), Off(dest, w), Off(n, w) - Off(from, w), k, w);
    assert Off(dest + n - from, w) == Off(dest, w) + (Off(n, w) - Off(from, w)) && k + w <= Off(n, w) - Off(from, w);
    hide Off;
  }

  lemma ElementsMoved(b: seq<byte>, from: nat, dest: nat, n: nat, w: nat)
    requires IsWidth(w) && from <= n && dest <= n && Off(n, w) <= |b| && Off(dest + n - from, w) <= |b|
    ensures var r := Moved(b, from, dest, n, w);
            Elements(r, dest + n - from, w) == Elements(b, n, w)[..dest] + Elements(b, n, w)[from..]
  {
    var r := Moved(b, from, dest, n, w);
    hide Get, Moved;
    forall j | 0 <= j < dest ensures Get(r, j, w) == Get(b, j, w) {
      MovedBefore(b, from, dest, n, w, j);
    }
    forall j | dest <= j < dest + n - from ensures Get(r, j, w) == Get(b, j - dest + from, w) {
      MovedAfter(b, from, dest, n, w, j);
    }
  }

  lemma ElementsPrefix(b: seq<byte>, c: seq<byte>, n: nat, w: nat)
    requires IsWidth(w) && Off(n, w) <= |b| && Off(n, w) <= |c| && b[..Off(n, w)] == c[..Off(n, w)]
    ensures Elements(b, n, w) == Elements(c, n, w)
  {
    hide FromLe, Signed;
    forall j | 0 <= j < n ensures Slot(b, j, w) == Slot(c, j, w) {
      assert Slot(b, j, w) == b[..Off(n, w)][Off(j, w)..Off(j + 1, w)];
      assert Slot(c, j, w) == c[..Off(n, w)][Off(j, w)..Off(j + 1, w)];
    }
  }

  // ---- Sorted sequences ----

  ghost predicate Sorted(xs: seq<int>) {
    forall i, j :: 0 <= i < j < |xs| ==> xs[i] < xs[j]
  }

  function ToSet(xs: seq<int>): set<int> {
    set x | x in xs
  }

  /** The place where a value is or belongs. */
  ghost predicate Place(xs: seq<int>, v: int, pos: nat) {
    && pos <= |xs|
    && (forall i :: 0 <= i < pos ==> xs[i] < v)
    && (forall i :: pos <= i < |xs| ==> v <= xs[i])
  }

  function Inserted(xs: seq<int>, pos: nat, v: int): seq<int>
    requires pos <= |xs|
  {
    xs[..pos] + [v] + xs[pos..]
  }

  function Deleted(xs: seq<int>, pos: nat): seq<int>
    requires pos < |xs|
  {
    xs[..pos] + xs[pos + 1..]
  }

  lemma InsertedSorted(xs: seq<int>, pos: nat, v: int)
    requires Sorted(xs) && Place(xs, v, pos) && v !in xs
    ensures Sorted(Inserted(xs, pos, v)) && ToSet(Inserted(xs, pos, v)) == ToSet(xs) + {v}
  {
    var ys := Inserted(xs, pos, v);
    assert forall i :: pos <= i < |xs| ==> xs[i] in xs;
    forall x ensures x in ys <==> x in xs || x == v {
      InsertedMembers(xs, pos, v, x);
    }
  }

  lemma InsertedMembers(xs: seq<int>, pos: nat, v: int, x: int)
    requires pos <= |xs|
    ensures x in Inserted(xs, pos, v) <==> x in xs || x == v
  {
    assert xs == xs[..pos] + xs[pos..];
  }

  lemma DeletedSorted(xs: seq<int>, pos: nat)
    requires Sorted(xs) && pos < |xs|
    ensures Sorted(Deleted(xs, pos)) && ToSet(Deleted(xs, pos)) == ToSet(xs) - {xs[pos]}
  {
    var ys := Deleted(xs, pos);
    assert xs == xs[..pos] + [xs[pos]] + xs[pos + 1..];
    assert xs[pos] !in ys by {
      assert forall i :: 0 <= i < |ys| ==> ys[i] == xs[if i < pos then i else i + 1];
    }
  }
}
