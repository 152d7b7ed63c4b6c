/** Partial quicksort (redis-stable/src/pqsort.c): sorts only what a window of positions needs. */
module PqSort {

  /** A comparison function as qsort expects it: the sign of cmp(x, y) is a total preorder. */
  ghost predicate TotalPreorder<T(!new)>(cmp: (T, T) -> int) {
    && (forall x, y :: cmp(x, y) < 0 <==> cmp(y, x) > 0)
    && (forall x, y, z :: cmp(x, y) <= 0 && cmp(y, z) <= 0 ==> cmp(x, z) <= 0)
  }

  lemma Transitive<T(!new)>(cmp: (T, T) -> int, x: T, y: T, z: T)
    requires TotalPreorder(cmp) && cmp(x, y) <= 0 && cmp(y, z) <= 0
    ensures cmp(x, z) <= 0
    ensures cmp(x, y) < 0 || cmp(y, z) < 0 ==> cmp(x, z) < 0
  {
  }

  // ---- Rearrangements ----

  /** t is s with the elements of positions lo to hi rearranged. */
  ghost predicate Permuted<T>(s: seq<T>, t: seq<T>, lo: nat, hi: nat) {
    && lo <= hi <= |s| == |t|
    && t[..lo] == s[..lo] && t[hi..] == s[hi..]
    && multiset(t[lo..hi]) == multiset(s[lo..hi])
  }

  lemma PermutedTrans<T>(s: seq<T>, t: seq<T>, u: seq<T>, lo: nat, hi: nat)
    requires Permuted(s, t, lo, hi) && Permuted(t, u, lo, hi)
    ensures Permuted(s, u, lo, hi)
  {
  }

  lemma SliceParts<T>(s: seq<T>, lo': nat, lo: nat, hi: nat, hi': nat)
    requires lo' <= lo <= hi <= hi' <= |s|
    ensures s[lo'..hi'] == s[..lo][lo'..] + s[lo..hi] + s[hi..][..hi' - hi]
    ensures s[..lo'] == s[..lo][..lo'] && s[hi'..] == s[hi..][hi' - hi..]
  {
  }

  lemma PermutedWiden<T>(s: seq<T>, t: seq<T>, lo: nat, hi: nat, lo': nat, hi': nat)
    requires Permuted(s, t, lo, hi) && lo' <= lo && hi <= hi' <= |s|
    ensures Permuted(s, t, lo', hi')
  {
    SliceParts(s, lo', lo, hi, hi');
    SliceParts(t, lo', lo, hi, hi');
  }

  /** Whatever held of every element of the range still does, and positions outside it are untouched. */
  lemma PermutedElement<T>(s: seq<T>, t: seq<T>, lo: nat, hi: nat, k: nat) returns (j: nat)
    requires Permuted(s, t, lo, hi) && k < |s|
    ensures j < |s| && t[k] == s[j]
    ensures lo <= k < hi ==> lo <= j < hi
    ensures k < lo || hi <= k ==> j == k
  {
    if k < lo {
      j := k;
      assert t[..lo][k] == s[..lo][k];
    } else if hi <= k {
      j := k;
      assert t[hi..][k - hi] == s[hi..][k - hi];
    } else {
      assert t[lo..hi][k - lo] in multiset(s[lo..hi]);
      assert t[k] in s[lo..hi];
      var i :| 0 <= i < hi - lo && s[lo..hi][i] == t[k];
      j := lo + i;
    }
  }

  function Swapped<T>(s: seq<T>, i: nat, j: nat): seq<T>
    requires i < |s| && j < |s|
  {
    s[i := s[j]][j := s[i]]
  }

  lemma SwapPermutes<T>(s: seq<T>, i: nat, j: nat, lo: nat, hi: nat)
    requires lo <= i < hi <= |s| && lo <= j < hi
    ensures Permuted(s, Swapped(s, i, j), lo, hi)
  {
    var t := Swapped(s, i, j);
    var m := s[lo..hi];
    assert t[lo..hi] == m[i - lo := m[j - lo]][j - lo := m[i - lo]];
    assert t[..lo] == s[..lo] && t[hi..] == s[hi..];
  }

  method Swap<T>(a: array<T>, i: nat, j: nat)
    requires i < a.Length && j < a.Length
    modifies a
    ensures a[..] == Swapped(old(a[..]), i, j)
  {
    a[i], a[j] := a[j], a[i];
  }

  lemma PermutedRefl<T>(s: seq<T>, lo: nat, hi: nat)
    requires lo <= hi <= |s|
    ensures Permuted(s, s, lo, hi)
  {
  }

  method SwapIn<T>(a: array<T>, i: nat, j: nat, ghost s0: seq<T>, ghost lo: nat, ghost hi: nat)
    requires lo <= i < hi <= a.Length && lo <= j < hi && Permuted(s0, a[..], lo, hi)
    modifies a
    ensures a[..] == Swapped(old(a[..]), i, j) && Permuted(s0, a[..], lo, hi)
  {
    hide Permuted;
    SwapPermutes(a[..], i, j, lo, hi);
    ghost var s := a[..];
    Swap(a, i, j);
    PermutedTrans(s0, s, a[..], lo, hi);
  }

  // ---- Orders ----

  ghost predicate Sorted<T(!new)>(cmp: (T, T) -> int, s: seq<T>, lo: nat, hi: nat)
    requires hi <= |s|
  {
    forall i, j :: lo <= i < j < hi ==> cmp(s[i], s[j]) <= 0
  }

  /** Position i separates the range: nothing before it is greater and nothing after it is smaller. */
  ghost predicate Placed<T(!new)>(cmp: (T, T) -> int, s: seq<T>, lo: nat, hi: nat, i: nat)
    requires lo <= i < hi <= |s|
  {
    && (forall j :: lo <= j < i ==> cmp(s[j], s[i]) <= 0)
    && (forall j :: i < j < hi ==> cmp(s[i], s[j]) <= 0)
  }

  /** Every position of the range that lies in the window is in its place. */
  ghost predicate WindowPlaced<T(!new)>(cmp: (T, T) -> int, s: seq<T>, lo: nat, hi: nat, lrange: int, rrange: int)
    requires hi <= |s|
  {
    forall i :: lo <= i < hi && lrange <= i <= rrange ==> Placed(cmp, s, lo, hi, i)
  }

  // ---- Insertion sort (lines 110-113 and 157-160) ----

  /** Sorted but for position at, whose element may be smaller than those before it. */
  ghost predicate SortedBut<T(!new)>(cmp: (T, T) -> int, s: seq<T>, lo: nat, hi: nat, at: nat)
    requires hi <= |s|
  {
    forall i, j :: lo <= i < j < hi && j != at ==> cmp(s[i], s[j]) <= 0
  }

  lemma SiftStep<T(!new)>(cmp: (T, T) -> int, s: seq<T>, lo: nat, hi: nat, at: nat)
    requires TotalPreorder(cmp) && lo < at < hi <= |s|
    requires SortedBut(cmp, s, lo, hi, at) && cmp(s[at - 1], s[at]) > 0
    ensures SortedBut(cmp, Swapped(s, at, at - 1), lo, hi, at - 1)
  {
    var t := Swapped(s, at, at - 1);
    forall i, j | lo <= i < j < hi && j != at - 1 ensures cmp(t[i], t[j]) <= 0 {
      if j == at && i < at - 1 {
        assert cmp(s[i], s[at - 1]) <= 0;
      }
    }
  }

  lemma SiftDone<T(!new)>(cmp: (T, T) -> int, s: seq<T>, lo: nat, hi: nat, at: nat)
    requires TotalPreorder(cmp) && lo <= at < hi <= |s|
    requires SortedBut(cmp, s, lo, hi, at) && (at == lo || cmp(s[at - 1], s[at]) <= 0)
    ensures Sorted(cmp, s, lo, hi)
  {
    forall i, j | lo <= i < j < hi ensures cmp(s[i], s[j]) <= 0 {
      if j == at && i < at - 1 {
        Transitive(cmp, s[i], s[at - 1], s[at]);
      }
    }
  }

  /** The inner loop: sinks the element at pm to its place among those before it. */
  method Sink<T(!new)>(a: array<T>, lo: nat, pm: nat, cmp: (T, T) -> int, ghost s0: seq<T>, ghost hi: nat)
    requires TotalPreorder(cmp) && lo < pm < hi <= a.Length
    requires Permuted(s0, a[..], lo, hi) && SortedBut(cmp, a[..], lo, pm + 1, pm)
    modifies a
    ensures Permuted(s0, a[..], lo, hi) && Sorted(cmp, a[..], lo, pm + 1)
  {
    hide Permuted, TotalPreorder, Swapped, Sorted, SortedBut;
    var pl := pm;
    while pl > lo && cmp(a[pl - 1], a[pl]) > 0
      invariant lo <= pl <= pm
      invariant Permuted(s0, a[..], lo, hi) && SortedBut(cmp, a[..], lo, pm + 1, pl)
    {
      SiftStep(cmp, a[..], lo, pm + 1, pl);
      SwapIn(a, pl, pl - 1, s0, lo, hi);
      pl := pl - 1;
    }
    SiftDone(cmp, a[..], lo, pm + 1, pl);
  }

  method InsertionSort<T(!new)>(a: array<T>, lo: nat, n: nat, cmp: (T, T) -> int)
    requires TotalPreorder(cmp) && lo + n <= a.Length
    modifies a
    ensures Permuted(old(a[..]), a[..], lo, lo + n) && Sorted(cmp, a[..], lo, lo + n)
  {
    hide Permuted, TotalPreorder, Swapped;
    PermutedRefl(a[..], lo, lo + n);
    ghost var s0 := a[..];
    var pm := lo + 1;
    while pm < lo + n
      invariant lo < pm && (pm <= lo + n || n == 0)
      invariant Permuted(s0, a[..], lo, lo + n)
      invariant pm <= lo + n ==> Sorted(cmp, a[..], lo, pm)
    {
      Sink(a, lo, pm, cmp, s0, lo + n);
      pm := pm + 1;
    }
  }

  // ---- Pivot choice (lines 89-97 and 116-127) ----

  /** The position of the median of three elements. */
  function Med3<T>(s: seq<T>, i: nat, j: nat, k: nat, cmp: (T, T) -> int): (m: nat)
    requires i < |s| && j < |s| && k < |s|
    ensures m == i || m == j || m == k
  {
    if cmp(s[i], s[j]) < 0 then
      if cmp(s[j], s[k]) < 0 then j else if cmp(s[i], s[k]) < 0 then k else i
    else
      if cmp(s[j], s[k]) > 0 then j else if cmp(s[i], s[k]) < 0 then i else k
  }

  ghost predicate Between<T>(cmp: (T, T) -> int, x: T, y: T, z: T) {
    (cmp(x, y) <= 0 && cmp(y, z) <= 0) || (cmp(z, y) <= 0 && cmp(y, x) <= 0)
  }

  lemma Med3IsMedian<T(!new)>(s: seq<T>, i: nat, j: nat, k: nat, cmp: (T, T) -> int)
    requires TotalPreorder(cmp) && i < |s| && j < |s| && k < |s|
    ensures var m := Med3(s, i, j, k, cmp);
            || (m == i && Between(cmp, s[j], s[i], s[k]))
            || (m == j && Between(cmp, s[i], s[j], s[k]))
            || (m == k && Between(cmp, s[i], s[k], s[j]))
  {
  }

  function PivotIndex<T>(s: seq<T>, lo: nat, n: nat, cmp: (T, T) -> int): (m: nat)
    requires n >= 7 && lo + n <= |s|
    ensures lo <= m < lo + n
  {
    var pm := lo + n / 2;
    if n == 7 then pm
    else
      var pl, pn := lo, lo + n - 1;
      if n > 40 then
        var d := n / 8;
        Med3(s, Med3(s, pl, pl + d, pl + 2 * d, cmp), Med3(s, pm - d, pm, pm + d, cmp),
             Med3(s, pn - 2 * d, pn - d, pn, cmp), cmp)
      else
        Med3(s, pl, pm, pn, cmp)
  }

  // ---- Three-way partition (lines 128-168) ----

  /** The state of the scan: equal elements at both ends, smaller ones on the left, greater ones on the right. */
  ghost predicate Scanned<T(!new)>(cmp: (T, T) -> int, s: seq<T>, lo: nat, hi: nat, v: T,
                                   pa: nat, pb: nat, pc: nat, pd: nat)
  {
    && lo < pa <= pb <= pc + 1 && pc <= pd < hi <= |s| && s[lo] == v
    && (forall k :: lo <= k < pa ==> cmp(s[k], v) == 0)
    && (forall k :: pa <= k < pb ==> cmp(s[k], v) < 0)
    && (forall k :: pc < k <= pd ==> cmp(s[k], v) > 0)
    && (forall k :: pd < k < hi ==> cmp(s[k], v) == 0)
  }

  /** The range is split into elements smaller than, equal to and greater than v. */
  ghost predicate Split<T(!new)>(cmp: (T, T) -> int, s: seq<T>, lo: nat, hi: nat, v: T, p: nat, q: nat) {
    && lo <= p < q <= hi <= |s|
    && (forall k :: lo <= k < p ==> cmp(s[k], v) < 0)
    && (forall k :: p <= k < q ==> cmp(s[k], v) == 0)
    && (forall k :: q <= k < hi ==> cmp(s[k], v) > 0)
  }

  lemma ScannedBounds<T(!new)>(cmp: (T,
                        T) -> int, s: seq<T>, lo: nat, hi: nat, v: T, pa: nat, pb: nat, pc: nat, pd: nat)
    requires Scanned(cmp, s, lo, hi, v, pa, pb, pc, pd)
    ensures lo < pa <= pb <= pc + 1 && pc <= pd < hi <= |s| && s[lo] == v
  {
  }

  /** The left cursor passes an element that is not greater than the pivot, moving it to the end when it is equal. */
  lemma ScanLeft<T(!new)>(cmp: (T, T) -> int, s: seq<T>, lo: nat, hi: nat, v: T, pa: nat, pb: nat, pc: nat, pd: nat)
    requires Scanned(cmp, s, lo, hi, v, pa, pb, pc, pd) && pb <= pc
    ensures cmp(s[pb], v) < 0 ==> Scanned(cmp, s, lo, hi, v, pa, pb + 1, pc, pd)
    ensures cmp(s[pb], v) == 0 ==> Scanned(cmp, Swapped(s, pa, pb), lo, hi, v, pa + 1, pb + 1, pc, pd)
  {
  }

  lemma ScanRight<T(!new)>(cmp: (T, T) -> int, s: seq<T>, lo: nat, hi: nat, v: T, pa: nat, pb: nat, pc: nat, pd: nat)
    requires Scanned(cmp, s, lo, hi, v, pa, pb, pc, pd) && pb <= pc
    ensures cmp(s[pc], v) > 0 ==> Scanned(cmp, s, lo, hi, v, pa, pb, pc - 1, pd)
    ensures cmp(s[pc], v) == 0 ==> Scanned(cmp, Swapped(s, pc, pd), lo, hi, v, pa, pb, pc - 1, pd - 1)
  {
  }

  lemma ScanExchange<T(!new)>(cmp: (T, T) -> int, s: seq<T>, lo: nat, hi: nat, v: T, pa: nat, pb: nat, pc: nat, pd: nat)
    requires Scanned(cmp, s, lo, hi, v, pa, pb, pc, pd) && pb < pc
    requires cmp(s[pb], v) > 0 && cmp(s[pc], v) < 0
    ensures Scanned(cmp, Swapped(s, pb, pc), lo, hi, v, pa, pb + 1, pc - 1, pd)
  {
  }

  /** Lines 133-140: moves pb over the elements that are not greater than the pivot. */
  method ScanUp<T(!new)>(a: array<T>, lo: nat, cmp: (T, T) -> int, pa0: nat, pb0: nat, pc: nat,
                         ghost s0: seq<T>, ghost hi: nat, ghost v: T, ghost pd: nat)
    returns (pa: nat, pb: nat, swapped: bool)
    requires Permuted(s0, a[..], lo, hi) && Scanned(cmp, a[..], lo, hi, v, pa0, pb0, pc, pd)
    modifies a
    ensures Permuted(s0, a[..], lo, hi) && Scanned(cmp, a[..], lo, hi, v, pa, pb, pc, pd)
    ensures pb0 <= pb && (pb <= pc ==> cmp(a[pb], v) > 0)
  {
    hide Permuted, Scanned, Swapped;
    pa, pb, swapped := pa0, pb0, false;
    ScannedBounds(cmp, a[..], lo, hi, v, pa, pb, pc, pd);
    while pb <= pc && cmp(a[pb], a[lo]) <= 0
      invariant Permuted(s0, a[..], lo, hi) && Scanned(cmp, a[..], lo, hi, v, pa, pb, pc, pd)
      invariant lo < pa <= pb <= pc + 1 && pc <= pd < hi && a[lo] == v && pb0 <= pb
    {
      ScanLeft(cmp, a[..], lo, hi, v, pa, pb, pc, pd);
      if cmp(a[pb], a[lo]) == 0 {
        swapped := true;
        SwapIn(a, pa, pb, s0, lo, hi);
        pa := pa + 1;
      }
      pb := pb + 1;
      ScannedBounds(cmp, a[..], lo, hi, v, pa, pb, pc, pd);
    }
  }

  /** Lines 141-148: moves pc down over the elements that are not smaller than the pivot. */
  method ScanDown<T(!new)>(a: array<T>, lo: nat, cmp: (T, T) -> int, pb: nat, pc0: nat, pd0: nat,
                           ghost s0: seq<T>, ghost hi: nat, ghost v: T, ghost pa: nat)
    returns (pc: nat, pd: nat, swapped: bool)
    requires Permuted(s0, a[..], lo, hi) && Scanned(cmp, a[..], lo, hi, v, pa, pb, pc0, pd0)
    requires pb <= pc0 ==> cmp(a[pb], v) > 0
    modifies a
    ensures Permuted(s0, a[..], lo, hi) && Scanned(cmp, a[..], lo, hi, v, pa, pb, pc, pd)
    ensures pc <= pc0 && (pb <= pc ==> pb < pc && cmp(a[pb], v) > 0 && cmp(a[pc], v) < 0)
  {
    hide Permuted, Scanned, Swapped;
    pc, pd, swapped := pc0, pd0, false;
    ScannedBounds(cmp, a[..], lo, hi, v, pa, pb, pc, pd);
    while pb <= pc && cmp(a[pc], a[lo]) >= 0
      invariant Permuted(s0, a[..], lo, hi) && Scanned(cmp, a[..], lo, hi, v, pa, pb, pc, pd)
      invariant lo < pa <= pb <= pc + 1 && pc <= pd < hi && a[lo] == v && pc <= pc0
      invariant pb <= pc ==> cmp(a[pb], v) > 0
      decreases pc
    {
      ScanRight(cmp, a[..], lo, hi, v, pa, pb, pc, pd);
      if cmp(a[pc], a[lo]) == 0 {
        swapped := true;
        ghost var s := a[..];
        SwapIn(a, pc, pd, s0, lo, hi);
        SwappedKeeps(s, pc, pd, pb);
        pd := pd - 1;
      }
      pc := pc - 1;
      ScannedBounds(cmp, a[..], lo, hi, v, pa, pb, pc, pd);
    }
  }

  /** The scan of the four cursors (lines 129-155); swapped is swap_cnt. */
  method Scan<T(!new)>(a: array<T>, lo: nat, n: nat, cmp: (T, T) -> int)
    returns (pa: nat, pb: nat, pc: nat, pd: nat, swapped: bool)
    requires TotalPreorder(cmp) && n >= 2 && lo + n <= a.Length
    modifies a
    ensures Permuted(old(a[..]), a[..], lo, lo + n)
    ensures Scanned(cmp, a[..], lo, lo + n, old(a[lo]), pa, pb, pc, pd) && pb == pc + 1
  {
    hide Permuted, Scanned, Swapped;
    ghost var s0, v, hi := a[..], a[lo], lo + n;
    PermutedRefl(s0, lo, hi);
    ScanStart(cmp, s0, lo, hi);
    pa, pb := lo + 1, lo + 1;
    pc, pd := lo + n - 1, lo + n - 1;
    swapped := false;
    while true
      invariant Permuted(s0, a[..], lo, hi) && Scanned(cmp, a[..], lo, hi, v, pa, pb, pc, pd)
      decreases pc + 1 - pb
    {
      var up, down;
      pa, pb, up := ScanUp(a, lo, cmp, pa, pb, pc, s0, hi, v, pd);
      pc, pd, down := ScanDown(a, lo, cmp, pb, pc, pd, s0, hi, v, pa);
      swapped := swapped || up || down;
      ScannedBounds(cmp, a[..], lo, hi, v, pa, pb, pc, pd);
      if pb > pc { break; }
      ScanExchange(cmp, a[..], lo, hi, v, pa, pb, pc, pd);
      SwapIn(a, pb, pc, s0, lo, hi);
      swapped := true;
      pb, pc := pb + 1, pc - 1;
    }
  }

  lemma ScanStart<T(!new)>(cmp: (T, T) -> int, s: seq<T>, lo: nat, hi: nat)
    requires TotalPreorder(cmp) && lo + 2 <= hi <= |s|
    ensures Scanned(cmp, s, lo, hi, s[lo], lo + 1, lo + 1, hi - 1, hi - 1)
  {
    assert cmp(s[lo], s[lo]) == 0;
  }

  lemma SwappedKeeps<T>(s: seq<T>, i: nat, j: nat, k: nat)
    requires i < |s| && j < |s| && k < |s| && k != i && k != j
    ensures Swapped(s, i, j)[k] == s[k]
  {
  }

  /** t is s with the r elements from i on and the r elements from j on exchanged. */
  ghost predicate BlocksSwapped<T>(s: seq<T>, t: seq<T>, i: nat, j: nat, r: nat) {
    && i + r <= j && j + r <= |s| == |t|
    && (forall k :: i <= k < i + r ==> t[k] == s[k + (j - i)])
    && (forall k :: j <= k < j + r ==> t[k] == s[k - (j - i)])
    && (forall k :: 0 <= k < |s| && !(i <= k < i + r) && !(j <= k < j + r) ==> t[k] == s[k])
  }

  /** vecswap. */
  method VecSwap<T>(a: array<T>, i: nat, j: nat, r: nat, ghost s0: seq<T>, ghost lo: nat, ghost hi: nat)
    requires lo <= i && i + r <= j && j + r <= hi <= a.Length && Permuted(s0, a[..], lo, hi)
    modifies a
    ensures BlocksSwapped(old(a[..]), a[..], i, j, r) && Permuted(s0, a[..], lo, hi)
  {
    hide Permuted;
    ghost var s := a[..];
    var k := 0;
    while k < r
      invariant k <= r && BlocksSwapped(s, a[..], i, j, k) && Permuted(s0, a[..], lo, hi)
    {
      SwapIn(a, i + k, j + k, s0, lo, hi);
      k := k + 1;
    }
  }

  /** The first vecswap gathers the smaller elements at the front. */
  lemma LeftGathered<T(!new)>(cmp: (T, T) -> int, s: seq<T>, t: seq<T>, lo: nat, hi: nat, v: T,
                              pa: nat, pb: nat, pd: nat, r: nat)
    requires 0 < pb && Scanned(cmp, s, lo, hi, v, pa, pb, pb - 1, pd)
    requires r == if pa - lo < pb - pa then pa - lo else pb - pa
    requires BlocksSwapped(s, t, lo, pb - r, r)
    ensures forall k :: lo <= k < lo + (pb - pa) ==> cmp(t[k], v) < 0
    ensures forall k :: lo + (pb - pa) <= k < pb ==> cmp(t[k], v) == 0
    ensures forall k :: pb <= k <= pd ==> cmp(t[k], v) > 0
    ensures forall k :: pd < k < hi ==> cmp(t[k], v) == 0
  {
  }

  /** The second vecswap gathers the greater elements at the back. */
  lemma RightGathered<T(!new)>(cmp: (T, T) -> int, t: seq<T>, u: seq<T>, lo: nat, hi: nat, v: T,
                               p: nat, pb: nat, pd: nat, r: nat)
    requires lo <= p < pb <= pd + 1 && pd < hi <= |t|
    requires forall k :: lo <= k < p ==> cmp(t[k], v) < 0
    requires forall k :: p <= k < pb ==> cmp(t[k], v) == 0
    requires forall k :: pb <= k <= pd ==> cmp(t[k], v) > 0
    requires forall k :: pd < k < hi ==> cmp(t[k], v) == 0
    requires r == if pd + 1 - pb < hi - pd - 1 then pd + 1 - pb else hi - pd - 1
    requires BlocksSwapped(t, u, pb, hi - r, r)
    ensures Split(cmp, u, lo, hi, v, p, hi - (pd + 1 - pb))
  {
  }

  /** Lines 128-168; when nothing was swapped the range is only scanned, and is left for insertion sort. */
  method Partition<T(!new)>(a: array<T>, lo: nat, n: nat, cmp: (T, T) -> int)
    returns (swapped: bool, p: nat, q: nat, ghost v: T)
    requires TotalPreorder(cmp) && n >= 7 && lo + n <= a.Length
    modifies a
    ensures Permuted(old(a[..]), a[..], lo, lo + n)
    ensures swapped ==> Split(cmp, a[..], lo, lo + n, v, p, q)
  {
    hide Permuted, TotalPreorder, Scanned, Split, BlocksSwapped, PivotIndex, Swapped;
    ghost var s0, hi := a[..], lo + n;
    PermutedRefl(s0, lo, hi);
    SwapIn(a, lo, PivotIndex(a[..], lo, n, cmp), s0, lo, hi);
    ghost var s1 := a[..];
    v, p, q := a[lo], lo, lo;
    var pa, pb, pc, pd;
    pa, pb, pc, pd, swapped := Scan(a, lo, n, cmp);
    PermutedTrans(s0, s1, a[..], lo, hi);
    if !swapped { return; }
    ghost var s2 := a[..];
    ScannedBounds(cmp, s2, lo, hi, v, pa, pb, pc, pd);
    var r := if pa - lo < pb - pa then pa - lo else pb - pa;
    VecSwap(a, lo, pb - r, r, s0, lo, hi);
    ghost var s3 := a[..];
    LeftGathered(cmp, s2, s3, lo, hi, v, pa, pb, pd, r);
    p, q := lo + (pb - pa), lo + n - (pd - pc);
    r := if pd - pc < lo + n - pd - 1 then pd - pc else lo + n - pd - 1;
    VecSwap(a, pb, lo + n - r, r, s0, lo, hi);
    RightGathered(cmp, s3, a[..], lo, hi, v, p, pb, pd, r);
  }

  // ---- Recursion on the parts that meet the window (lines 169-187) ----

  /** The test that skips a part: both ends of the window lie on the same side of it. */
  predicate Skipped(lrange: int, rrange: int, lo: nat, hi: nat) {
    (lrange < lo && rrange < lo) || (lrange >= hi && rrange >= hi)
  }

  /** The same test as the source writes it, on the first and last byte of the part and of the window. */
  predicate SkippedBytes(base: int, es: int, lrange: int, rrange: int, lo: int, hi: int) {
    var l, r := base + lrange * es, base + (rrange + 1) * es - 1;
    var first, last := base + lo * es, base + lo * es + (hi - lo) * es - 1;
    (l < first && r < first) || (l > last && r > last)
  }

  lemma MulOrder(x: int, y: int, es: int)
    requires es > 0
    ensures x < y <==> x * es < y * es
  {
    if x < y {
      assert (y - x) * es > 0;
    } else {
      assert (x - y) * es >= 0;
    }
  }

  lemma SkippedOnBytes(base: int, es: int, lrange: int, rrange: int, lo: nat, hi: nat)
    requires es > 0 && lo <= hi
    ensures SkippedBytes(base, es, lrange, rrange, lo, hi) <==> Skipped(lrange, rrange, lo, hi)
  {
    assert lo * es + (hi - lo) * es == hi * es;
    MulOrder(lrange, lo, es);
    MulOrder(lrange, hi, es);
    MulOrder(lo, rrange + 1, es);
    MulOrder(hi, rrange + 1, es);
  }

  /** What is finished once the range from lo0 to lo is done: it is below the rest, and its window is placed. */
  ghost predicate Finished<T(!new)>(cmp: (T,
                             T) -> int, s: seq<T>, lo0: nat, lo: nat, hi: nat, lrange: int, rrange: int) {
    && lo0 <= lo <= hi <= |s|
    && (forall i, k :: lo0 <= i < lo <= k < hi ==> cmp(s[i], s[k]) <= 0)
    && (forall i :: lo0 <= i < lo && lrange <= i <= rrange ==> Placed(cmp, s, lo0, hi, i))
  }

  lemma FinishedKept<T(!new)>(cmp: (T,
                       T) -> int, s: seq<T>, t: seq<T>, lo0: nat, lo: nat, hi: nat, lrange: int, rrange: int)
    requires Finished(cmp, s, lo0, lo, hi, lrange, rrange) && Permuted(s, t, lo, hi)
    ensures Finished(cmp, t, lo0, lo, hi, lrange, rrange)
  {
    assert forall k :: 0 <= k < lo ==> t[k] == s[k] by {
      assert forall k :: 0 <= k < lo ==> t[..lo][k] == s[..lo][k];
    }
    forall i, k | lo0 <= i < lo <= k < hi ensures cmp(t[i], t[k]) <= 0 {
      var j := PermutedElement(s, t, lo, hi, k);
    }
    forall i | lo0 <= i < lo && lrange <= i <= rrange ensures Placed(cmp, t, lo0, hi, i) {
      assert Placed(cmp, s, lo0, hi, i);
    }
  }

  lemma SplitKept<T(!new)>(cmp: (T, T) -> int, s: seq<T>, t: seq<T>, lo: nat, hi: nat, v: T, p: nat, q: nat)
    requires Split(cmp, s, lo, hi, v, p, q) && Permuted(s, t, lo, p)
    ensures Split(cmp, t, lo, hi, v, p, q)
  {
    forall k | lo <= k < hi ensures k < p ==> cmp(t[k], v) < 0
      ensures p <= k ==> t[k] == s[k]
    {
      var j := PermutedElement(s, t, lo, p, k);
    }
  }

  lemma SplitFinishes<T(!new)>(cmp: (T, T) -> int, s: seq<T>, lo0: nat, lo: nat, hi: nat, v: T, p: nat, q: nat,
                               lrange: int, rrange: int)
    requires TotalPreorder(cmp) && Finished(cmp, s, lo0, lo, hi, lrange, rrange)
    requires Split(cmp, s, lo, hi, v, p, q) && WindowPlaced(cmp, s, lo, p, lrange, rrange)
    ensures Finished(cmp, s, lo0, q, hi, lrange, rrange)
  {
    SplitOrders(cmp, s, lo, hi, v, p, q);
    hide Split, TotalPreorder;
    SplitBounds(cmp, s, lo, hi, v, p, q);
    forall i | lo <= i < q && lrange <= i <= rrange ensures Placed(cmp, s, lo0, hi, i) {
      assert i < p ==> Placed(cmp, s, lo, p, i);
    }
  }

  lemma SplitBounds<T(!new)>(cmp: (T, T) -> int, s: seq<T>, lo: nat, hi: nat, v: T, p: nat, q: nat)
    requires Split(cmp, s, lo, hi, v, p, q)
    ensures lo <= p < q <= hi <= |s|
  {
  }

  lemma SplitOrders<T(!new)>(cmp: (T, T) -> int, s: seq<T>, lo: nat, hi: nat, v: T, p: nat, q: nat)
    requires TotalPreorder(cmp) && Split(cmp, s, lo, hi, v, p, q)
    ensures forall i, k :: lo <= i < p <= k < hi ==> cmp(s[i], s[k]) <= 0
    ensures forall i, k :: p <= i < q && p <= k < q ==> cmp(s[i], s[k]) <= 0
    ensures forall i, k :: p <= i < q <= k < hi ==> cmp(s[i], s[k]) <= 0
  {
    forall i, k | lo <= i < q && p <= k < hi ensures cmp(s[i], s[k]) <= 0 {
      assert cmp(s[i], v) <= 0;
      assert cmp(v, s[k]) <= 0;
    }
  }

  lemma WindowFinishes<T(!new)>(cmp: (T, T) -> int, s: seq<T>, lo0: nat, lo: nat, hi: nat, lrange: int, rrange: int)
    requires Finished(cmp, s, lo0, lo, hi, lrange, rrange) && WindowPlaced(cmp, s, lo, hi, lrange, rrange)
    ensures WindowPlaced(cmp, s, lo0, hi, lrange, rrange)
  {
    forall i | lo <= i < hi && lrange <= i <= rrange ensures Placed(cmp, s, lo0, hi, i) {
      assert Placed(cmp, s, lo, hi, i);
    }
  }

  lemma SortedIsPlaced<T(!new)>(cmp: (T, T) -> int, s: seq<T>, lo: nat, hi: nat, lrange: int, rrange: int)
    requires hi <= |s| && Sorted(cmp, s, lo, hi)
    ensures WindowPlaced(cmp, s, lo, hi, lrange, rrange)
  {
  }

  lemma NothingToPlace<T(!new)>(cmp: (T, T) -> int, s: seq<T>, lo: nat, hi: nat, lrange: int, rrange: int)
    requires lo <= hi <= |s| && (hi - lo <= 1 || Skipped(lrange, rrange, lo, hi))
    ensures WindowPlaced(cmp, s, lo, hi, lrange, rrange)
  {
  }

  lemma NothingFinished<T(!new)>(cmp: (T, T) -> int, s: seq<T>, lo: nat, hi: nat, lrange: int, rrange: int)
    requires lo <= hi <= |s|
    ensures Finished(cmp, s, lo, lo, hi, lrange, rrange)
  {
  }

  /** Rearranging a part inside lo to hi keeps the history of a run that started from s0. */
  lemma PartRearranged<T(!new)>(cmp: (T, T) -> int, s0: seq<T>, s: seq<T>, t: seq<T>, lo0: nat, lo: nat, x: nat, y: nat,
                                hi: nat, lrange: int, rrange: int)
    requires Permuted(s0, s, lo0, hi) && Finished(cmp, s, lo0, lo, hi, lrange, rrange)
    requires Permuted(s, t, x, y) && lo0 <= lo <= x && y <= hi <= |s|
    ensures Permuted(s0, t, lo0, hi) && Finished(cmp, t, lo0, lo, hi, lrange, rrange)
  {
    hide Permuted, Finished;
    PermutedWiden(s, t, x, y, lo, hi);
    FinishedKept(cmp, s, t, lo0, lo, hi, lrange, rrange);
    PermutedWiden(s, t, x, y, lo0, hi);
    PermutedTrans(s0, s, t, lo0, hi);
  }

  /** Insertion sort of all that is left. */
  method SortRest<T(!new)>(a: array<T>, ghost s0: seq<T>, ghost lo0: nat, lo: nat, hi: nat, cmp: (T, T) -> int,
                           ghost lrange: int, ghost rrange: int)
    requires TotalPreorder(cmp) && lo0 <= lo <= hi <= a.Length
    requires Permuted(s0, a[..], lo0, hi) && Finished(cmp, a[..], lo0, lo, hi, lrange, rrange)
    modifies a
    ensures Permuted(s0, a[..], lo0, hi) && WindowPlaced(cmp, a[..], lo0, hi, lrange, rrange)
  {
    hide Permuted, TotalPreorder, Finished, WindowPlaced, Sorted;
    ghost var s := a[..];
    InsertionSort(a, lo, hi - lo, cmp);
    PartRearranged(cmp, s0, s, a[..], lo0, lo, lo, hi, hi, lrange, rrange);
    SortedIsPlaced(cmp, a[..], lo, hi, lrange, rrange);
    WindowFinishes(cmp, a[..], lo0, lo, hi, lrange, rrange);
  }

  /** _pqsort on the n0 elements from lo0 on: recurses on the left part and loops on the right one. */
  method SortRange<T(!new)>(a: array<T>, lo0: nat, n0: nat, cmp: (T, T) -> int, lrange: int, rrange: int)
    requires TotalPreorder(cmp) && lo0 + n0 <= a.Length
    modifies a
    ensures Permuted(old(a[..]), a[..], lo0, lo0 + n0)
    ensures WindowPlaced(cmp, a[..], lo0, lo0 + n0, lrange, rrange)
    decreases n0
  {
    hide Permuted, TotalPreorder, Finished, Split, WindowPlaced, Skipped;
    var lo, hi := lo0, lo0 + n0;
    ghost var s0 := a[..];
    PermutedRefl(s0, lo0, hi);
    NothingFinished(cmp, s0, lo0, hi, lrange, rrange);
    while hi - lo >= 7
      invariant lo0 <= lo <= hi
      invariant Permuted(s0, a[..], lo0, hi) && Finished(cmp, a[..], lo0, lo, hi, lrange, rrange)
      decreases hi - lo
    {
      ghost var s := a[..];
      var swapped, p, q;
      ghost var v;
      swapped, p, q, v := Partition(a, lo, hi - lo, cmp);
      PartRearranged(cmp, s0, s, a[..], lo0, lo, lo, hi, hi, lrange, rrange);
      if !swapped { break; }
      SplitBounds(cmp, a[..], lo, hi, v, p, q);
      if p - lo > 1 && !Skipped(lrange, rrange, lo, p) {
        s := a[..];
        SortRange(a, lo, p - lo, cmp, lrange, rrange);
        SplitKept(cmp, s, a[..], lo, hi, v, p, q);
        PartRearranged(cmp, s0, s, a[..], lo0, lo, lo, p, hi, lrange, rrange);
      } else {
        NothingToPlace(cmp, a[..], lo, p, lrange, rrange);
      }
      SplitFinishes(cmp, a[..], lo0, lo, hi, v, p, q, lrange, rrange);
      lo := q;
      if hi - lo <= 1 || Skipped(lrange, rrange, lo, hi) {
        NothingToPlace(cmp, a[..], lo, hi, lrange, rrange);
        WindowFinishes(cmp, a[..], lo0, lo, hi, lrange, rrange);
        return;
      }
    }
    SortRest(a, s0, lo0, lo, hi, cmp, lrange, rrange);
  }

  /** pqsort: after it, every position of the window holds what belongs there. */
  method PartialSort<T(!new)>(a: array<T>, cmp: (T, T) -> int, lrange: nat, rrange: nat)
    requires TotalPreorder(cmp)
    modifies a
    ensures multiset(a[..]) == multiset(old(a[..]))
    ensures WindowPlaced(cmp, a[..], 0, a.Length, lrange, rrange)
  {
    hide TotalPreorder, WindowPlaced;
    ghost var s := a[..];
    SortRange(a, 0, a.Length, cmp, lrange, rrange);
    assert a[..][0..a.Length] == a[..] && s[0..a.Length] == s;
  }

  // ---- What a full sort would put there ----

  /** How many elements of s are smaller than x. */
  function Below<T>(cmp: (T, T) -> int, s: seq<T>, x: T): nat {
    if s == [] then 0 else Below(cmp, s[..|s| - 1], x) + if cmp(s[|s| - 1], x) < 0 then 1 else 0
  }

  function Without<T>(s: seq<T>, k: nat): seq<T>
    requires k < |s|
  {
    s[..k] + s[k + 1..]
  }

  lemma {:induction false} BelowWithout<T>(cmp: (T, T) -> int, s: seq<T>, x: T, k: nat)
    requires k < |s|
    ensures Below(cmp, s, x) == Below(cmp, Without(s, k), x) + if cmp(s[k], x) < 0 then 1 else 0
  {
    var init := s[..|s| - 1];
    if k == |s| - 1 {
      assert Without(s, k) == init;
    } else {
      BelowWithout(cmp, init, x, k);
      var w := Without(s, k);
      assert w[..|w| - 1] == Without(init, k) && w[|w| - 1] == s[|s| - 1];
    }
  }

  /** The count depends only on which elements there are. */
  lemma {:induction false} BelowPermuted<T>(cmp: (T, T) -> int, s: seq<T>, t: seq<T>, x: T)
    requires multiset(s) == multiset(t)
    ensures Below(cmp, s, x) == Below(cmp, t, x)
    decreases |s|
  {
    if s == [] {
      assert |multiset(t)| == 0;
    } else {
      var e, init := s[|s| - 1], s[..|s| - 1];
      assert s == init + [e];
      assert e in multiset(t);
      var k :| 0 <= k < |t| && t[k] == e;
      assert t == t[..k] + [e] + t[k + 1..];
      assert multiset(Without(t, k)) == multiset(t) - multiset{e};
      BelowPermuted(cmp, init, Without(t, k), x);
      BelowWithout(cmp, t, x, k);
    }
  }

  lemma {:induction false} BelowAtMost<T>(cmp: (T, T) -> int, s: seq<T>, x: T, i: nat)
    requires i <= |s| && forall k :: i <= k < |s| ==> cmp(s[k], x) >= 0
    ensures Below(cmp, s, x) <= i
  {
    if |s| > i {
      BelowAtMost(cmp, s[..|s| - 1], x, i);
    } else if i > 0 {
      BelowAtMost(cmp, s[..i - 1], x, i - 1);
    }
  }

  lemma {:induction false} BelowAtLeast<T>(cmp: (T, T) -> int, s: seq<T>, x: T, i: nat)
    requires i <= |s| && forall k :: 0 <= k < i ==> cmp(s[k], x) < 0
    ensures Below(cmp, s, x) >= i
  {
    if |s| > i {
      BelowAtLeast(cmp, s[..|s| - 1], x, i);
    } else if i > 0 {
      BelowAtLeast(cmp, s[..i - 1], x, i - 1);
    }
  }

  /** If position i is placed in both arrangements, the one cannot hold a smaller element there than the other. */
  lemma PlacedNotBelow<T(!new)>(cmp: (T, T) -> int, s: seq<T>, t: seq<T>, i: nat)
    requires TotalPreorder(cmp) && multiset(s) == multiset(t) && i < |s| == |t|
    requires Placed(cmp, s, 0, |s|, i) && Placed(cmp, t, 0, |t|, i)
    ensures cmp(t[i], s[i]) >= 0
  {
    var x := s[i];
    BelowPermuted(cmp, s, t, x);
    forall k | i <= k < |s| ensures cmp(s[k], x) >= 0 {
    }
    BelowAtMost(cmp, s, x, i);
    if cmp(t[i], x) < 0 {
      forall k | 0 <= k < i + 1 ensures cmp(t[k], x) < 0 {
        if k < i { Transitive(cmp, t[k], t[i], x); }
      }
      BelowAtLeast(cmp, t, x, i + 1);
    }
  }

  /** In the window, the result agrees up to cmp with every full sort of the same elements. */
  lemma WindowMatchesFullSort<T(!new)>(cmp: (T, T) -> int, s: seq<T>, sorted: seq<T>, lrange: int, rrange: int, i: nat)
    requires TotalPreorder(cmp) && multiset(s) == multiset(sorted)
    requires WindowPlaced(cmp, s, 0, |s|, lrange, rrange) && Sorted(cmp, sorted, 0, |sorted|)
    requires i < |s| && lrange <= i <= rrange
    ensures i < |sorted| && cmp(s[i], sorted[i]) == 0
  {
    assert |s| == |multiset(s)| == |multiset(sorted)| == |sorted|;
    assert Placed(cmp, s, 0, |s|, i);
    SortedIsPlaced(cmp, sorted, 0, |sorted|, i, i);
    PlacedNotBelow(cmp, s, sorted, i);
    PlacedNotBelow(cmp, sorted, s, i);
  }
}
