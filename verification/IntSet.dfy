/** intset (redis-stable/src/intset.c): a sorted set of integers in a byte array whose element width grows in place. */
module IntSet {
  import opened Bytes
  import opened LittleEndian
  import opened IntSetSpec

  /** So many elements that indexes stay within an int and the number of bytes within a uint32_t. */
  const MAX_LENGTH := 0x1fff_ffff

  lemma OffGrows(i: nat, j: nat, u: nat, w: nat)
    requires IsWidth(u) && IsWidth(w) && i <= j && u <= w
    ensures Off(i, u) <= Off(j, w)
  {
  }

  lemma OffAdds(i: nat, j: nat, w: nat)
    requires IsWidth(w)
    ensures Off(i, w) + Off(j, w) == Off(i + j, w)
  {
  }

  /** The first j elements in the old width. */
  ghost predicate Narrow(b: seq<byte>, xs: seq<int>, j: nat, cur: nat) {
    IsWidth(cur) && j <= |xs| && Off(j, cur) <= |b| && Elements(b, j, cur) == xs[..j]
  }

  /** Element i in its new place. */
  ghost predicate Placed(b: seq<byte>, xs: seq<int>, i: int, w: nat, shift: nat) {
    IsWidth(w) && 0 <= i < |xs| && Off(i + shift + 1, w) <= |b| && Get(b, i + shift, w) == xs[i]
  }

  /** The first j elements are still narrow; the others are already in their new places. */
  ghost predicate Upgrading(b: seq<byte>, xs: seq<int>, j: nat, cur: nat, w: nat, shift: nat) {
    && IsWidth(cur) && IsWidth(w) && cur < w && shift <= 1
    && Off(|xs| + 1, w) <= |b|
    && Narrow(b, xs, j, cur)
    && PlacedFrom(b, xs, j, w, shift)
  }

  ghost predicate PlacedFrom(b: seq<byte>, xs: seq<int>, j: nat, w: nat, shift: nat) {
    forall i :: j <= i < |xs| ==> Placed(b, xs, i, w, shift)
  }

  lemma NarrowStays(b: seq<byte>, xs: seq<int>, j: nat, cur: nat, p: nat, w: nat, v: int)
    requires Narrow(b, xs, j + 1, cur) && IsWidth(w) && cur < w && j <= p && Off(p + 1, w) <= |b|
    ensures Get(b, j, cur) == xs[j] && Narrow(Put(b, p, w, v), xs, j, cur)
  {
    OffGrows(j, j + 1, cur, cur);
    var c := Put(b, p, w, v);
    hide Off, Get, Put;
    assert Elements(b, j + 1, cur)[j] == xs[..j + 1][j];
    forall i | 0 <= i < j ensures Get(c, i, cur) == xs[i] {
      OffGrows(i + 1, p, cur, w);
      OffGrows(i + 1, j + 1, cur, cur);
      GetPutElsewhere(b, p, w, v, i, cur);
      assert Elements(b, j + 1, cur)[i] == xs[..j + 1][i];
    }
  }

  lemma PlacedStays(b: seq<byte>, xs: seq<int>, i: nat, p: nat, w: nat, shift: nat, v: int)
    requires Placed(b, xs, i, w, shift) && Off(p + 1, w) <= |b| && p != i + shift
    ensures Placed(Put(b, p, w, v), xs, i, w, shift)
  {
    hide Off, Get, Put;
    if p < i + shift { OffGrows(p + 1, i + shift, w, w); } else { OffGrows(i + shift + 1, p, w, w); }
    GetPutElsewhere(b, p, w, v, i + shift, w);
  }

  lemma PlacedMore(b: seq<byte>, xs: seq<int>, j: nat, w: nat, shift: nat)
    requires IsWidth(w) && j < |xs| && PlacedFrom(b, xs, j + 1, w, shift)
    requires Off(j + shift + 1, w) <= |b| && Fits(xs[j], w)
    ensures PlacedFrom(Put(b, j + shift, w, xs[j]), xs, j, w, shift)
  {
    var c := Put(b, j + shift, w, xs[j]);
    hide Off, Get, Put, Fits, Placed;
    forall i | j <= i < |xs| ensures Placed(c, xs, i, w, shift) {
      if i > j { PlacedStays(b, xs, i, j + shift, w, shift, xs[j]); } else { PlacedHere(b, xs, j, w, shift); }
    }
  }

  lemma PlacedHere(b: seq<byte>, xs: seq<int>, j: nat, w: nat, shift: nat)
    requires IsWidth(w) && j < |xs| && Off(j + shift + 1, w) <= |b| && Fits(xs[j], w)
    ensures Placed(Put(b, j + shift, w, xs[j]), xs, j, w, shift)
  {
    GetPut(b, j + shift, w, xs[j]);
    hide Off, Get, Put, Fits;
  }

  /** Writing an element back to front overwrites none that has not been read. */
  lemma UpgradeStep(b: seq<byte>, xs: seq<int>, j: nat, cur: nat, w: nat, shift: nat)
    requires Upgrading(b, xs, j + 1, cur, w, shift) && Fits(xs[j], w)
    ensures Off(j + 1, cur) <= |b| && Off(j + shift + 1, w) <= |b| && Get(b, j, cur) == xs[j]
    ensures Upgrading(Put(b, j + shift, w, xs[j]), xs, j, cur, w, shift)
  {
    hide Off, Get, Put, Fits, Narrow, PlacedFrom;
    var p := j + shift;
    NarrowLength(b, xs, j + 1, cur);
    OffGrows(p + 1, |xs| + 1, w, w);
    NarrowStays(b, xs, j, cur, p, w, xs[j]);
    PlacedMore(b, xs, j, w, shift);
  }

  lemma NarrowLength(b: seq<byte>, xs: seq<int>, j: nat, cur: nat)
    requires Narrow(b, xs, j, cur)
    ensures j <= |xs| && Off(j, cur) <= |b|
  {
    hide Off, Get;
  }

  lemma UpgradeStarts(b: seq<byte>, c: seq<byte>, n: nat, cur: nat, w: nat, shift: nat)
    requires IsWidth(cur) && IsWidth(w) && cur < w && shift <= 1 && Off(n, cur) <= |b| && |c| == Off(n + 1, w)
    requires Off(n, cur) <= |c| && c[..Off(n, cur)] == b[..Off(n, cur)]
    ensures Upgrading(c, Elements(b, n, cur), n, cur, w, shift)
  {
    hide Off, Get;
    ElementsPrefix(c, b, n, cur);
    assert Elements(b, n, cur)[..n] == Elements(b, n, cur);
  }

  lemma AllPlaced(c: seq<byte>, xs: seq<int>, w: nat, shift: nat, v: int)
    requires IsWidth(w) && shift <= 1 && Off(|xs| + 1, w) <= |c| && PlacedFrom(c, xs, 0, w, shift)
    requires Off(1, w) <= |c| && Get(c, if shift == 1 then 0 else |xs|, w) == v
    ensures Elements(c, |xs| + 1, w) == if shift == 1 then [v] + xs else xs + [v]
  {
    hide Off, Get;
    var ys, zs := Elements(c, |xs| + 1, w), if shift == 1 then [v] + xs else xs + [v];
    forall i | 0 <= i < |ys| ensures ys[i] == zs[i] {
      if i != if shift == 1 then 0 else |xs| { assert Placed(c, xs, i - shift, w, shift); }
    }
  }

  lemma AllStay(b: seq<byte>, xs: seq<int>, p: nat, w: nat, shift: nat, v: int)
    requires IsWidth(w) && PlacedFrom(b, xs, 0, w, shift) && Off(p + 1, w) <= |b|
    requires p < shift || p >= |xs| + shift
    ensures PlacedFrom(Put(b, p, w, v), xs, 0, w, shift)
  {
    hide Off, Put, Placed;
    forall i | 0 <= i < |xs| ensures Placed(Put(b, p, w, v), xs, i, w, shift) {
      PlacedStays(b, xs, i, p, w, shift, v);
    }
  }

  /** The new value goes to the free place at the start or at the end. */
  lemma UpgradeEnds(b: seq<byte>, xs: seq<int>, cur: nat, w: nat, shift: nat, v: int)
    requires Upgrading(b, xs, 0, cur, w, shift) && Fits(v, w)
    ensures Off(1, w) <= |b|
    ensures var c := Put(b, if shift == 1 then 0 else |xs|, w, v);
            Elements(c, |xs| + 1, w) == if shift == 1 then [v] + xs else xs + [v]
  {
    hide Off, Get, Put, Fits, Narrow, PlacedFrom;
    var p := if shift == 1 then 0 else |xs|;
    OffGrows(p + 1, |xs| + 1, w, w);
    OffGrows(1, |xs| + 1, w, w);
    GetPut(b, p, w, v);
    AllStay(b, xs, p, w, shift, v);
    AllPlaced(Put(b, p, w, v), xs, w, shift, v);
  }

  /** A value that needs a wider encoding is outside the range of all elements. */
  lemma WiderIsOutside(xs: seq<int>, cur: nat, v: int)
    requires IsWidth(cur) && IsInt64(v) && ValueWidth(v) > cur && Sorted(xs)
    requires forall i :: 0 <= i < |xs| ==> Fits(xs[i], cur)
    ensures v !in xs
    ensures var ys := if v < 0 then [v] + xs else xs + [v]; Sorted(ys) && ToSet(ys) == ToSet(xs) + {v}
  {
    assert !Fits(v, cur);
    assert forall i :: 0 <= i < |xs| ==> if v < 0 then v < xs[i] else xs[i] < v;
    var ys := if v < 0 then [v] + xs else xs + [v];
    assert forall x :: x in ys <==> x in xs || x == v;
    hide Fits, Limit, ValueWidth;
  }

  /** The bytes of intsetAdd when the value belongs at position pos: the tail makes room, and the value is written. */
  function InsertedBytes(b: seq<byte>, n: nat, pos: nat, w: nat, v: int): seq<byte>
    requires IsWidth(w) && pos <= n && Off(n + 1, w) <= |b| && Off(n, w) <= |b| && Off(pos + 1, w) <= |b|
  {
    Put(if pos < n then Moved(b, pos, pos + 1, n, w) else b, pos, w, v)
  }

  lemma ElementsShorter(b: seq<byte>, n: nat, w: nat)
    requires IsWidth(w) && Off(n + 1, w) <= |b| && Off(n, w) <= |b|
    ensures Elements(b, n + 1, w)[..n] == Elements(b, n, w)
  {
    hide Off, Get;
  }

  lemma InsertedElements(b: seq<byte>, n: nat, pos: nat, w: nat, v: int)
    requires IsWidth(w) && pos <= n && Off(n + 1, w) <= |b| && Off(n, w) <= |b| && Off(pos + 1, w) <= |b| && Fits(v, w)
    ensures Elements(InsertedBytes(b, n, pos, w, v), n + 1, w) == Inserted(Elements(b, n, w), pos, v)
  {
    hide Off, Get, Put, Moved, Fits, Elements;
    var xs := Elements(b, n, w);
    if pos < n {
      ElementsMoved(b, pos, pos + 1, n, w);
      var c := Moved(b, pos, pos + 1, n, w);
      ElementsPut(c, n + 1, pos, w, v);
      assert (xs[..pos + 1] + xs[pos..])[pos := v] == Inserted(xs, pos, v);
    } else {
      ElementsPut(b, n + 1, n, w, v);
      ElementsShorter(b, n, w);
      assert Elements(b, n + 1, w)[n := v] == Inserted(xs, n, v);
    }
  }

  method Memmove(a: array<byte>, src: nat, dst: nat, n: nat)
    requires src + n <= a.Length && dst + n <= a.Length
    modifies a
    ensures a[..] == old(a[..][..dst]) + old(a[..][src..src + n]) + old(a[..][dst + n..])
  {
    ghost var b := a[..];
    forall k | 0 <= k < n {
      a[dst + k] := a[src + k];
    }
    CopiedBytes(b, a[..], src, dst, n);
  }

  lemma CopiedBytes(b: seq<byte>, c: seq<byte>, src: nat, dst: nat, n: nat)
    requires src + n <= |b| && dst + n <= |b| && |c| == |b|
    requires c[..dst] == b[..dst] && c[dst + n..] == b[dst + n..]
    requires forall j :: dst <= j < dst + n ==> c[j] == b[src + j - dst]
    ensures c == b[..dst] + b[src..src + n] + b[dst + n..]
  {
    var to, from := c[dst..dst + n], b[src..src + n];
    forall k | 0 <= k < n ensures to[k] == from[k] {
      assert to[k] == c[dst + k];
    }
    assert to == from;
    assert c == c[..dst] + c[dst..dst + n] + c[dst + n..];
  }

  /** Moving elements is moving bytes. */
  lemma MovedIs(b: seq<byte>, from: nat, dest: nat, n: nat, w: nat)
    requires IsWidth(w) && from <= n && Off(n, w) <= |b| && Off(dest + n - from, w) <= |b|
    ensures var (f, d, k) := (Off(from, w), Off(dest, w), Off(n - from, w));
            f + k <= |b| && d + k <= |b| && Moved(b, from, dest, n, w) == b[..d] + b[f..f + k] + b[d + k..]
  {
    hide Off;
    OffAdds(from, n - from, w);
    OffAdds(dest, n - from, w);
  }

  class IntSet {
    var encoding: nat
    var length: nat
    var contents: array<byte>

    ghost predicate Shape()
      reads this
    {
      IsWidth(encoding) && contents.Length == Off(length, encoding)
    }

    /** The elements in order. */
    ghost function Values(): seq<int>
      requires Shape()
      reads this, contents
    {
      Elements(contents[..], length, encoding)
    }

    ghost predicate Valid()
      reads this, contents
    {
      Shape() && Sorted(Values())
    }

    ghost function Members(): set<int>
      requires Shape()
      reads this, contents
    {
      ToSet(Values())
    }

    /** intsetNew. */
    constructor ()
      ensures Valid() && Members() == {} && encoding == 2 && fresh(contents)
    {
      encoding, length, contents := 2, 0, new byte[0];
    }

    lemma ValuesFit()
      requires Shape()
      ensures forall i :: 0 <= i < length ==>
                Fits(Values()[i], encoding) && Values()[i] == Get(contents[..], i, encoding)
    {
      hide Get, Fits;
      forall i | 0 <= i < length ensures Fits(Values()[i], encoding) && Values()[i] == Get(contents[..], i, encoding) {
        GetFits(contents[..], i, encoding);
      }
    }

    /** _intsetGet. */
    method GetAt(pos: nat, enc: nat) returns (v: int)
      requires IsWidth(enc) && Off(pos + 1, enc) <= contents.Length
      ensures v == Get(contents[..], pos, enc)
    {
      hide FromLe, Signed;
      var bytes := contents[Off(pos, enc)..Off(pos + 1, enc)];
      assert bytes == Slot(contents[..], pos, enc);
      v := Signed(FromLe(bytes), Limit(enc));
    }

    /** _intsetSet. */
    method SetAt(pos: nat, v: int)
      requires IsWidth(encoding) && Off(pos + 1, encoding) <= contents.Length
      modifies contents
      ensures contents[..] == Put(old(contents[..]), pos, encoding, v)
    {
      hide LeBytes;
      var bytes, start := LeBytes(v, encoding), Off(pos, encoding);
      forall k | 0 <= k < encoding {
        contents[start + k] := bytes[k];
      }
      assert contents[start..start + encoding] == bytes;
      assert contents[..] == contents[..start] + contents[start..start + encoding] + contents[start + encoding..];
    }

    /** intsetResize: the bytes that fit are kept. */
    method Resize(len: nat)
      requires IsWidth(encoding)
      modifies this`contents
      ensures fresh(contents) && contents.Length == Off(len, encoding)
      ensures var n := if old(contents.Length) < contents.Length then old(contents.Length) else contents.Length;
              contents[..n] == old(contents[..n])
    {
      var size := Off(len, encoding);
      var c := new byte[size];
      var n := if contents.Length < size then contents.Length else size;
      forall k | 0 <= k < n {
        c[k] := contents[k];
      }
      contents := c;
    }

    lemma WithinBytes(pos: nat)
      requires Shape() && pos < length
      ensures Off(pos + 1, encoding) <= contents.Length && Get(contents[..], pos, encoding) == Values()[pos]
    {
      OffGrows(pos + 1, length, encoding, encoding);
      hide Get;
    }

    /** intsetSearch: where the value is, or where it belongs. */
    method Search(value: int) returns (found: bool, pos: nat)
      requires Valid() && length <= MAX_LENGTH
      ensures Place(Values(), value, pos)
      ensures found <==> value in Values()
      ensures found ==> pos < length && Values()[pos] == value
    {
      hide Get, Off;
      ghost var xs := Values();
      if length == 0 { return false, 0; }
      WithinBytes(length - 1);
      WithinBytes(0);
      var last := GetAt(length - 1, encoding);
      if value > last { return false, length; }
      var first := GetAt(0, encoding);
      if value < first { return false, 0; }
      var min: int, max: int, mid: int, cur: int := 0, length - 1, -1, -1;
      while max >= min
        invariant 0 <= min <= max + 1 <= length
        invariant forall i :: 0 <= i < min ==> xs[i] < value
        invariant forall i :: max < i < length ==> value < xs[i]
        invariant if mid == -1 then min == 0 && max == length - 1 else cur != value
        decreases max - min
      {
        mid := (min + max) / 2;
        WithinBytes(mid);
        cur := GetAt(mid, encoding);
        if value > cur {
          min := mid + 1;
        } else if value < cur {
          max := mid - 1;
        } else {
          break;
        }
      }
      if value == cur { return true, mid; }
      return false, min;
    }

    /** intsetMoveTail. */
    method MoveTail(from: nat, dest: nat)
      requires IsWidth(encoding) && from <= length
      requires Off(length, encoding) <= contents.Length && Off(dest + length - from, encoding) <= contents.Length
      modifies contents
      ensures contents[..] == Moved(old(contents[..]), from, dest, length, encoding)
    {
      hide *;
      MovedIs(contents[..], from, dest, length, encoding);
      var src, dst, n := Off(from, encoding), Off(dest, encoding), Off(length - from, encoding);
      Memmove(contents, src, dst, n);
    }

    /** Lines 164-171: widens every element, back to front. */
    method Upgrade(newenc: nat, prepend: nat)
      requires Shape() && IsWidth(newenc) && encoding < newenc && prepend <= 1
      modifies this`encoding, this`contents
      ensures encoding == newenc && fresh(contents) && contents.Length == Off(length + 1, newenc)
      ensures Upgrading(contents[..], old(Values()), 0, old(encoding), newenc, prepend)
    {
      ValuesFit();
      var curenc, n: nat := encoding, length;
      ghost var xs, b := Values(), contents[..];
      OffGrows(n, n + 1, curenc, newenc);
      hide Off, Get, Put, Fits, Upgrading;
      encoding := newenc;
      Resize(n + 1);
      UpgradeStarts(b, contents[..], n, curenc, newenc, prepend);
      while n > 0
        invariant encoding == newenc && fresh(contents) && n <= length && contents.Length == Off(length + 1, newenc)
        invariant Upgrading(contents[..], xs, n, curenc, newenc, prepend)
      {
        n := n - 1;
        FitsWider(xs[n], curenc, newenc);
        UpgradeOne(n, curenc, prepend, xs);
      }
    }

    static lemma UpgradingWidths(b: seq<byte>, xs: seq<int>, j: nat, cur: nat, w: nat, shift: nat)
      requires Upgrading(b, xs, j, cur, w, shift)
      ensures IsWidth(cur) && IsWidth(w)
    {
    }

    /** Line 171. */
    method UpgradeOne(n: nat, curenc: nat, prepend: nat, ghost xs: seq<int>)
      requires Upgrading(contents[..], xs, n + 1, curenc, encoding, prepend) && n < |xs| && Fits(xs[n], encoding)
      modifies contents
      ensures Upgrading(contents[..], xs, n, curenc, encoding, prepend)
    {
      hide *;
      UpgradingWidths(contents[..], xs, n + 1, curenc, encoding, prepend);
      UpgradeStep(contents[..], xs, n, curenc, encoding, prepend);
      var v := GetAt(n, curenc);
      SetAt(n + prepend, v);
    }

    /** intsetUpgradeAndAdd. */
    method UpgradeAndAdd(value: int)
      requires Valid() && IsInt64(value) && ValueWidth(value) > encoding && length < MAX_LENGTH
      modifies this
      ensures Shape() && length == old(length) + 1 && encoding == ValueWidth(value) && fresh(contents)
      ensures Values() == if value < 0 then [value] + old(Values()) else old(Values()) + [value]
    {
      hide Off, Get, Put, Fits, ValueWidth, Sorted, Upgrading;
      ghost var xs := Values();
      var prepend := if value < 0 then 1 else 0;
      Upgrade(ValueWidth(value), prepend);
      UpgradeEnds(contents[..], xs, old(encoding), encoding, prepend, value);
      OffGrows(length + 1, length + 1, encoding, encoding);
      SetAt(if prepend == 1 then 0 else length, value);
      length := length + 1;
    }

    static lemma FitsWider(v: int, u: nat, w: nat)
      requires IsWidth(u) && IsWidth(w) && u <= w && Fits(v, u)
      ensures Fits(v, w)
    {
    }

    /** intsetAdd. */
    method Add(value: int) returns (success: bool)
      requires Valid() && IsInt64(value) && length < MAX_LENGTH
      modifies this, contents
      ensures Valid() && Members() == old(Members()) + {value}
      ensures success <==> value !in old(Members())
      ensures length == old(length) + if success then 1 else 0
      ensures encoding == if ValueWidth(value) > old(encoding) then ValueWidth(value) else old(encoding)
      ensures contents == old(contents) || fresh(contents)
    {
      if ValueWidth(value) > encoding {
        success := AddWider(value);
      } else {
        success := AddFitting(value);
      }
    }

    method AddWider(value: int) returns (success: bool)
      requires Valid() && IsInt64(value) && ValueWidth(value) > encoding && length < MAX_LENGTH
      modifies this
      ensures success && Valid() && fresh(contents) && length == old(length) + 1 && encoding == ValueWidth(value)
      ensures value !in old(Members()) && Members() == old(Members()) + {value}
    {
      hide Off, Get, Fits, ValueWidth, Sorted, Elements;
      ValuesFit();
      WiderIsOutside(Values(), encoding, value);
      UpgradeAndAdd(value);
      success := true;
    }

    method AddFitting(value: int) returns (success: bool)
      requires Valid() && IsInt64(value) && ValueWidth(value) <= encoding && length < MAX_LENGTH
      modifies this, contents
      ensures Valid() && Members() == old(Members()) + {value} && encoding == old(encoding)
      ensures success <==> value !in old(Members())
      ensures length == old(length) + if success then 1 else 0
      ensures contents == old(contents) || fresh(contents)
    {
      FitsWider(value, ValueWidth(value), encoding);
      hide Off, Get, Fits, ValueWidth, Sorted, Elements;
      var found, pos := Search(value);
      if found { return false; }
      InsertedSorted(Values(), pos, value);
      InsertAt(pos, value);
      success := true;
    }

    /** Lines 224-229. */
    method InsertAt(pos: nat, value: int)
      requires Shape() && pos <= length && Fits(value, encoding)
      modifies this
      ensures Shape() && fresh(contents) && encoding == old(encoding) && length == old(length) + 1
      ensures Values() == Inserted(old(Values()), pos, value)
    {
      OffGrows(length, length + 1, encoding, encoding);
      OffGrows(pos + 1, length + 1, encoding, encoding);
      hide *;
      ResizeKeeps(length, length + 1);
      WriteElement(pos, value);
      length := length + 1;
    }

    method WriteElement(pos: nat, value: int)
      requires IsWidth(encoding) && pos <= length && Off(length + 1, encoding) <= contents.Length
      requires Off(length, encoding) <= contents.Length && Off(pos + 1, encoding) <= contents.Length
      requires Fits(value, encoding)
      modifies contents
      ensures Elements(contents[..], length + 1, encoding)
           == Inserted(old(Elements(contents[..], length, encoding)), pos, value)
    {
      hide *;
      InsertedElements(contents[..], length, pos, encoding, value);
      WriteInserted(pos, value);
    }

    /** Lines 225-228. */
    method WriteInserted(pos: nat, value: int)
      requires IsWidth(encoding) && pos <= length && Off(length + 1, encoding) <= contents.Length
      requires Off(length, encoding) <= contents.Length && Off(pos + 1, encoding) <= contents.Length
      modifies contents
      ensures contents[..] == InsertedBytes(old(contents[..]), length, pos, encoding, value)
    {
      hide Off, Put, Moved;
      if pos < length {
        MoveTail(pos, pos + 1);
      }
      SetAt(pos, value);
    }

    /** Resizing keeps the elements that are in both sizes. */
    method ResizeKeeps(n: nat, len: nat)
      requires IsWidth(encoding) && n <= len
      requires Off(n, encoding) <= contents.Length && Off(n, encoding) <= Off(len, encoding)
      modifies this`contents
      ensures fresh(contents) && contents.Length == Off(len, encoding)
      ensures Elements(contents[..], n, encoding) == Elements(old(contents[..]), n, encoding)
    {
      hide Off, Get, Elements;
      ghost var b := contents[..];
      Resize(len);
      var m := Off(n, encoding);
      ghost var k := if |b| < contents.Length then |b| else contents.Length;
      assert contents[..m] == contents[..k][..m] && b[..m] == b[..k][..m];
      ElementsPrefix(contents[..], b, n, encoding);
    }

    /** intsetRemove. */
    method Remove(value: int) returns (success: bool)
      requires Valid() && IsInt64(value) && length <= MAX_LENGTH
      modifies this, contents
      ensures Valid() && Members() == old(Members()) - {value} && encoding == old(encoding)
      ensures success <==> value in old(Members())
      ensures length == old(length) - if success then 1 else 0
      ensures contents == old(contents) || fresh(contents)
    {
      success := false;
      ValuesFit();
      if ValueWidth(value) > encoding {
        WiderIsOutside(Values(), encoding, value);
        return;
      }
      hide Off, Get, Fits, ValueWidth, Sorted, Elements;
      var found, pos := Search(value);
      if found {
        DeletedSorted(Values(), pos);
        DeleteAt(pos);
        success := true;
      }
    }

    /** Lines 245-248. */
    method DeleteAt(pos: nat)
      requires Shape() && pos < length
      modifies this, contents
      ensures Shape() && fresh(contents) && encoding == old(encoding) && length == old(length) - 1
      ensures Values() == Deleted(old(Values()), pos)
    {
      ghost var xs := Elements(contents[..], length, encoding);
      Remaining(pos);
      hide *;
      OverwriteAt(pos);
      assert Elements(contents[..], length - 1, encoding) == Deleted(xs, pos);
      Shrink();
    }

    lemma Remaining(pos: nat)
      requires IsWidth(encoding) && pos < length && Off(length, encoding) <= contents.Length
      ensures Off(length - 1, encoding) <= contents.Length
      ensures Elements(DeletedBytes(contents[..], length, pos, encoding), length - 1, encoding)
           == Deleted(Elements(contents[..], length, encoding), pos)
    {
      OffGrows(length - 1, length, encoding, encoding);
      hide Off, Elements, DeletedBytes, Deleted;
      DeletedElements(contents[..], length, pos, encoding);
    }

    /** Lines 247-248. */
    method Shrink()
      requires IsWidth(encoding) && length > 0 && Off(length - 1, encoding) <= contents.Length
      modifies this`contents, this`length
      ensures fresh(contents) && length == old(length) - 1 && contents.Length == Off(length, encoding)
      ensures Elements(contents[..], length, encoding) == old(Elements(contents[..], length - 1, encoding))
    {
      hide Off, Elements;
      ResizeKeeps(length - 1, length - 1);
      length := length - 1;
    }

    /** The bytes after the tail has moved over the element. */
    static function DeletedBytes(b: seq<byte>, n: nat, pos: nat, w: nat): seq<byte>
      requires IsWidth(w) && pos < n && Off(n, w) <= |b| && Off(n - 1, w) <= |b|
    {
      if pos < n - 1 then Moved(b, pos + 1, pos, n, w) else b
    }

    /** Line 246. */
    method OverwriteAt(pos: nat)
      requires IsWidth(encoding) && pos < length && Off(length, encoding) <= contents.Length
      requires Off(length - 1, encoding) <= contents.Length
      modifies contents
      ensures contents[..] == DeletedBytes(old(contents[..]), length, pos, encoding)
    {
      hide Off, Moved;
      if pos < length - 1 {
        MoveTail(pos + 1, pos);
      }
    }

    static lemma DeletedElements(b: seq<byte>, n: nat, pos: nat, w: nat)
      requires IsWidth(w) && pos < n && Off(n, w) <= |b| && Off(n - 1, w) <= |b|
      ensures |DeletedBytes(b, n, pos, w)| == |b|
      ensures Elements(DeletedBytes(b, n, pos, w), n - 1, w) == Deleted(Elements(b, n, w), pos)
    {
      hide Off, Get, Moved, Elements;
      if pos < n - 1 {
        ElementsMoved(b, pos + 1, pos, n, w);
      } else {
        ElementsShorter(b, n - 1, w);
      }
    }

    /** intsetFind. */
    method Find(value: int) returns (found: bool)
      requires Valid() && IsInt64(value) && length <= MAX_LENGTH
      ensures found <==> value in Members()
    {
      ValuesFit();
      if ValueWidth(value) > encoding {
        WiderIsOutside(Values(), encoding, value);
        return false;
      }
      hide Off, Get, Fits, ValueWidth, Sorted, Elements;
      var pos;
      found, pos := Search(value);
    }

    /** intsetGet: the elements in increasing order. */
    method GetElement(pos: nat) returns (ok: bool, value: int)
      requires Valid()
      ensures ok <==> pos < length
      ensures ok ==> value == Values()[pos]
    {
      if pos < length {
        WithinBytes(pos);
        value := GetAt(pos, encoding);
        return true, value;
      }
      return false, 0;
    }
  }
}
