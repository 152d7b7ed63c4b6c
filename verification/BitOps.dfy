/** popcount and the combination loops of BITOP (redis-stable/src/bitops.c:61-94, 218-336), on bytes as bit vectors. */
module BitOps {

  // ---- Counting bits ----

  /** The number of one bits. */
  function Ones(n: nat): nat {
    if n == 0 then 0 else n % 2 + Ones(n / 2)
  }

  function OnesOf(s: seq<bv8>): nat {
    if s == [] then 0 else OnesOf(s[..|s| - 1]) + Ones(s[|s| - 1] as int)
  }

  // bitsinbyte, in rows of 16.
  const ROW0: seq<nat> := [0, 1, 1, 2, 1, 2, 2, 3, 1, 2, 2, 3, 2, 3, 3, 4]
  const ROW1: seq<nat> := [1, 2, 2, 3, 2, 3, 3, 4, 2, 3, 3, 4, 3, 4, 4, 5]
  const ROW2: seq<nat> := [1, 2, 2, 3, 2, 3, 3, 4, 2, 3, 3, 4, 3, 4, 4, 5]
  const ROW3: seq<nat> := [2, 3, 3, 4, 3, 4, 4, 5, 3, 4, 4, 5, 4, 5, 5, 6]
  const ROW4: seq<nat> := [1, 2, 2, 3, 2, 3, 3, 4, 2, 3, 3, 4, 3, 4, 4, 5]
  const ROW5: seq<nat> := [2, 3, 3, 4, 3, 4, 4, 5, 3, 4, 4, 5, 4, 5, 5, 6]
  const ROW6: seq<nat> := [2, 3, 3, 4, 3, 4, 4, 5, 3, 4, 4, 5, 4, 5, 5, 6]
  const ROW7: seq<nat> := [3, 4, 4, 5, 4, 5, 5, 6, 4, 5, 5, 6, 5, 6, 6, 7]
  const ROW8: seq<nat> := [1, 2, 2, 3, 2, 3, 3, 4, 2, 3, 3, 4, 3, 4, 4, 5]
  const ROW9: seq<nat> := [2, 3, 3, 4, 3, 4, 4, 5, 3, 4, 4, 5, 4, 5, 5, 6]
  const ROW10: seq<nat> := [2, 3, 3, 4, 3, 4, 4, 5, 3, 4, 4, 5, 4, 5, 5, 6]
  const ROW11: seq<nat> := [3, 4, 4, 5, 4, 5, 5, 6, 4, 5, 5, 6, 5, 6, 6, 7]
  const ROW12: seq<nat> := [2, 3, 3, 4, 3, 4, 4, 5, 3, 4, 4, 5, 4, 5, 5, 6]
  const ROW13: seq<nat> := [3, 4, 4, 5, 4, 5, 5, 6, 4, 5, 5, 6, 5, 6, 6, 7]
  const ROW14: seq<nat> := [3, 4, 4, 5, 4, 5, 5, 6, 4, 5, 5, 6, 5, 6, 6, 7]
  const ROW15: seq<nat> := [4, 5, 5, 6, 5, 6, 6, 7, 5, 6, 6, 7, 6, 7, 7, 8]

  const BITS_IN_BYTE: seq<seq<nat>> :=
    [ROW0, ROW1, ROW2, ROW3, ROW4, ROW5, ROW6, ROW7, ROW8, ROW9, ROW10, ROW11, ROW12, ROW13, ROW14, ROW15]

  lemma OnesHalf(n: nat)
    ensures Ones(2 * n) == Ones(n) && Ones(2 * n + 1) == Ones(n) + 1
  {
  }

  lemma OnesDigits(n: nat, d3: nat, d2: nat, d1: nat, d0: nat)
    requires d3 < 2 && d2 < 2 && d1 < 2 && d0 < 2
    ensures Ones(16 * n + (8 * d3 + 4 * d2 + 2 * d1 + d0)) == Ones(n) + d3 + d2 + d1 + d0
  {
    hide Ones;
    Digit(n, d3);
    Digit(2 * n + d3, d2);
    Digit(4 * n + 2 * d3 + d2, d1);
    Digit(8 * n + 4 * d3 + 2 * d2 + d1, d0);
  }

  lemma DigitsOf(k: nat) returns (d3: nat, d2: nat, d1: nat, d0: nat)
    requires k < 16
    ensures k == 8 * d3 + 4 * d2 + 2 * d1 + d0 && d3 < 2 && d2 < 2 && d1 < 2 && d0 < 2
  {
    d3, d2, d1, d0 := k / 8, k / 4 % 2, k / 2 % 2, k % 2;
  }

  lemma OnesSplit(n: nat, k: nat)
    requires k < 16
    ensures Ones(16 * n + k) == Ones(n) + Ones(k)
  {
    var d3, d2, d1, d0 := DigitsOf(k);
    ZeroOnes();
    hide Ones;
    OnesDigits(n, d3, d2, d1, d0);
    OnesDigits(0, d3, d2, d1, d0);
  }

  lemma ZeroOnes()
    ensures Ones(0) == 0
  {
  }

  lemma Digit(n: nat, d: nat)
    requires d < 2
    ensures Ones(2 * n + d) == Ones(n) + d
  {
    OnesHalf(n);
  }

  predicate IsRow(row: seq<nat>, n: nat) {
    |row| == 16 && forall k :: 0 <= k < 16 ==> row[k] == n + ROW0[k]
  }

  lemma RowsAre()
    ensures IsRow(ROW0, 0) && IsRow(ROW1, 1) && IsRow(ROW2, 1) && IsRow(ROW3, 2)
    ensures IsRow(ROW4, 1) && IsRow(ROW5, 2) && IsRow(ROW6, 2) && IsRow(ROW7, 3)
    ensures IsRow(ROW8, 1) && IsRow(ROW9, 2) && IsRow(ROW10, 2) && IsRow(ROW11, 3)
    ensures IsRow(ROW12, 2) && IsRow(ROW13, 3) && IsRow(ROW14, 3) && IsRow(ROW15, 4)
  {
  }

  lemma SmallOnes(k: nat)
    requires k < 16
    ensures ROW0[k] == Ones(k)
  {
    if k == 0 {} else if k == 1 {} else if k == 2 {} else if k == 3 {}
    else if k == 4 {} else if k == 5 {} else if k == 6 {} else if k == 7 {}
    else if k == 8 {} else if k == 9 {} else if k == 10 {} else if k == 11 {}
    else if k == 12 {} else if k == 13 {} else if k == 14 {} else {}
  }

  lemma RowOf(r: nat)
    requires r < 16
    ensures |BITS_IN_BYTE| == 16 && IsRow(BITS_IN_BYTE[r], ROW0[r])
  {
    RowsAre();
    hide IsRow;
  }

  function BitsInByte(n: nat): nat
    requires n < 256
  {
    RowOf(n / 16);
    BITS_IN_BYTE[n / 16][n % 16]
  }

  lemma TableParts(n: nat)
    requires n < 256
    ensures BitsInByte(n) == ROW0[n / 16] + ROW0[n % 16]
  {
    RowOf(n / 16);
  }

  /** The table holds the number of one bits of every byte. */
  lemma TableIsOnes(n: nat)
    requires n < 256
    ensures BitsInByte(n) == Ones(n)
  {
    hide *;
    var high, low := n / 16, n % 16;
    assert n == 16 * high + low && high < 16;
    TableParts(n);
    SmallOnes(high);
    SmallOnes(low);
    OnesSplit(high, low);
  }

  // ---- A word at a time ----

  function Word32(b0: bv8, b1: bv8, b2: bv8, b3: bv8): bv32 {
    (b0 as bv32) | ((b1 as bv32) << 8) | ((b2 as bv32) << 16) | ((b3 as bv32) << 24)
  }

  /** Line 77 for one word: the number of one bits of every two. */
  function Pairs(x: bv32): bv32 {
    x - ((x >> 1) & 0x55555555)
  }

  /** Line 78 for one word: the number of one bits of every four. */
  function Quads(x: bv32): bv32 {
    (x & 0x33333333) + ((x >> 2) & 0x33333333)
  }

  /** The inner part of line 85: the number of one bits of every byte. */
  function Octets(x: bv32): bv32 {
    (x + (x >> 4)) & 0x0F0F0F0F
  }

  /** The outer part of line 85: the sum of the bytes. */
  function Gather(x: bv32): bv32 {
    (x * 0x01010101) >> 24
  }

  /** Lines 77-78 and 85 for one word. */
  function Swar(x: bv32): bv32 {
    Gather(Octets(Quads(Pairs(x))))
  }

  function Pairs8(b: bv8): bv8 { (b & 0x55) + ((b >> 1) & 0x55) }

  function Quads8(b: bv8): bv8 { (b & 0x33) + ((b >> 2) & 0x33) }

  function Octet8(b: bv8): bv8 { (b & 0x0f) + (b >> 4) }

  /** The number of one bits of a byte, added up bit by bit. */
  function Sum8(b: bv8): bv8 {
    (b & 1) + ((b >> 1) & 1) + ((b >> 2) & 1) + ((b >> 3) & 1)
    + ((b >> 4) & 1) + ((b >> 5) & 1) + ((b >> 6) & 1) + ((b >> 7) & 1)
  }

  lemma PairsAdd(x: bv32)
    ensures Pairs(x) == (x & 0x55555555) + ((x >> 1) & 0x55555555)
  {
  }

  lemma PairsSpread(b0: bv8, b1: bv8, b2: bv8, b3: bv8)
    ensures var x := Word32(b0, b1, b2, b3);
            (x & 0x55555555) + ((x >> 1) & 0x55555555) == Word32(Pairs8(b0), Pairs8(b1), Pairs8(b2), Pairs8(b3))
  {
  }

  lemma PairsOfBytes(b0: bv8, b1: bv8, b2: bv8, b3: bv8)
    ensures Pairs(Word32(b0, b1, b2, b3)) == Word32(Pairs8(b0), Pairs8(b1), Pairs8(b2), Pairs8(b3))
  {
    PairsAdd(Word32(b0, b1, b2, b3));
    PairsSpread(b0, b1, b2, b3);
    hide *;
  }

  lemma QuadsSpread(b0: bv8, b1: bv8, b2: bv8, b3: bv8)
    ensures Quads(Word32(b0, b1, b2, b3)) == Word32(Quads8(b0), Quads8(b1), Quads8(b2), Quads8(b3))
  {
  }

  /** Both halves of a byte hold at most 4. */
  predicate Small(b: bv8) {
    b & 0x88 == 0 && b & 0x0f <= 4
  }

  lemma OctetsSpread(b0: bv8, b1: bv8, b2: bv8, b3: bv8)
    requires Small(b0) && Small(b1) && Small(b2) && Small(b3)
    ensures Octets(Word32(b0, b1, b2, b3)) == Word32(Octet8(b0), Octet8(b1), Octet8(b2), Octet8(b3))
  {
  }

  predicate AtMost8(c: bv8) { c <= 8 }

  lemma OneByte(b: bv8)
    ensures Small(Quads8(Pairs8(b))) && Octet8(Quads8(Pairs8(b))) == Sum8(b) && AtMost8(Sum8(b))
  {
  }

  /** The number of one bits of four bytes. */
  function Total(c0: bv8, c1: bv8, c2: bv8, c3: bv8): bv8 { c0 + c1 + c2 + c3 }

  function Widen(c: bv8): bv32 { c as bv32 }

  /** The value of a count of at most 255. */
  function Value(x: bv32): nat {
    ((x & 0xff) as bv8) as int
  }

  lemma BytesAdded(c0: bv8, c1: bv8, c2: bv8, c3: bv8)
    requires AtMost8(c0) && AtMost8(c1) && AtMost8(c2) && AtMost8(c3)
    ensures Gather(Word32(c0, c1, c2, c3)) == Widen(Total(c0, c1, c2, c3))
  {
  }

  lemma SwarIs(x: bv32)
    ensures Swar(x) == Gather(Octets(Quads(Pairs(x))))
  {
    hide Gather, Octets, Quads, Pairs;
  }

  lemma SwarAdds(b0: bv8, b1: bv8, b2: bv8, b3: bv8)
    ensures Swar(Word32(b0, b1, b2, b3)) == Widen(Total(Sum8(b0), Sum8(b1), Sum8(b2), Sum8(b3)))
  {
    hide *;
    SwarIs(Word32(b0, b1, b2, b3));
    PairsOfBytes(b0, b1, b2, b3);
    QuadsSpread(Pairs8(b0), Pairs8(b1), Pairs8(b2), Pairs8(b3));
    OneByte(b0);
    OneByte(b1);
    OneByte(b2);
    OneByte(b3);
    OctetsSpread(Quads8(Pairs8(b0)), Quads8(Pairs8(b1)), Quads8(Pairs8(b2)), Quads8(Pairs8(b3)));
    BytesAdded(Sum8(b0), Sum8(b1), Sum8(b2), Sum8(b3));
  }

  lemma LowBit(b: bv8)
    ensures (b & 1) as int == (b as int) % 2 && (b >> 1) as int == (b as int) / 2
  {
  }

  lemma SumNext(b: bv8)
    ensures Sum8(b) == (b & 1) + Sum8(b >> 1)
  {
  }

  lemma Increment(a: bv8)
    requires a <= 128
    ensures Plus(a, 1) as int == (a as int) + 1
  {
  }

  function Plus(a: bv8, b: bv8): bv8 { a + b }

  lemma PlusNext(a: bv8, b: bv8)
    requires a <= 64 && 0 < b <= 64
    ensures Plus(a, b) == Plus(Plus(a, b - 1), 1) && b == Plus(b - 1, 1)
    ensures Plus(a, b - 1) <= 128 && b - 1 <= 64
  {
  }

  lemma PlusZero(a: bv8)
    ensures Plus(a, 0) == a
  {
  }

  lemma PlusIs(a: bv8, b: bv8)
    ensures Plus(a, b) == a + b
  {
  }

  lemma {:induction false} AddSmall(a: bv8, b: bv8)
    requires a <= 64 && b <= 64
    ensures Plus(a, b) as int == (a as int) + (b as int)
    decreases b as int
  {
    hide Plus;
    if b == 0 {
      PlusZero(a);
    } else {
      PlusNext(a, b);
      Increment(b - 1);
      Increment(Plus(a, b - 1));
      AddSmall(a, b - 1);
    }
  }

  lemma SumStep(b: bv8)
    ensures Sum8(b) as int == ((b & 1) as int) + (Sum8(b >> 1) as int)
  {
    SumNext(b);
    OneByte(b >> 1);
    assert Sum8(b >> 1) <= 64 && b & 1 <= 64;
    hide Sum8;
    AddSmall(b & 1, Sum8(b >> 1));
  }

  lemma {:induction false} SumIsOnes(b: bv8)
    ensures Sum8(b) as int == Ones(b as int)
    decreases b as int
  {
    if b != 0 {
      LowBit(b);
      SumStep(b);
      SumIsOnes(b >> 1);
      Digit((b >> 1) as int, (b & 1) as int);
      hide Sum8, Ones;
    }
  }

  lemma ValueWiden(c: bv8)
    ensures Value(Widen(c)) == c as int
  {
  }

  lemma TotalIs(c0: bv8, c1: bv8, c2: bv8, c3: bv8)
    requires AtMost8(c0) && AtMost8(c1) && AtMost8(c2) && AtMost8(c3)
    ensures Total(c0, c1, c2, c3) as int == (c0 as int) + (c1 as int) + (c2 as int) + (c3 as int)
  {
    assert c0 + c1 <= 64 && c0 + c1 + c2 <= 64 && c0 <= 64 && c1 <= 64 && c2 <= 64 && c3 <= 64;
    AddSmall(c0, c1);
    AddSmall(c0 + c1, c2);
    AddSmall(c0 + c1 + c2, c3);
  }

  /** What the word operations count is the number of one bits of the four bytes. */
  lemma WordOnes(b0: bv8, b1: bv8, b2: bv8, b3: bv8)
    ensures Value(Swar(Word32(b0, b1, b2, b3)))
         == Ones(b0 as int) + Ones(b1 as int) + Ones(b2 as int) + Ones(b3 as int)
  {
    hide *;
    SwarAdds(b0, b1, b2, b3);
    OneByte(b0);
    OneByte(b1);
    OneByte(b2);
    OneByte(b3);
    ValueWiden(Total(Sum8(b0), Sum8(b1), Sum8(b2), Sum8(b3)));
    TotalIs(Sum8(b0), Sum8(b1), Sum8(b2), Sum8(b3));
    SumIsOnes(b0);
    SumIsOnes(b1);
    SumIsOnes(b2);
    SumIsOnes(b3);
  }

  lemma OnesSnoc(s: seq<bv8>, i: nat)
    requires i < |s|
    ensures OnesOf(s[..i + 1]) == OnesOf(s[..i]) + Ones(s[i] as int)
  {
    assert s[..i + 1][..i] == s[..i];
    hide Ones;
  }

  /** The word that is read at byte i. */
  function WordAt(s: seq<bv8>, i: nat): bv32
    requires i + 4 <= |s|
  {
    Word32(s[i], s[i + 1], s[i + 2], s[i + 3])
  }

  lemma FourMore(s: seq<bv8>, i: nat)
    requires i + 4 <= |s|
    ensures OnesOf(s[..i + 4]) == OnesOf(s[..i]) + Value(Swar(WordAt(s, i)))
  {
    assert WordAt(s, i) == Word32(s[i], s[i + 1], s[i + 2], s[i + 3]);
    hide *;
    OnesSnoc(s, i);
    OnesSnoc(s, i + 1);
    OnesSnoc(s, i + 2);
    OnesSnoc(s, i + 3);
    WordOnes(s[i], s[i + 1], s[i + 2], s[i + 3]);
  }

  /** popcount: four words at a time, then the table. */
  method Popcount(s: seq<bv8>) returns (bits: nat)
    ensures bits == OnesOf(s)
  {
    hide Ones, Swar, Value, WordAt, BitsInByte;
    bits := 0;
    var p, count := 0, |s|;
    while count >= 16
      invariant p >= 0 && count >= 0 && p + count == |s| && bits == OnesOf(s[..p])
    {
      FourMore(s, p);
      FourMore(s, p + 4);
      FourMore(s, p + 8);
      FourMore(s, p + 12);
      bits := bits + (Value(Swar(WordAt(s, p))) + Value(Swar(WordAt(s, p + 4)))
                      + Value(Swar(WordAt(s, p + 8))) + Value(Swar(WordAt(s, p + 12))));
      p, count := p + 16, count - 16;
    }
    while count > 0
      invariant p >= 0 && count >= 0 && p + count == |s| && bits == OnesOf(s[..p])
    {
      OnesSnoc(s, p);
      TableIsOnes(s[p] as int);
      bits := bits + BitsInByte(s[p] as int);
      p, count := p + 1, count - 1;
    }
    assert s[..p] == s;
  }

  // ---- BITOP ----

  datatype Op = And | Or | Xor | Not

  function Combine(op: Op, x: bv8, y: bv8): bv8 {
    match op
    case And => x & y
    case Or => x | y
    case Xor => x ^ y
    case Not => x
  }

  /** A string is as if it went on with zeros. */
  function At(s: seq<bv8>, j: nat): bv8 {
    if j < |s| then s[j] else 0
  }

  /** Byte j of the result for the first n strings. */
  function Fold(op: Op, srcs: seq<seq<bv8>>, j: nat, n: nat): bv8
    requires 0 < n <= |srcs|
    decreases n
  {
    if n == 1 then (if op == Not then !At(srcs[0], j) else At(srcs[0], j))
    else Combine(op, Fold(op, srcs, j, n - 1), At(srcs[n - 1], j))
  }

  /** A bit of AND is set exactly if it is set in every string. */
  lemma {:induction false} AndBit(srcs: seq<seq<bv8>>, j: nat, n: nat, bit: bv8)
    requires 0 < n <= |srcs|
    ensures Fold(And, srcs, j, n) & bit == bit <==> forall i :: 0 <= i < n ==> At(srcs[i], j) & bit == bit
    decreases n
  {
    hide At;
    if n > 1 {
      AndBit(srcs, j, n - 1, bit);
      BitOfAnd(Fold(And, srcs, j, n - 1), At(srcs[n - 1], j), bit);
    }
  }

  lemma BitOfAnd(x: bv8, y: bv8, bit: bv8)
    ensures (x & y) & bit == bit <==> x & bit == bit && y & bit == bit
  {
  }

  /** A bit of OR is set exactly if it is set in some string. */
  lemma {:induction false} OrBit(srcs: seq<seq<bv8>>, j: nat, n: nat, bit: bv8)
    requires 0 < n <= |srcs|
    ensures Fold(Or, srcs, j, n) & bit != 0 <==> exists i :: 0 <= i < n && At(srcs[i], j) & bit != 0
    decreases n
  {
    hide At;
    if n > 1 {
      OrBit(srcs, j, n - 1, bit);
      BitOfOr(Fold(Or, srcs, j, n - 1), At(srcs[n - 1], j), bit);
    }
  }

  lemma BitOfOr(x: bv8, y: bv8, bit: bv8)
    ensures (x | y) & bit != 0 <==> x & bit != 0 || y & bit != 0
  {
  }

  /** In how many of the first n strings a bit is set. */
  function SetIn(srcs: seq<seq<bv8>>, j: nat, n: nat, bit: bv8): nat
    requires n <= |srcs|
    decreases n
  {
    if n == 0 then 0 else SetIn(srcs, j, n - 1, bit) + if Has(At(srcs[n - 1], j), bit) then 1 else 0
  }

  predicate Has(b: bv8, bit: bv8) { b & bit != 0 }

  predicate SingleBit(b: bv8) { b != 0 && b & (b - 1) == 0 }

  /** A bit of XOR is set exactly if it is set in an odd number of strings. */
  lemma {:induction false} XorBit(srcs: seq<seq<bv8>>, j: nat, n: nat, bit: bv8)
    requires 0 < n <= |srcs| && SingleBit(bit)
    ensures Has(Fold(Xor, srcs, j, n), bit) <==> SetIn(srcs, j, n, bit) % 2 == 1
    decreases n
  {
    hide At, SingleBit, Has, Combine;
    if n == 1 {
      assert SetIn(srcs, j, 0, bit) == 0;
    } else {
      XorBit(srcs, j, n - 1, bit);
      BitOfXor(Fold(Xor, srcs, j, n - 1), At(srcs[n - 1], j), bit);
    }
  }

  lemma BitOfXor(x: bv8, y: bv8, bit: bv8)
    requires SingleBit(bit)
    ensures Has(Combine(Xor, x, y), bit) <==> Has(x, bit) != Has(y, bit)
  {
  }

  // ---- Words of eight bytes ----

  function Word64(s: seq<bv8>): bv64
    requires |s| == 8
  {
    (s[0] as bv64) | ((s[1] as bv64) << 8) | ((s[2] as bv64) << 16) | ((s[3] as bv64) << 24)
    | ((s[4] as bv64) << 32) | ((s[5] as bv64) << 40) | ((s[6] as bv64) << 48) | ((s[7] as bv64) << 56)
  }

  function Shifted(x: bv64, n: bv8): bv64
    requires n <= 56
  {
    x >> n
  }

  function LowByte(x: bv64): bv8 {
    (x & 0xff) as bv8
  }

  predicate IsByteShift(n: bv8) {
    n == 0 || n == 8 || n == 16 || n == 24 || n == 32 || n == 40 || n == 48 || n == 56
  }

  function ByteOf(w: bv64, n: bv8): bv8
    requires n <= 56
  {
    LowByte(Shifted(w, n))
  }

  function Bytes64(w: bv64): (s: seq<bv8>)
    ensures |s| == 8
  {
    [ByteOf(w, 0), ByteOf(w, 8), ByteOf(w, 16), ByteOf(w, 24),
     ByteOf(w, 32), ByteOf(w, 40), ByteOf(w, 48), ByteOf(w, 56)]
  }

  function Combine64(op: Op, x: bv64, y: bv64): bv64 {
    match op
    case And => x & y
    case Or => x | y
    case Xor => x ^ y
    case Not => x
  }

  lemma ShiftAnd(x: bv64, y: bv64, n: bv8)
    requires IsByteShift(n)
    ensures Shifted(Combine64(And, x, y), n) == Combine64(And, Shifted(x, n), Shifted(y, n))
  {
    if n == 0 {} else if n == 8 {} else if n == 16 {} else if n == 24 {}
    else if n == 32 {} else if n == 40 {} else if n == 48 {} else {}
  }

  lemma ShiftOr(x: bv64, y: bv64, n: bv8)
    requires IsByteShift(n)
    ensures Shifted(Combine64(Or, x, y), n) == Combine64(Or, Shifted(x, n), Shifted(y, n))
  {
    if n == 0 {} else if n == 8 {} else if n == 16 {} else if n == 24 {}
    else if n == 32 {} else if n == 40 {} else if n == 48 {} else {}
  }

  lemma RawXor(x: bv64, y: bv64, n: bv8)
    requires IsByteShift(n)
    ensures (x ^ y) >> n == (x >> n) ^ (y >> n)
  {
    if n == 0 {} else if n == 8 {} else if n == 16 {} else if n == 24 {}
    else if n == 32 {} else if n == 40 {} else if n == 48 {} else {}
  }

  lemma ShiftedIs(x: bv64, n: bv8)
    requires n <= 56
    ensures Shifted(x, n) == x >> n
  {
  }

  lemma XorIs(x: bv64, y: bv64, a: bv8, b: bv8)
    ensures Combine64(Xor, x, y) == x ^ y && Combine(Xor, a, b) == a ^ b
  {
  }

  lemma ShiftXor(x: bv64, y: bv64, n: bv8)
    requires IsByteShift(n)
    ensures Shifted(Combine64(Xor, x, y), n) == Combine64(Xor, Shifted(x, n), Shifted(y, n))
  {
    assert n <= 56;
    hide *;
    RawXor(x, y, n);
    XorIs(x, y, 0, 0);
    XorIs(Shifted(x, n), Shifted(y, n), 0, 0);
    ShiftedIs(Combine64(Xor, x, y), n);
    ShiftedIs(x, n);
    ShiftedIs(y, n);
  }

  lemma RawLow(x: bv64, y: bv64)
    ensures LowByte(x & y) == LowByte(x) & LowByte(y)
    ensures LowByte(x | y) == LowByte(x) | LowByte(y)
  {
  }

  lemma RawLowXor(x: bv64, y: bv64)
    ensures LowByte(x ^ y) == LowByte(x) ^ LowByte(y)
  {
  }

  lemma LowCombined(op: Op, x: bv64, y: bv64)
    ensures LowByte(Combine64(op, x, y)) == Combine(op, LowByte(x), LowByte(y))
  {
    hide LowByte;
    if op == Xor { RawLowXor(x, y); } else { RawLow(x, y); }
  }

  lemma ShiftCombined(op: Op, x: bv64, y: bv64, n: bv8)
    requires IsByteShift(n)
    ensures Shifted(Combine64(op, x, y), n) == Combine64(op, Shifted(x, n), Shifted(y, n))
  {
    if op == Not {
      hide Shifted;
      assert Combine64(op, x, y) == x;
    } else {
      hide *;
      match op
      case And => ShiftAnd(x, y, n);
      case Or => ShiftOr(x, y, n);
      case Xor => ShiftXor(x, y, n);
    }
  }

  lemma ByteOfCombined(op: Op, x: bv64, y: bv64, n: bv8)
    requires IsByteShift(n)
    ensures ByteOf(Combine64(op, x, y), n) == Combine(op, ByteOf(x, n), ByteOf(y, n))
  {
    hide Shifted, LowByte, Combine64, Combine;
    ShiftCombined(op, x, y, n);
    LowCombined(op, Shifted(x, n), Shifted(y, n));
  }

  lemma ByteOfNot(x: bv64, n: bv8)
    requires IsByteShift(n)
    ensures ByteOf(!x, n) == !ByteOf(x, n)
  {
  }

  lemma ByteOfWord(s: seq<bv8>)
    requires |s| == 8
    ensures Bytes64(Word64(s)) == s
  {
    var s0, s1, s2, s3, s4, s5, s6, s7 := s[0], s[1], s[2], s[3], s[4], s[5], s[6], s[7];
    assert s == [s0, s1, s2, s3, s4, s5, s6, s7];
  }

  lemma ByteShift(k: nat)
    requires k < 8
    ensures IsByteShift(if k == 0 then 0 else if k == 1 then 8 else if k == 2 then 16 else if k == 3 then 24
                        else if k == 4 then 32 else if k == 5 then 40 else if k == 6 then 48 else 56)
  {
  }

  lemma Bytes64Are(w: bv64, k: nat)
    requires k < 8
    ensures Bytes64(w)[k] == ByteOf(w, if k == 0 then 0 else if k == 1 then 8
                                       else if k == 2 then 16 else if k == 3 then 24
                                       else if k == 4 then 32 else if k == 5 then 40 else if k == 6 then 48 else 56)
  {
    hide ByteOf;
  }

  /** Combining words combines their bytes. */
  lemma WordStep(op: Op, a: seq<bv8>, b: seq<bv8>, k: nat)
    requires |a| == 8 && |b| == 8 && k < 8
    ensures Bytes64(Combine64(op, Word64(a), Word64(b)))[k] == Combine(op, a[k], b[k])
  {
    hide *;
    ByteOfWord(a);
    ByteOfWord(b);
    var n: bv8 := if k == 0 then 0 else if k == 1 then 8 else if k == 2 then 16 else if k == 3 then 24
                  else if k == 4 then 32 else if k == 5 then 40 else if k == 6 then 48 else 56;
    ByteShift(k);
    Bytes64Are(Combine64(op, Word64(a), Word64(b)), k);
    Bytes64Are(Word64(a), k);
    Bytes64Are(Word64(b), k);
    ByteOfCombined(op, Word64(a), Word64(b), n);
  }

  function Inverted(x: bv8): bv8 { !x }

  function Inverted64(x: bv64): bv64 { !x }

  lemma InvertedIs(x: bv8)
    ensures Inverted(x) == !x
  {
  }

  lemma Inverted64Is(x: bv64)
    ensures Inverted64(x) == !x
  {
  }

  lemma ByteOfInverted(x: bv64, n: bv8)
    requires IsByteShift(n)
    ensures ByteOf(Inverted64(x), n) == Inverted(ByteOf(x, n))
  {
    hide ByteOf;
    ByteOfNot(x, n);
  }

  lemma WordNot(a: seq<bv8>, k: nat)
    requires |a| == 8 && k < 8
    ensures Bytes64(Inverted64(Word64(a)))[k] == Inverted(a[k])
  {
    hide *;
    ByteOfWord(a);
    var n: bv8 := if k == 0 then 0 else if k == 1 then 8 else if k == 2 then 16 else if k == 3 then 24
                  else if k == 4 then 32 else if k == 5 then 40 else if k == 6 then 48 else 56;
    ByteShift(k);
    Bytes64Are(Inverted64(Word64(a)), k);
    Bytes64Are(Word64(a), k);
    ByteOfInverted(Word64(a), n);
  }

  method StoreWord(res: array<bv8>, p: nat, bytes: seq<bv8>)
    requires |bytes| == 8 && p + 8 <= res.Length
    modifies res
    ensures forall k :: 0 <= k < res.Length ==> res[k] == if p <= k < p + 8 then bytes[k - p] else old(res[k])
  {
    forall k | 0 <= k < 8 {
      res[p + k] := bytes[k];
    }
  }

  /** lres[m] op= lp[i][m] */
  method CombineWord(op: Op, res: array<bv8>, p: nat, s: seq<bv8>, q: nat)
    requires p + 8 <= res.Length && q + 8 <= |s|
    modifies res
    ensures forall k :: 0 <= k < res.Length ==>
              res[k] == if p <= k < p + 8 then Combine(op, old(res[k]), s[k - p + q]) else old(res[k])
  {
    hide *;
    var a, b := res[p..p + 8], s[q..q + 8];
    var bytes := Bytes64(Combine64(op, Word64(a), Word64(b)));
    forall k | 0 <= k < 8 ensures bytes[k] == Combine(op, a[k], b[k]) {
      WordStep(op, a, b, k);
    }
    StoreWord(res, p, bytes);
  }

  /** lres[m] = ~lres[m] */
  method InvertWord(res: array<bv8>, p: nat)
    requires p + 8 <= res.Length
    modifies res
    ensures forall k :: 0 <= k < res.Length ==> res[k] == if p <= k < p + 8 then Inverted(old(res[k])) else old(res[k])
  {
    hide *;
    var a := res[p..p + 8];
    var bytes := Bytes64(!Word64(a));
    Inverted64Is(Word64(a));
    forall k | 0 <= k < 8 ensures bytes[k] == Inverted(a[k]) {
      WordNot(a, k);
    }
    StoreWord(res, p, bytes);
  }

  /** Four words at a time. */
  method CombineBlock(op: Op, res: array<bv8>, p: nat, s: seq<bv8>, q: nat)
    requires p + 32 <= res.Length && q + 32 <= |s|
    modifies res
    ensures forall k :: 0 <= k < res.Length ==>
              res[k] == if p <= k < p + 32 then Combine(op, old(res[k]), s[k - p + q]) else old(res[k])
  {
    hide Combine;
    CombineWord(op, res, p, s, q);
    CombineWord(op, res, p + 8, s, q + 8);
    CombineWord(op, res, p + 16, s, q + 16);
    CombineWord(op, res, p + 24, s, q + 24);
  }

  method InvertBlock(res: array<bv8>, p: nat)
    requires p + 32 <= res.Length
    modifies res
    ensures forall k :: 0 <= k < res.Length ==> res[k] == if p <= k < p + 32 then Inverted(old(res[k])) else old(res[k])
  {
    InvertWord(res, p);
    InvertWord(res, p + 8);
    InvertWord(res, p + 16);
    InvertWord(res, p + 24);
  }

  // ---- The combination loops ----

  ghost predicate LongEnough(srcs: seq<seq<bv8>>, len: nat) {
    forall i :: 0 <= i < |srcs| ==> len <= |srcs[i]|
  }

  lemma FoldNext(op: Op, srcs: seq<seq<bv8>>, k: nat, i: nat)
    requires 0 < i < |srcs|
    ensures Fold(op, srcs, k, i + 1) == Combine(op, Fold(op, srcs, k, i), At(srcs[i], k))
  {
  }

  lemma FoldFirst(op: Op, srcs: seq<seq<bv8>>, k: nat)
    requires srcs != []
    ensures Fold(op, srcs, k, 1) == if op == Not then Inverted(At(srcs[0], k)) else At(srcs[0], k)
  {
  }

  /** Lines 272-278 for one block of 32 bytes: the first string is there, the others are combined with it. */
  method FoldBlock(op: Op, srcs: seq<seq<bv8>>, res: array<bv8>, lres: nat, lp0: seq<nat>) returns (lp: seq<nat>)
    requires op != Not && srcs != [] && lres + 32 <= res.Length && LongEnough(srcs, lres + 32)
    requires |lp0| == |srcs| && forall i :: 1 <= i < |srcs| ==> lp0[i] == lres
    requires forall k :: lres <= k < lres + 32 ==> res[k] == srcs[0][k]
    modifies res
    ensures forall k :: 0 <= k < res.Length ==>
              res[k] == if lres <= k < lres + 32 then Fold(op, srcs, k, |srcs|) else old(res[k])
    ensures |lp| == |srcs| && forall i :: 1 <= i < |srcs| ==> lp[i] == lres + 32
  {
    hide Fold, Combine;
    lp := lp0;
    var i := 1;
    forall k | lres <= k < lres + 32 ensures res[k] == Fold(op, srcs, k, 1) {
      FoldFirst(op, srcs, k);
    }
    while i < |srcs|
      invariant 1 <= i <= |srcs| && |lp| == |srcs|
      invariant forall m :: 1 <= m < |srcs| ==> lp[m] == if m < i then lres + 32 else lres
      invariant forall k :: 0 <= k < res.Length ==>
                  res[k] == if lres <= k < lres + 32 then Fold(op, srcs, k, i) else old(res[k])
    {
      assert lres + 32 <= |srcs[i]|;
      CombineBlock(op, res, lres, srcs[i], lp[i]);
      forall k | lres <= k < lres + 32 ensures res[k] == Fold(op, srcs, k, i + 1) {
        FoldNext(op, srcs, k, i);
      }
      lp := lp[i := lp[i] + 32];
      i := i + 1;
    }
  }

  /** Lines 260-320: whole blocks while every string has them; the result is the next byte to process. */
  method FastPath(op: Op, srcs: seq<seq<bv8>>, res: array<bv8>, minlen0: nat) returns (j: nat)
    requires srcs != [] && (op == Not ==> |srcs| == 1) && LongEnough(srcs, minlen0) && minlen0 <= res.Length
    requires forall k :: 0 <= k < minlen0 ==> res[k] == srcs[0][k]
    modifies res
    ensures j <= minlen0 && forall k :: 0 <= k < j ==> res[k] == Fold(op, srcs, k, |srcs|)
  {
    hide Fold;
    j := 0;
    var minlen, lp := minlen0, seq(|srcs|, _ => 0);
    while minlen >= 32
      invariant j + minlen == minlen0 && |lp| == |srcs|
      invariant op != Not ==> forall i :: 1 <= i < |srcs| ==> lp[i] == j
      invariant forall k :: 0 <= k < j ==> res[k] == Fold(op, srcs, k, |srcs|)
      invariant forall k :: j <= k < minlen0 ==> res[k] == srcs[0][k]
    {
      if op == Not {
        InvertBlock(res, j);
        forall k | j <= k < j + 32 ensures res[k] == Fold(op, srcs, k, |srcs|) {
          FoldFirst(op, srcs, k);
        }
      } else {
        LongEnoughToo(srcs, minlen0, j + 32);
        lp := FoldBlock(op, srcs, res, j, lp);
      }
      j, minlen := j + 32, minlen - 32;
    }
  }

  lemma LongEnoughToo(srcs: seq<seq<bv8>>, len: nat, n: nat)
    requires LongEnough(srcs, len) && n <= len
    ensures LongEnough(srcs, n)
  {
  }

  /** The switch at line 328. */
  method CombineByte(op: Op, output: bv8, byte: bv8) returns (r: bv8)
    ensures r == Combine(op, output, byte)
  {
    match op
    case And => r := output & byte;
    case Or => r := output | byte;
    case Xor => r := output ^ byte;
    case Not => r := output;
  }

  lemma AtIs(s: seq<bv8>, j: nat)
    ensures At(s, j) == if |s| <= j then 0 else s[j]
  {
  }

  /** Lines 324-334: one byte of the result. */
  method FoldByte(op: Op, srcs: seq<seq<bv8>>, j: nat) returns (output: bv8)
    requires srcs != [] && (op == Not ==> |srcs| == 1)
    ensures output == Fold(op, srcs, j, |srcs|)
  {
    hide *;
    FoldFirst(op, srcs, j);
    AtIs(srcs[0], j);
    output := if |srcs[0]| <= j then 0 else srcs[0][j];
    InvertedIs(output);
    if op == Not { output := !output; }
    var i := 1;
    while i < |srcs|
      invariant 1 <= i <= |srcs| && output == Fold(op, srcs, j, i)
    {
      FoldNext(op, srcs, j, i);
      AtIs(srcs[i], j);
      var byte := if |srcs[i]| <= j then 0 else srcs[i][j];
      output := CombineByte(op, output, byte);
      i := i + 1;
    }
  }

  /** Lines 223-249: the lengths of the shortest and of the longest string; a missing key is an empty string. */
  method Lengths(srcs: seq<seq<bv8>>) returns (minlen: nat, maxlen: nat)
    requires srcs != []
    ensures LongEnough(srcs, minlen)
    ensures (forall i :: 0 <= i < |srcs| ==> |srcs[i]| <= maxlen) && exists i :: 0 <= i < |srcs| && |srcs[i]| == maxlen
  {
    minlen, maxlen := 0, 0;
    var j := 0;
    ghost var longest := 0;
    while j < |srcs|
      invariant j <= |srcs| && (j > 0 ==> 0 <= longest < j && |srcs[longest]| == maxlen) && (j == 0 ==> maxlen == 0)
      invariant forall i :: 0 <= i < j ==> minlen <= |srcs[i]| <= maxlen
    {
      if |srcs[j]| > maxlen || j == 0 {
        maxlen, longest := if |srcs[j]| > maxlen then |srcs[j]| else maxlen, j;
      }
      if j == 0 || |srcs[j]| < minlen { minlen := |srcs[j]|; }
      j := j + 1;
    }
  }

  /** The combination loops of bitopCommand: byte by byte, the operation on all strings extended with zeros. */
  method BitOp(op: Op, srcs: seq<seq<bv8>>) returns (r: seq<bv8>)
    requires srcs != [] && (op == Not ==> |srcs| == 1)
    ensures forall j :: 0 <= j < |r| ==> r[j] == Fold(op, srcs, j, |srcs|)
    ensures (forall i :: 0 <= i < |srcs| ==> |srcs[i]| <= |r|) && exists i :: 0 <= i < |srcs| && |srcs[i]| == |r|
  {
    hide Fold;
    var minlen, maxlen := Lengths(srcs);
    if maxlen == 0 { return []; }
    var res := new bv8[maxlen](_ => 0);
    var j := 0;
    if minlen > 0 && |srcs| <= 16 {
      assert minlen <= |srcs[0]|;
      forall k | 0 <= k < minlen {
        res[k] := srcs[0][k];
      }
      j := FastPath(op, srcs, res, minlen);
    }
    while j < maxlen
      invariant j <= maxlen && forall k :: 0 <= k < j ==> res[k] == Fold(op, srcs, k, |srcs|)
    {
      var output := FoldByte(op, srcs, j);
      res[j] := output;
      j := j + 1;
    }
    r := res[..];
  }
}
