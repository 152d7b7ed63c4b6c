/** The generator of redis-stable/src/rand.c: a 48-bit congruential step in limbs of 16 bits. */
module Rand48 {

  const BASE := 0x1_0000
  const MODULUS := 0x1_0000_0000_0000

  const A0 := 0xE66D
  const A1 := 0xDEEC
  const A2 := 0x5
  const C := 0xB

  /** 0x5DEECE66D, the multiplier of drand48 (IEEE Std 1003.1). */
  const MULTIPLIER := 0x5_DEEC_E66D

  type limb = x: int | 0 <= x < 0x1_0000

  function Low(x: int): limb { x % BASE }

  function High(x: int): limb { x / BASE % BASE }

  /** CARRY: whether the sum of two values does not fit a limb. */
  function Carry(x: int, y: int): int { if x + y >= BASE then 1 else 0 }

  /** Three limbs as a number. */
  function Number(x0: int, x1: int, x2: int): int {
    x2 * 0x1_0000_0000 + x1 * 0x1_0000 + x0
  }

  /** The recurrence of drand48. */
  function Advance(x: int): int {
    (MULTIPLIER * x + C) % MODULUS
  }

  // ---- Arithmetic ----

  lemma Halves(n: int)
    requires 0 <= n < 0x1_0000_0000
    ensures n == Low(n) + 0x1_0000 * High(n)
  {
  }

  lemma Added(x: limb, y: int)
    requires 0 <= y < BASE
    ensures x + y == Low(x + y) + BASE * Carry(x, y)
  {
  }

  lemma SameRemainder(n: int, r: int, k: int)
    requires n == r + MODULUS * k && 0 <= r < MODULUS
    ensures n % MODULUS == r
  {
  }

  /** The product of the multiplier and a state, limb by limb. */
  lemma Product(x0: int, x1: int, x2: int)
    ensures MULTIPLIER * Number(x0, x1, x2)
         == A0 * x0 + 0x1_0000 * (A0 * x1 + A1 * x0) + 0x1_0000_0000 * (A0 * x2 + A1 * x1 + A2 * x0)
          + MODULUS * (A1 * x2 + A2 * x1 + 0x1_0000 * (A2 * x2))
  {
  }

  /** The limbs of the sum of three partial products u, v + w and z, from the halves of u, v and w. */
  lemma LimbsAddUp(u: int, v: int, w: int, z: int, p0: int, p1: int, q0: int, q1: int, r0: int, r1: int,
                   y0: int, s: int, t: int, y1: int, c0: int, c1: int, d0: int, d1: int, m: int, y2: int)
    requires u == p0 + 0x1_0000 * p1 && v == q0 + 0x1_0000 * q1 && w == r0 + 0x1_0000 * r1
    requires p0 + C == y0 + 0x1_0000 * c0
    requires p1 + c0 == s + 0x1_0000 * c1
    requires s + q0 == t + 0x1_0000 * d0
    requires t + r0 == y1 + 0x1_0000 * d1
    requires d0 + c1 + d1 + q1 + r1 + z == y2 + 0x1_0000 * m
    ensures u + 0x1_0000 * (v + w) + 0x1_0000_0000 * z + C == Number(y0, y1, y2) + MODULUS * m
  {
  }

  lemma AdvanceIs(x0: int, x1: int, x2: int, n: int, m: int)
    requires 0 <= n < MODULUS
    requires A0 * x0 + 0x1_0000 * (A0 * x1 + A1 * x0) + 0x1_0000_0000 * (A0 * x2 + A1 * x1 + A2 * x0) + C
          == n + MODULUS * m
    ensures Advance(Number(x0, x1, x2)) == n
  {
    Product(x0, x1, x2);
    hide Number;
    SameRemainder(MULTIPLIER * Number(x0, x1, x2) + C, n, m + A1 * x2 + A2 * x1 + 0x1_0000 * (A2 * x2));
  }

  lemma NumberBound(x0: limb, x1: limb, x2: limb)
    ensures 0 <= Number(x0, x1, x2) < MODULUS
  {
  }

  // ---- The generator ----

  /** The intermediate limbs and carries of next(). */
  datatype Halved = Halved(p0: int, p1: int, q0: int, q1: int, r0: int, r1: int, y0: int, s: int, t: int,
                           c0: int, c1: int, d0: int)
  {
    ghost predicate Ok(x0: limb, x1: limb) {
      && A0 * x0 == p0 + 0x1_0000 * p1 && A0 * x1 == q0 + 0x1_0000 * q1 && A1 * x0 == r0 + 0x1_0000 * r1
      && p0 + C == y0 + 0x1_0000 * c0
      && p1 + c0 == s + 0x1_0000 * c1
      && s + q0 == t + 0x1_0000 * d0
    }
  }

  lemma NextNumber(h: Halved, x0: limb, x1: limb, x2: limb, sum: int)
    requires h.Ok(x0, x1) && 0 <= h.y0 < BASE && 0 <= h.t < BASE && 0 <= h.r0 < BASE
    requires sum == h.d0 + h.c1 + Carry(h.t, h.r0) + h.q1 + h.r1 + A0 * x2 + A1 * x1 + A2 * x0
    ensures Number(h.y0, Low(h.t + h.r0), Low(sum)) == Advance(Number(x0, x1, x2))
  {
    LowIs(sum);
    Added(h.t, h.r0);
    var y1, y2 := Low(h.t + h.r0), Low(sum);
    NumberBound(h.y0, y1, y2);
    hide Advance, Number, Low, Carry;
    LimbsAddUp(A0 * x0, A0 * x1, A1 * x0, A0 * x2 + A1 * x1 + A2 * x0, h.p0, h.p1, h.q0, h.q1, h.r0, h.r1,
               h.y0, h.s, h.t, y1, h.c0, h.c1, h.d0, Carry(h.t, h.r0), sum / BASE, y2);
    AdvanceIs(x0, x1, x2, Number(h.y0, y1, y2), sum / BASE);
  }

  lemma LowIs(n: int)
    ensures n == Low(n) + 0x1_0000 * (n / BASE)
  {
  }

  class Generator {
    var x0: limb
    var x1: limb
    var x2: limb

    ghost function State(): (x: int)
      reads this
      ensures 0 <= x < MODULUS
    {
      Number(x0, x1, x2)
    }

    /** The static initialisation. */
    constructor ()
      ensures State() == 0x1234_ABCD_330E
    {
      x0, x1, x2 := 0x330E, 0xABCD, 0x1234;
    }

    /** redisSrand48; seedval is an int32_t, whose right shift keeps the sign. */
    method Srand48(seedval: int)
      requires -0x8000_0000 <= seedval < 0x8000_0000
      modifies this
      ensures State() == (seedval % 0x1_0000_0000) * 0x1_0000 + 0x330E
    {
      x0, x1, x2 := 0x330E, Low(seedval), High(seedval);
    }

    /** MUL: the low 32 bits of a product in two limbs. */
    static method Mul(x: limb, y: limb) returns (z0: limb, z1: limb)
      ensures x * y == z0 + 0x1_0000 * z1
    {
      MulFits(x, y);
      var l := x * y;
      Halves(l);
      z0, z1 := Low(l), High(l);
    }

    static lemma NonNegative(a: int, b: int)
      requires 0 <= a && 0 <= b
      ensures 0 <= a * b
    {
    }

    static lemma MulFits(x: limb, y: limb)
      ensures 0 <= x * y < 0x1_0000_0000
    {
      var a: int, b: int := x, y;
      NonNegative(a, b);
      NonNegative(0xffff - a, b);
      assert (0xffff - a) * b == 0xffff * b - a * b;
    }

    /** ADDEQU: the sum in one limb, and the carry. */
    static method AddEqu(x: limb, y: int) returns (sum: limb, carry: int)
      requires 0 <= y < BASE
      ensures x + y == sum + 0x1_0000 * carry && 0 <= carry <= 1
    {
      Added(x, y);
      sum, carry := Low(x + y), Carry(x, y);
    }

    /** The middle limb and the low one, with the carries out of the middle one. */
    method LowLimbs() returns (ghost h: Halved, y0: limb, t: limb, carry: int, q1: limb, r0: limb, r1: limb)
      ensures h.Ok(x0, x1) && h.y0 == y0 && h.t == t && h.c1 + h.d0 == carry && h.q1 == q1 && h.r0 == r0 && h.r1 == r1
    {
      hide Low, High, Carry;
      var p0, p1 := Mul(A0, x0);
      var carry0, carry1, carry2, q0, s;
      y0, carry0 := AddEqu(p0, C);
      s, carry1 := AddEqu(p1, carry0);
      q0, q1 := Mul(A0, x1);
      t, carry2 := AddEqu(s, q0);
      r0, r1 := Mul(A1, x0);
      h := Halved(p0, p1, q0, q1, r0, r1, y0, s, t, carry0, carry1, carry2);
      carry := carry2 + carry1;
    }

    /** next(). */
    method Next()
      modifies this
      ensures State() == Advance(old(State()))
    {
      hide Advance, Number, Low, High, Carry;
      var h, y0, t, carry, q1, r0, r1 := LowLimbs();
      var middle: int := t;
      var sum := carry + Carry(t, r0) + q1 + r1 + A0 * x2 + A1 * x1 + A2 * x0;
      NextNumber(h, x0, x1, x2, sum);
      x2 := Low(sum);
      x1 := Low(middle + r0);
      x0 := y0;
    }

    /** redisLrand48. */
    method Lrand48() returns (r: int)
      modifies this
      ensures State() == Advance(old(State()))
      ensures r == State() / 0x2_0000 && 0 <= r < 0x8000_0000
    {
      Next();
      r := x2 * 0x8000 + x1 / 2;
    }
  }

  // ---- Runs ----

  /** The state after n steps. */
  function Iterate(x: int, n: nat): int
    decreases n
  {
    if n == 0 then x else Advance(Iterate(x, n - 1))
  }

  /** The inverse of the multiplier modulo 2^48. */
  const INVERSE := 0xDFE0_5BCB_1365

  /** The state before. */
  function Retreat(y: int): int {
    INVERSE * (y - C) % MODULUS
  }

  /** Every state has just one predecessor, so that no state is lost. */
  lemma RetreatInvertsAdvance(x: int)
    requires 0 <= x < MODULUS
    ensures Retreat(Advance(x)) == x
  {
    var q := (MULTIPLIER * x + C) / MODULUS;
    assert Advance(x) == MULTIPLIER * x + C - MODULUS * q;
    assert INVERSE * MULTIPLIER == 1 + MODULUS * 22050866921;
    SameRemainder(INVERSE * (Advance(x) - C), x, 22050866921 * x - INVERSE * q);
  }

  /** Different states never lead to the same one, however many steps are taken. */
  lemma {:induction false} IterateInjective(x: int, y: int, n: nat)
    requires 0 <= x < MODULUS && 0 <= y < MODULUS && Iterate(x, n) == Iterate(y, n)
    ensures x == y
    decreases n
  {
    if n > 0 {
      IterateBound(x, n - 1);
      IterateBound(y, n - 1);
      hide Advance, Retreat;
      RetreatInvertsAdvance(Iterate(x, n - 1));
      RetreatInvertsAdvance(Iterate(y, n - 1));
      IterateInjective(x, y, n - 1);
    }
  }

  lemma IterateBound(x: int, n: nat)
    requires 0 <= x < MODULUS
    ensures 0 <= Iterate(x, n) < MODULUS
  {
  }

  /** The numbers after seeding are those of srand48 and lrand48: the high 31 bits of the states that follow. */
  method Numbers(g: Generator, seedval: int, n: nat) returns (rs: seq<int>)
    requires -0x8000_0000 <= seedval < 0x8000_0000
    modifies g
    ensures |rs| == n
    ensures var x := seedval % 0x1_0000_0000 * 0x1_0000 + 0x330E;
            forall i :: 0 <= i < n ==> rs[i] == Iterate(x, i + 1) / 0x2_0000 && 0 <= rs[i] < 0x8000_0000
  {
    hide Advance;
    ghost var x := seedval % 0x1_0000_0000 * 0x1_0000 + 0x330E;
    g.Srand48(seedval);
    rs := [];
    while |rs| < n
      invariant |rs| <= n && g.State() == Iterate(x, |rs|)
      invariant forall i :: 0 <= i < |rs| ==> rs[i] == Iterate(x, i + 1) / 0x2_0000 && 0 <= rs[i] < 0x8000_0000
    {
      var r := g.Lrand48();
      rs := rs + [r];
    }
  }
}
