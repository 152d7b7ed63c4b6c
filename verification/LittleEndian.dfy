/** Integers as bytes, the lowest first, in two's complement. */
module LittleEndian {
  import opened Bytes

  /** The n low bytes of v, the lowest first. */
  function LeBytes(v: int, n: nat): (s: seq<byte>)
    ensures |s| == n
    decreases n
  {
    if n == 0 then [] else [v % 256] + LeBytes(v / 256, n - 1)
  }

  function FromLe(s: seq<byte>): nat {
    if s == [] then 0
    else
      var b: int := s[0];
      b + 256 * FromLe(s[1..])
  }

  /** The signed value of an unsigned one, for a width of which limit is half the range. */
  function Signed(v: nat, limit: nat): int {
    if v < limit then v else v - 2 * limit
  }

  function Pow256(n: nat): nat {
    if n == 0 then 1 else 256 * Pow256(n - 1)
  }

  lemma {:induction false} FromLeBytes(v: int, n: nat)
    requires 0 <= v + Pow256(n) && v < Pow256(n)
    ensures FromLe(LeBytes(v, n)) == if v >= 0 then v else v + Pow256(n)
    decreases n
  {
    if n > 0 {
      FromLeBytes(v / 256, n - 1);
      var s := LeBytes(v, n);
      assert s[0] == v % 256 && s[1..] == LeBytes(v / 256, n - 1);
      hide LeBytes;
    }
  }

  lemma Widths()
    ensures Pow256(1) == 2 * 0x80 && Pow256(2) == 2 * 0x8000 && Pow256(4) == 2 * 0x8000_0000
    ensures Pow256(8) == 2 * 0x8000_0000_0000_0000
  {
    assert Pow256(4) == 0x1_0000_0000;
    assert Pow256(6) == 0x1_0000_0000_0000;
  }

  lemma SignedRoundTrip(v: int, n: nat, limit: int, tail: seq<byte>)
    requires limit > 0 && Pow256(n) == 2 * limit && -limit <= v < limit
    ensures Signed(FromLe(LeBytes(v, n)), limit) == v
    ensures (LeBytes(v, n) + tail)[..n] == LeBytes(v, n) && (LeBytes(v, n) + tail)[n..] == tail
  {
    FromLeBytes(v, n);
    hide Pow256, LeBytes, FromLe;
  }
}
