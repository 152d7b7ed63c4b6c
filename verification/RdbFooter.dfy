/** The eight bytes of a checksum determine it. */
module RdbFooter {
  import opened Bytes
  import opened RdbSpec

  predicate SameAt(x: bv64, y: bv64, n: bv8)
    requires n <= 56
  {
    (x >> n) & 0xff == (y >> n) & 0xff
  }

  lemma SameByte(a: bv8, b: bv8)
    requires a as int == b as int
    ensures a == b
  {
  }

  lemma WideByte(a: bv64, b: bv64)
    requires (a & 0xff) as bv8 == (b & 0xff) as bv8
    ensures a & 0xff == b & 0xff
  {
  }

  lemma ByteInjective(x: bv64, y: bv64, n: bv8)
    requires n <= 56 && ByteAt(x, n) == ByteAt(y, n)
    ensures SameAt(x, y, n)
  {
    SameByte(((x >> n) & 0xff) as bv8, ((y >> n) & 0xff) as bv8);
    WideByte(x >> n, y >> n);
  }

  lemma AllBytes(x: bv64, y: bv64)
    requires SameAt(x, y, 0) && SameAt(x, y, 8) && SameAt(x, y, 16) && SameAt(x, y, 24)
    requires SameAt(x, y, 32) && SameAt(x, y, 40) && SameAt(x, y, 48) && SameAt(x, y, 56)
    ensures x == y
  {
  }

  lemma SameBytes(x: bv64, y: bv64)
    requires Footer(x) == Footer(y)
    ensures ByteAt(x, 0) == ByteAt(y, 0) && ByteAt(x, 8) == ByteAt(y, 8) && ByteAt(x, 16) == ByteAt(y, 16)
    ensures ByteAt(x, 24) == ByteAt(y, 24) && ByteAt(x, 32) == ByteAt(y, 32) && ByteAt(x, 40) == ByteAt(y, 40)
    ensures ByteAt(x, 48) == ByteAt(y, 48) && ByteAt(x, 56) == ByteAt(y, 56)
  {
    hide ByteAt;
    var a, b := Footer(x), Footer(y);
    assert a[0] == b[0] && a[1] == b[1] && a[2] == b[2] && a[3] == b[3];
    assert a[4] == b[4] && a[5] == b[5] && a[6] == b[6] && a[7] == b[7];
  }

  lemma FooterInjective(x: bv64, y: bv64)
    requires Footer(x) == Footer(y)
    ensures x == y
  {
    hide *;
    SameBytes(x, y);
    ByteInjective(x, y, 0);
    ByteInjective(x, y, 8);
    ByteInjective(x, y, 16);
    ByteInjective(x, y, 24);
    ByteInjective(x, y, 32);
    ByteInjective(x, y, 40);
    ByteInjective(x, y, 48);
    ByteInjective(x, y, 56);
    AllBytes(x, y);
  }
}
