/** The checksum of redis-stable/src/crc64.c. */
module Crc64 {
  import opened Bytes

  /** The polynomial, most significant coefficient first, without the leading one. */
  const POLY: bv64 := 0xad93d23594c935a9

  /** The same bits in reverse order. */
  const REFLECTED: bv64 := 0x95ac9329ac4bc9b5

  // crc64_tab, in rows of 16.
  const ROW0: seq<bv64> :=
    [0x0000000000000000, 0x7ad870c830358979, 0xf5b0e190606b12f2, 0x8f689158505e9b8b,
     0xc038e5739841b68f, 0xbae095bba8743ff6, 0x358804e3f82aa47d, 0x4f50742bc81f2d04,
     0xab28ecb46814fe75, 0xd1f09c7c5821770c, 0x5e980d24087fec87, 0x24407dec384a65fe,
     0x6b1009c7f05548fa, 0x11c8790fc060c183, 0x9ea0e857903e5a08, 0xe478989fa00bd371]

  const ROW1: seq<bv64> :=
    [0x7d08ff3b88be6f81, 0x07d08ff3b88be6f8, 0x88b81eabe8d57d73, 0xf2606e63d8e0f40a,
     0xbd301a4810ffd90e, 0xc7e86a8020ca5077, 0x4880fbd87094cbfc, 0x32588b1040a14285,
     0xd620138fe0aa91f4, 0xacf86347d09f188d, 0x2390f21f80c18306, 0x594882d7b0f40a7f,
     0x1618f6fc78eb277b, 0x6cc0863448deae02, 0xe3a8176c18803589, 0x997067a428b5bcf0]

  const ROW2: seq<bv64> :=
    [0xfa11fe77117cdf02, 0x80c98ebf2149567b, 0x0fa11fe77117cdf0, 0x75796f2f41224489,
     0x3a291b04893d698d, 0x40f16bccb908e0f4, 0xcf99fa94e9567b7f, 0xb5418a5cd963f206,
     0x513912c379682177, 0x2be1620b495da80e, 0xa489f35319033385, 0xde51839b2936bafc,
     0x9101f7b0e12997f8, 0xebd98778d11c1e81, 0x64b116208142850a, 0x1e6966e8b1770c73]

  const ROW3: seq<bv64> :=
    [0x8719014c99c2b083, 0xfdc17184a9f739fa, 0x72a9e0dcf9a9a271, 0x08719014c99c2b08,
     0x4721e43f0183060c, 0x3df994f731b68f75, 0xb29105af61e814fe, 0xc849756751dd9d87,
     0x2c31edf8f1d64ef6, 0x56e99d30c1e3c78f, 0xd9810c6891bd5c04, 0xa3597ca0a188d57d,
     0xec09088b6997f879, 0x96d1784359a27100, 0x19b9e91b09fcea8b, 0x636199d339c963f2]

  const ROW4: seq<bv64> :=
    [0xdf7adabd7a6e2d6f, 0xa5a2aa754a5ba416, 0x2aca3b2d1a053f9d, 0x50124be52a30b6e4,
     0x1f423fcee22f9be0, 0x659a4f06d21a1299, 0xeaf2de5e82448912, 0x902aae96b271006b,
     0x74523609127ad31a, 0x0e8a46c1224f5a63, 0x81e2d7997211c1e8, 0xfb3aa75142244891,
     0xb46ad37a8a3b6595, 0xceb2a3b2ba0eecec, 0x41da32eaea507767, 0x3b024222da65fe1e]

  const ROW5: seq<bv64> :=
    [0xa2722586f2d042ee, 0xd8aa554ec2e5cb97, 0x57c2c41692bb501c, 0x2d1ab4dea28ed965,
     0x624ac0f56a91f461, 0x1892b03d5aa47d18, 0x97fa21650afae693, 0xed2251ad3acf6fea,
     0x095ac9329ac4bc9b, 0x7382b9faaaf135e2, 0xfcea28a2faafae69, 0x8632586aca9a2710,
     0xc9622c4102850a14, 0xb3ba5c8932b0836d, 0x3cd2cdd162ee18e6, 0x460abd1952db919f]

  const ROW6: seq<bv64> :=
    [0x256b24ca6b12f26d, 0x5fb354025b277b14, 0xd0dbc55a0b79e09f, 0xaa03b5923b4c69e6,
     0xe553c1b9f35344e2, 0x9f8bb171c366cd9b, 0x10e3202993385610, 0x6a3b50e1a30ddf69,
     0x8e43c87e03060c18, 0xf49bb8b633338561, 0x7bf329ee636d1eea, 0x012b592653589793,
     0x4e7b2d0d9b47ba97, 0x34a35dc5ab7233ee, 0xbbcbcc9dfb2ca865, 0xc113bc55cb19211c]

  const ROW7: seq<bv64> :=
    [0x5863dbf1e3ac9dec, 0x22bbab39d3991495, 0xadd33a6183c78f1e, 0xd70b4aa9b3f20667,
     0x985b3e827bed2b63, 0xe2834e4a4bd8a21a, 0x6debdf121b863991, 0x1733afda2bb3b0e8,
     0xf34b37458bb86399, 0x8993478dbb8deae0, 0x06fbd6d5ebd3716b, 0x7c23a61ddbe6f812,
     0x3373d23613f9d516, 0x49aba2fe23cc5c6f, 0xc6c333a67392c7e4, 0xbc1b436e43a74e9d]

  const ROW8: seq<bv64> :=
    [0x95ac9329ac4bc9b5, 0xef74e3e19c7e40cc, 0x601c72b9cc20db47, 0x1ac40271fc15523e,
     0x5594765a340a7f3a, 0x2f4c0692043ff643, 0xa02497ca54616dc8, 0xdafce7026454e4b1,
     0x3e847f9dc45f37c0, 0x445c0f55f46abeb9, 0xcb349e0da4342532, 0xb1eceec59401ac4b,
     0xfebc9aee5c1e814f, 0x8464ea266c2b0836, 0x0b0c7b7e3c7593bd, 0x71d40bb60c401ac4]

  const ROW9: seq<bv64> :=
    [0xe8a46c1224f5a634, 0x927c1cda14c02f4d, 0x1d148d82449eb4c6, 0x67ccfd4a74ab3dbf,
     0x289c8961bcb410bb, 0x5244f9a98c8199c2, 0xdd2c68f1dcdf0249, 0xa7f41839ecea8b30,
     0x438c80a64ce15841, 0x3954f06e7cd4d138, 0xb63c61362c8a4ab3, 0xcce411fe1cbfc3ca,
     0x83b465d5d4a0eece, 0xf96c151de49567b7, 0x76048445b4cbfc3c, 0x0cdcf48d84fe7545]

  const ROW10: seq<bv64> :=
    [0x6fbd6d5ebd3716b7, 0x15651d968d029fce, 0x9a0d8ccedd5c0445, 0xe0d5fc06ed698d3c,
     0xaf85882d2576a038, 0xd55df8e515432941, 0x5a3569bd451db2ca, 0x20ed197575283bb3,
     0xc49581ead523e8c2, 0xbe4df122e51661bb, 0x3125607ab548fa30, 0x4bfd10b2857d7349,
     0x04ad64994d625e4d, 0x7e7514517d57d734, 0xf11d85092d094cbf, 0x8bc5f5c11d3cc5c6]

  const ROW11: seq<bv64> :=
    [0x12b5926535897936, 0x686de2ad05bcf04f, 0xe70573f555e26bc4, 0x9ddd033d65d7e2bd,
     0xd28d7716adc8cfb9, 0xa85507de9dfd46c0, 0x273d9686cda3dd4b, 0x5de5e64efd965432,
     0xb99d7ed15d9d8743, 0xc3450e196da80e3a, 0x4c2d9f413df695b1, 0x36f5ef890dc31cc8,
     0x79a59ba2c5dc31cc, 0x037deb6af5e9b8b5, 0x8c157a32a5b7233e, 0xf6cd0afa9582aa47]

  const ROW12: seq<bv64> :=
    [0x4ad64994d625e4da, 0x300e395ce6106da3, 0xbf66a804b64ef628, 0xc5bed8cc867b7f51,
     0x8aeeace74e645255, 0xf036dc2f7e51db2c, 0x7f5e4d772e0f40a7, 0x05863dbf1e3ac9de,
     0xe1fea520be311aaf, 0x9b26d5e88e0493d6, 0x144e44b0de5a085d, 0x6e963478ee6f8124,
     0x21c640532670ac20, 0x5b1e309b16452559, 0xd476a1c3461bbed2, 0xaeaed10b762e37ab]

  const ROW13: seq<bv64> :=
    [0x37deb6af5e9b8b5b, 0x4d06c6676eae0222, 0xc26e573f3ef099a9, 0xb8b627f70ec510d0,
     0xf7e653dcc6da3dd4, 0x8d3e2314f6efb4ad, 0x0256b24ca6b12f26, 0x788ec2849684a65f,
     0x9cf65a1b368f752e, 0xe62e2ad306bafc57, 0x6946bb8b56e467dc, 0x139ecb4366d1eea5,
     0x5ccebf68aecec3a1, 0x2616cfa09efb4ad8, 0xa97e5ef8cea5d153, 0xd3a62e30fe90582a]

  const ROW14: seq<bv64> :=
    [0xb0c7b7e3c7593bd8, 0xca1fc72bf76cb2a1, 0x45775673a732292a, 0x3faf26bb9707a053,
     0x70ff52905f188d57, 0x0a2722586f2d042e, 0x854fb3003f739fa5, 0xff97c3c80f4616dc,
     0x1bef5b57af4dc5ad, 0x61372b9f9f784cd4, 0xee5fbac7cf26d75f, 0x9487ca0fff135e26,
     0xdbd7be24370c7322, 0xa10fceec0739fa5b, 0x2e675fb4576761d0, 0x54bf2f7c6752e8a9]

  const ROW15: seq<bv64> :=
    [0xcdcf48d84fe75459, 0xb71738107fd2dd20, 0x387fa9482f8c46ab, 0x42a7d9801fb9cfd2,
     0x0df7adabd7a6e2d6, 0x772fdd63e7936baf, 0xf8474c3bb7cdf024, 0x829f3cf387f8795d,
     0x66e7a46c27f3aa2c, 0x1c3fd4a417c62355, 0x935745fc4798b8de, 0xe98f353477ad31a7,
     0xa6df411fbfb21ca3, 0xdc0731d78f8795da, 0x536fa08fdfd90e51, 0x29b7d047efec8728]

  const ROWS: seq<seq<bv64>> :=
    [ROW0, ROW1, ROW2, ROW3, ROW4, ROW5, ROW6, ROW7, ROW8, ROW9, ROW10, ROW11, ROW12, ROW13, ROW14, ROW15]

  lemma RowLengths()
    ensures |ROWS| == 16 && forall i :: 0 <= i < 16 ==> |ROWS[i]| == 16
  {
  }

  function Tab(v: bv8): bv64 {
    RowLengths();
    ROWS[(v >> 4) as int][(v & 15) as int]
  }

  // ---- Division, one bit at a time ----

  /** The register after a bit that is zero. */
  function Bit1(c: bv64): bv64 {
    if c & 1 == 1 then (c >> 1) ^ REFLECTED else c >> 1
  }

  function Bit2(c: bv64): bv64 { Bit1(Bit1(c)) }

  function Bit4(c: bv64): bv64 { Bit2(Bit2(c)) }

  function Bit8(c: bv64): bv64 { Bit4(Bit4(c)) }

  /** The register after one bit of the message. */
  function Feed(c: bv64, bit: bool): bv64 {
    if (c & 1 == 1) != bit then (c >> 1) ^ REFLECTED else c >> 1
  }

  /** The register after the n low bits of b, the lowest first. */
  function FeedBits(c: bv64, b: bv64, n: nat): bv64
    decreases n
  {
    if n == 0 then c else FeedBits(Feed(c, b & 1 == 1), b >> 1, n - 1)
  }

  function FeedByte(c: bv64, b: bv8): bv64 {
    FeedBits(c, b as bv64, 8)
  }

  /** The checksum: the remainder of a reflected division, one bit of the message at a time. */
  function Divide(crc: bv64, s: seq<byte>): bv64 {
    if s == [] then crc else FeedByte(Divide(crc, s[..|s| - 1]), s[|s| - 1] as bv8)
  }

  function Swap(x: bv64, mask: bv64, n: bv8): bv64
    requires n <= 64
  {
    ((x >> n) & mask) | ((x & mask) << n)
  }

  /** The bits of x in the opposite order. */
  function Reverse(x: bv64): bv64 {
    var x1 := Swap(x, 0x5555555555555555, 1);
    var x2 := Swap(x1, 0x3333333333333333, 2);
    var x4 := Swap(x2, 0x0f0f0f0f0f0f0f0f, 4);
    var x8 := Swap(x4, 0x00ff00ff00ff00ff, 8);
    var x16 := Swap(x8, 0x0000ffff0000ffff, 16);
    Swap(x16, 0x00000000ffffffff, 32)
  }

  lemma ReflectedIsReversed()
    ensures Reverse(POLY) == REFLECTED
  {
  }

  // ---- Sums of registers ----

  function Xor(x: bv64, y: bv64): bv64 { x ^ y }

  lemma XorBasics(x: bv64, y: bv64)
    ensures Xor(x, y) == Xor(y, x) && Xor(x, x) == 0 && Xor(x, 0) == x
    ensures Xor(x, y) == 0 ==> x == y
  {
  }

  lemma RawAssoc(x: bv64, y: bv64, z: bv64)
    ensures (x ^ y) ^ z == x ^ (y ^ z)
  {
  }

  lemma LeftIs(x: bv64, y: bv64, z: bv64)
    ensures Xor(Xor(x, y), z) == (x ^ y) ^ z
  {
  }

  lemma RightIs(x: bv64, y: bv64, z: bv64)
    ensures Xor(x, Xor(y, z)) == x ^ (y ^ z)
  {
  }

  lemma XorAssoc(x: bv64, y: bv64, z: bv64)
    ensures Xor(Xor(x, y), z) == Xor(x, Xor(y, z))
  {
    hide *;
    LeftIs(x, y, z);
    RightIs(x, y, z);
    RawAssoc(x, y, z);
  }

  /** (x + y) + (z + w) == (x + z) + (y + w) */
  lemma XorMiddle(x: bv64, y: bv64, z: bv64, w: bv64)
    ensures Xor(Xor(x, y), Xor(z, w)) == Xor(Xor(x, z), Xor(y, w))
  {
    hide *;
    XorAssoc(x, y, Xor(z, w));
    XorAssoc(y, z, w);
    XorBasics(y, z);
    XorAssoc(z, y, w);
    XorAssoc(x, z, Xor(y, w));
  }

  lemma RawShift(x: bv64, y: bv64)
    ensures (x ^ y) >> 1 == (x >> 1) ^ (y >> 1)
  {
  }

  lemma XorIs(x: bv64, y: bv64)
    ensures Xor(x, y) == x ^ y
  {
  }

  lemma ShiftXor(x: bv64, y: bv64)
    ensures Xor(x, y) >> 1 == Xor(x >> 1, y >> 1)
  {
    hide *;
    RawShift(x, y);
    XorIs(x, y);
    XorIs(x >> 1, y >> 1);
  }

  lemma OddXor(x: bv64, y: bv64)
    ensures (Xor(x, y) & 1 == 1) <==> ((x & 1 == 1) != (y & 1 == 1))
  {
  }

  /** What is added to the shifted register. */
  function Term(odd: bool): bv64 {
    if odd then REFLECTED else 0
  }

  lemma TermSum(a: bool, b: bool)
    ensures Xor(Term(a), Term(b)) == Term(a != b)
  {
    XorBasics(REFLECTED, 0);
    XorBasics(0, REFLECTED);
    XorBasics(0, 0);
    hide Xor;
  }

  lemma XorTerm(y: bv64, odd: bool)
    ensures Xor(y, Term(odd)) == if odd then y ^ REFLECTED else y
  {
    hide Xor;
    XorBasics(y, 0);
    XorIs(y, REFLECTED);
  }

  lemma Bit1Is(x: bv64)
    ensures Bit1(x) == Xor(x >> 1, Term(x & 1 == 1))
  {
    hide Xor, Term;
    XorTerm(x >> 1, x & 1 == 1);
  }

  lemma Bit1Linear(x: bv64, y: bv64)
    ensures Bit1(Xor(x, y)) == Xor(Bit1(x), Bit1(y))
  {
    hide *;
    OddXor(x, y);
    ShiftXor(x, y);
    Bit1Is(x);
    Bit1Is(y);
    Bit1Is(Xor(x, y));
    TermSum(x & 1 == 1, y & 1 == 1);
    XorMiddle(x >> 1, Term(x & 1 == 1), y >> 1, Term(y & 1 == 1));
  }

  lemma Bit8Linear(x: bv64, y: bv64)
    ensures Bit8(Xor(x, y)) == Xor(Bit8(x), Bit8(y))
  {
    hide Xor, Bit1;
    Bit1Linear(x, y);
    Bit1Linear(Bit1(x), Bit1(y));
    Bit1Linear(Bit2(x), Bit2(y));
    Bit1Linear(Bit1(Bit2(x)), Bit1(Bit2(y)));
    Bit1Linear(Bit4(x), Bit4(y));
    Bit1Linear(Bit1(Bit4(x)), Bit1(Bit4(y)));
    Bit1Linear(Bit2(Bit4(x)), Bit2(Bit4(y)));
    Bit1Linear(Bit1(Bit2(Bit4(x))), Bit1(Bit2(Bit4(y))));
  }

  /** A register whose low bits are zero is only shifted. */
  lemma Bit8Shifts(x: bv64)
    requires x & 0xff == 0
    ensures Bit8(x) == x >> 8
  {
    assert Bit1(x) == x >> 1;
    assert Bit1(x >> 1) == x >> 2;
    assert Bit1(x >> 2) == x >> 3;
    assert Bit1(x >> 3) == x >> 4;
    assert Bit1(x >> 4) == x >> 5;
    assert Bit1(x >> 5) == x >> 6;
    assert Bit1(x >> 6) == x >> 7;
    assert Bit1(x >> 7) == x >> 8;
    hide Bit1;
  }

  // ---- The table ----

  predicate FitsAt(row: seq<bv64>, j: nat) {
    |row| == 16 && j < |ROW0| && j < |row| && row[j] == row[0] ^ ROW0[j]
  }

  /** The row is row 0 shifted by its first entry. */
  predicate IsShifted(row: seq<bv64>) {
    && FitsAt(row, 0) && FitsAt(row, 1) && FitsAt(row, 2) && FitsAt(row, 3)
    && FitsAt(row, 4) && FitsAt(row, 5) && FitsAt(row, 6) && FitsAt(row, 7)
    && FitsAt(row, 8) && FitsAt(row, 9) && FitsAt(row, 10) && FitsAt(row, 11)
    && FitsAt(row, 12) && FitsAt(row, 13) && FitsAt(row, 14) && FitsAt(row, 15)
  }

  lemma ShiftedAt(row: seq<bv64>, j: nat)
    requires IsShifted(row) && j < 16
    ensures FitsAt(row, j)
  {
    hide FitsAt;
  }

  lemma FitsMeans(row: seq<bv64>, j: nat)
    requires FitsAt(row, j)
    ensures |row| == 16 && j < 16 && |ROW0| == 16 && row[j] == Xor(row[0], ROW0[j])
  {
  }

  lemma Rows0To3()
    ensures IsShifted(ROW0) && IsShifted(ROW1) && IsShifted(ROW2) && IsShifted(ROW3)
  {
  }

  lemma Rows4To7()
    ensures IsShifted(ROW4) && IsShifted(ROW5) && IsShifted(ROW6) && IsShifted(ROW7)
  {
  }

  lemma Rows8To11()
    ensures IsShifted(ROW8) && IsShifted(ROW9) && IsShifted(ROW10) && IsShifted(ROW11)
  {
  }

  lemma Rows12To15()
    ensures IsShifted(ROW12) && IsShifted(ROW13) && IsShifted(ROW14) && IsShifted(ROW15)
  {
  }

  lemma RowShifted(i: nat)
    requires i < 16
    ensures |ROWS| == 16 && IsShifted(ROWS[i])
  {
    Rows0To3();
    Rows4To7();
    Rows8To11();
    Rows12To15();
    hide IsShifted;
  }

  lemma LowEntry(l: bv8)
    requires l < 8
    ensures ROW0[l as int] == Bit8(l as bv64)
  {
    if l == 0 {} else if l == 1 {} else if l == 2 {} else if l == 3 {}
    else if l == 4 {} else if l == 5 {} else if l == 6 {} else {}
  }

  lemma MiddleEntry(l: bv8)
    requires 8 <= l < 16
    ensures ROW0[l as int] == Bit8(l as bv64)
  {
    if l == 8 {} else if l == 9 {} else if l == 10 {} else if l == 11 {}
    else if l == 12 {} else if l == 13 {} else if l == 14 {} else {}
  }

  lemma LowHead(h: bv8)
    requires h < 8
    ensures |ROWS| == 16 && |ROWS[h as int]| == 16 && ROWS[h as int][0] == Bit8((h as bv64) << 4)
  {
    if h == 0 {} else if h == 1 {} else if h == 2 {} else if h == 3 {}
    else if h == 4 {} else if h == 5 {} else if h == 6 {} else {}
  }

  lemma HighHead(h: bv8)
    requires 8 <= h < 16
    ensures |ROWS| == 16 && |ROWS[h as int]| == 16 && ROWS[h as int][0] == Bit8((h as bv64) << 4)
  {
    if h == 8 {} else if h == 9 {} else if h == 10 {} else if h == 11 {}
    else if h == 12 {} else if h == 13 {} else if h == 14 {} else {}
  }

  lemma Head(h: bv8)
    requires h < 16
    ensures |ROWS| == 16 && |ROWS[h as int]| == 16 && ROWS[h as int][0] == Bit8((h as bv64) << 4)
  {
    hide *;
    if h < 8 { LowHead(h); } else { HighHead(h); }
  }

  lemma Entry(l: bv8)
    requires l < 16
    ensures ROW0[l as int] == Bit8(l as bv64)
  {
    hide Bit8;
    if l < 8 { LowEntry(l); } else { MiddleEntry(l); }
  }

  function HeadOf(h: bv8): bv64
    requires h < 16
  {
    RowLengths();
    ROWS[h as int][0]
  }

  function EntryOf(l: bv8): bv64
    requires l < 16
  {
    ROW0[l as int]
  }

  lemma TabParts(v: bv8)
    ensures Tab(v) == Xor(HeadOf(v >> 4), EntryOf(v & 15))
  {
    hide IsShifted, FitsAt, Xor, ROW0, ROWS;
    RowShifted((v >> 4) as int);
    ShiftedAt(ROWS[(v >> 4) as int], (v & 15) as int);
    FitsMeans(ROWS[(v >> 4) as int], (v & 15) as int);
  }

  lemma PartsAre(h: bv8, l: bv8)
    requires h < 16 && l < 16
    ensures HeadOf(h) == Bit8((h as bv64) << 4) && EntryOf(l) == Bit8(l as bv64)
  {
    hide Bit8;
    Head(h);
    Entry(l);
  }

  lemma EntryIs(v: bv8)
    ensures Tab(v) == Xor(Bit8(((v >> 4) as bv64) << 4), Bit8((v & 15) as bv64))
  {
    hide *;
    TabParts(v);
    PartsAre(v >> 4, v & 15);
  }

  lemma Nibbles(v: bv8)
    ensures (((v >> 4) as bv64) << 4) ^ ((v & 15) as bv64) == v as bv64
  {
  }

  /** The table holds the registers after eight bits. */
  lemma TabIsBit8(v: bv8)
    ensures Tab(v) == Bit8(v as bv64)
  {
    hide *;
    EntryIs(v);
    Nibbles(v);
    XorIs(((v >> 4) as bv64) << 4, (v & 15) as bv64);
    Bit8Linear(((v >> 4) as bv64) << 4, (v & 15) as bv64);
  }

  /** One round of the loop at redis-stable/src/crc64.c:176-179. */
  function Step(crc: bv64, b: bv8): bv64 {
    Tab(((crc & 0xff) as bv8) ^ b) ^ (crc >> 8)
  }

  lemma SplitRegister(crc: bv64, b: bv8)
    ensures var v := ((crc & 0xff) as bv8) ^ b;
            var hi := crc & 0xffffffffffffff00;
            (v as bv64) ^ hi == crc ^ (b as bv64) && hi & 0xff == 0 && hi >> 8 == crc >> 8
  {
  }

  lemma StepIs(crc: bv64, b: bv8)
    ensures Step(crc, b) == Xor(Tab(((crc & 0xff) as bv8) ^ b), crc >> 8)
  {
    XorIs(Tab(((crc & 0xff) as bv8) ^ b), crc >> 8);
    hide Tab, Xor;
  }

  lemma RegisterSum(crc: bv64, b: bv8)
    ensures Xor((((crc & 0xff) as bv8) ^ b) as bv64, crc & 0xffffffffffffff00) == Xor(crc, b as bv64)
  {
    hide *;
    SplitRegister(crc, b);
    XorIs((((crc & 0xff) as bv8) ^ b) as bv64, crc & 0xffffffffffffff00);
    XorIs(crc, b as bv64);
  }

  lemma HighPart(crc: bv64, b: bv8)
    ensures Bit8(crc & 0xffffffffffffff00) == crc >> 8
  {
    hide *;
    SplitRegister(crc, b);
    Bit8Shifts(crc & 0xffffffffffffff00);
  }

  lemma StepIsBit8(crc: bv64, b: bv8)
    ensures Step(crc, b) == Bit8(Xor(crc, b as bv64))
  {
    hide *;
    StepIs(crc, b);
    TabIsBit8(((crc & 0xff) as bv8) ^ b);
    HighPart(crc, b);
    RegisterSum(crc, b);
    Bit8Linear((((crc & 0xff) as bv8) ^ b) as bv64, crc & 0xffffffffffffff00);
  }

  // ---- A byte is eight bits ----

  function BitN(x: bv64, n: nat): bv64
    decreases n
  {
    if n == 0 then x else BitN(Bit1(x), n - 1)
  }

  function ShiftN(b: bv64, n: nat): bv64
    decreases n
  {
    if n == 0 then b else ShiftN(b >> 1, n - 1)
  }

  lemma FeedIs(c: bv64, bit: bool)
    ensures Feed(c, bit) == Xor(c >> 1, Term((c & 1 == 1) != bit))
  {
    hide Xor, Term;
    XorTerm(c >> 1, (c & 1 == 1) != bit);
  }

  lemma LowBit(c: bv64, b: bv64)
    ensures Bit1(Xor(c, b)) == Xor(Feed(c, b & 1 == 1), b >> 1)
  {
    hide *;
    Bit1Is(Xor(c, b));
    FeedIs(c, b & 1 == 1);
    OddXor(c, b);
    ShiftXor(c, b);
    var odd := (c & 1 == 1) != (b & 1 == 1);
    XorAssoc(c >> 1, b >> 1, Term(odd));
    XorBasics(b >> 1, Term(odd));
    XorAssoc(c >> 1, Term(odd), b >> 1);
  }

  lemma {:induction false} FeedBitsIs(c: bv64, b: bv64, n: nat)
    ensures BitN(Xor(c, b), n) == Xor(FeedBits(c, b, n), ShiftN(b, n))
    decreases n
  {
    hide Xor, Bit1, Feed;
    if n > 0 {
      LowBit(c, b);
      FeedBitsIs(Feed(c, b & 1 == 1), b >> 1, n - 1);
    }
  }

  lemma EightShifts(b: bv8)
    ensures ShiftN(b as bv64, 8) == 0
  {
    var x := b as bv64;
    assert ShiftN(x, 8) == ShiftN(x >> 1 >> 1 >> 1 >> 1, 4);
    assert ShiftN(x >> 1 >> 1 >> 1 >> 1, 4) == x >> 1 >> 1 >> 1 >> 1 >> 1 >> 1 >> 1 >> 1;
  }

  lemma EightBits(x: bv64)
    ensures BitN(x, 8) == Bit8(x)
  {
    hide Bit1;
    assert BitN(x, 8) == BitN(Bit4(x), 4);
  }

  lemma FeedByteIsBit8(c: bv64, b: bv8)
    ensures FeedByte(c, b) == Bit8(Xor(c, b as bv64))
  {
    assert FeedByte(c, b) == FeedBits(c, b as bv64, 8);
    hide *;
    FeedBitsIs(c, b as bv64, 8);
    EightShifts(b);
    EightBits(Xor(c, b as bv64));
    XorBasics(FeedBits(c, b as bv64, 8), 0);
  }

  function Wide(b: byte): bv64 {
    (b as bv8) as bv64
  }

  lemma DivideLast(c: bv64, s: seq<byte>, b: byte)
    ensures Divide(c, s + [b]) == FeedByte(Divide(c, s), b as bv8)
  {
    hide FeedByte;
    assert (s + [b])[..|s|] == s;
  }

  lemma WideIs(b: byte)
    ensures Wide(b) == (b as bv8) as bv64
  {
  }

  lemma DivideSnoc(c: bv64, s: seq<byte>, b: byte)
    ensures Divide(c, s + [b]) == Bit8(Xor(Divide(c, s), Wide(b)))
  {
    hide *;
    DivideLast(c, s, b);
    WideIs(b);
    FeedByteIsBit8(Divide(c, s), b as bv8);
  }

  lemma DivideNext(c: bv64, s: seq<byte>, j: nat)
    requires j < |s|
    ensures Divide(c, s[..j + 1]) == Step(Divide(c, s[..j]), s[j] as bv8)
  {
    assert s[..j + 1] == s[..j] + [s[j]];
    assert Wide(s[j]) == (s[j] as bv8) as bv64;
    hide *;
    DivideSnoc(c, s[..j], s[j]);
    StepIsBit8(Divide(c, s[..j]), s[j] as bv8);
  }

  lemma StepFormula(r: bv64, b: bv8)
    ensures Step(r, b) == Tab(((r & 0xff) as bv8) ^ b) ^ (r >> 8)
  {
    hide Tab;
  }

  lemma DivideNone(c: bv64)
    ensures Divide(c, []) == c
  {
  }

  /** crc64: the table-driven loop computes the remainder of the bitwise division. */
  method Crc64(crc: bv64, s: seq<byte>) returns (r: bv64)
    ensures r == Divide(crc, s)
  {
    hide *;
    r := crc;
    var j := 0;
    DivideNone(crc);
    assert s[..0] == [];
    while j < |s|
      invariant j <= |s| && r == Divide(crc, s[..j])
    {
      var b := s[j] as bv8;
      DivideNext(crc, s, j);
      StepFormula(r, b);
      r := Tab(((r & 0xff) as bv8) ^ b) ^ (r >> 8);
      j := j + 1;
    }
    assert s[..j] == s;
  }

  // ---- What changes it detects ----

  lemma {:induction false} DivideAppend(c: bv64, s: seq<byte>, t: seq<byte>)
    ensures Divide(c, s + t) == Divide(Divide(c, s), t)
    decreases |t|
  {
    hide *;
    if t == [] {
      assert s + t == s;
      DivideNone(Divide(c, s));
    } else {
      var n := |t| - 1;
      DivideAppend(c, s, t[..n]);
      assert s + t == (s + t[..n]) + [t[n]] && t == t[..n] + [t[n]];
      DivideSnoc(c, s + t[..n], t[n]);
      DivideSnoc(Divide(c, s), t[..n], t[n]);
    }
  }

  lemma Bit1Back(x: bv64)
    requires Bit1(x) & 0x8000000000000000 == 0
    ensures x == Bit1(x) << 1
  {
  }

  lemma Bit2Back(x: bv64)
    requires Bit2(x) & 0xc000000000000000 == 0
    ensures x == Bit2(x) << 2
  {
    hide Bit1;
    Bit1Back(Bit1(x));
    Bit1Back(x);
  }

  lemma Bit4Back(x: bv64)
    requires Bit4(x) & 0xf000000000000000 == 0
    ensures x == Bit4(x) << 4
  {
    hide Bit2;
    Bit2Back(Bit2(x));
    Bit2Back(x);
  }

  /** A register whose high bits are zero came from one that was only shifted. */
  lemma Bit8Back(x: bv64)
    requires Bit8(x) & 0xff00000000000000 == 0
    ensures x == Bit8(x) << 8
  {
    hide Bit4;
    Bit4Back(Bit4(x));
    Bit4Back(x);
  }

  /** Two registers that a byte makes equal differed by what the bytes differ. */
  lemma SameAfter(x: bv64, y: bv64)
    requires Bit8(x) == Bit8(y)
    ensures x == y
  {
    hide *;
    Bit8Linear(x, y);
    XorBasics(Bit8(x), Bit8(y));
    Bit8Back(Xor(x, y));
    XorBasics(x, y);
  }

  /** The register can be recovered from the checksum and the bytes. */
  lemma {:induction false} DivideInjective(x: bv64, y: bv64, s: seq<byte>)
    requires Divide(x, s) == Divide(y, s)
    ensures x == y
    decreases |s|
  {
    hide *;
    if s == [] {
      DivideNone(x);
      DivideNone(y);
    } else {
      var n := |s| - 1;
      var b := Wide(s[n]);
      assert s == s[..n] + [s[n]];
      DivideSnoc(x, s[..n], s[n]);
      DivideSnoc(y, s[..n], s[n]);
      SameAfter(Xor(Divide(x, s[..n]), b), Xor(Divide(y, s[..n]), b));
      XorBoth(Divide(x, s[..n]), Divide(y, s[..n]), b);
      DivideInjective(x, y, s[..n]);
    }
  }

  lemma XorBoth(x: bv64, y: bv64, b: bv64)
    requires Xor(x, b) == Xor(y, b)
    ensures x == y
  {
    hide *;
    XorMiddle(x, b, y, b);
    XorBasics(b, b);
    XorBasics(Xor(x, b), Xor(x, b));
    XorBasics(Xor(x, y), 0);
    XorBasics(x, y);
  }

  function Diff(a: byte, b: byte): bv8 {
    (a as bv8) ^ (b as bv8)
  }

  function Join(d: bv8, w: bv64): bv64 {
    (d as bv64) | (w << 8)
  }

  /** The bytes in which two strings differ, as one word, the first byte lowest. */
  function Word(u: seq<byte>, v: seq<byte>): bv64
    requires |u| == |v|
    decreases |u|
  {
    if u == [] then 0 else Join(Diff(u[0], v[0]), Word(u[1..], v[1..]))
  }

  /** The bits that n bytes fill. */
  function Mask(n: nat): bv64
    decreases n
  {
    if n == 0 then 0 else Join(0xff, Mask(n - 1))
  }

  predicate Within(w: bv64, mask: bv64) {
    w & mask == w
  }

  lemma MaskGrows(d: bv8, w: bv64, m: bv64)
    requires Within(w, m)
    ensures Within(Join(d, w), Join(0xff, m))
  {
  }

  lemma {:induction false} WordFits(u: seq<byte>, v: seq<byte>)
    requires |u| == |v|
    ensures Within(Word(u, v), Mask(|u|))
    decreases |u|
  {
    if u == [] {
      assert Within(0, 0);
    } else {
      hide Join, Within, Diff;
      WordFits(u[1..], v[1..]);
      MaskGrows(Diff(u[0], v[0]), Word(u[1..], v[1..]), Mask(|u| - 1));
    }
  }

  lemma SmallMask(n: nat)
    requires n < 8
    ensures Mask(n) & 0xff00000000000000 == 0
  {
    assert Mask(4) == 0xffffffff;
    if n == 7 {} else if n == 6 {} else if n == 5 {} else if n == 4 {}
    else if n == 3 {} else if n == 2 {} else if n == 1 {} else {}
  }

  lemma SmallWord(w: bv64, mask: bv64)
    requires Within(w, mask) && mask & 0xff00000000000000 == 0
    ensures w & 0xff00000000000000 == 0
  {
  }

  lemma BackByte(x: bv64, d: bv8, w: bv64)
    requires Bit8(Xor(x, d as bv64)) == w && w & 0xff00000000000000 == 0
    ensures x == Join(d, w)
  {
    var y := Xor(x, d as bv64);
    Bit8Back(y);
    XorIs(x, d as bv64);
    hide Bit8, Xor;
  }

  lemma DivideHead(c: bv64, s: seq<byte>)
    requires s != []
    ensures Divide(c, s) == Divide(Bit8(Xor(c, Wide(s[0]))), s[1..])
  {
    hide *;
    assert s == [s[0]] + s[1..] && [s[0]] == [] + [s[0]];
    DivideAppend(c, [s[0]], s[1..]);
    DivideSnoc(c, [], s[0]);
    DivideNone(c);
  }

  lemma WideDiff(a: byte, b: byte)
    ensures Xor(Wide(a), Wide(b)) == Diff(a, b) as bv64
  {
  }

  lemma DiffStep(x: bv64, y: bv64, a: byte, b: byte)
    ensures Xor(Bit8(Xor(x, Wide(a))), Bit8(Xor(y, Wide(b)))) == Bit8(Xor(Xor(x, y), Diff(a, b) as bv64))
  {
    hide *;
    Bit8Linear(Xor(x, Wide(a)), Xor(y, Wide(b)));
    XorMiddle(x, Wide(a), y, Wide(b));
    WideDiff(a, b);
  }

  /** At most eight bytes that lead two registers to the same one differ by just what the registers differ. */
  lemma {:induction false} RegistersDiffer(x: bv64, y: bv64, u: seq<byte>, v: seq<byte>)
    requires |u| == |v| <= 8 && Divide(x, u) == Divide(y, v)
    ensures Xor(x, y) == Word(u, v)
    decreases |u|
  {
    if u == [] {
      DivideNone(x);
      DivideNone(y);
      hide Divide;
    } else {
      var x1, y1 := Bit8(Xor(x, Wide(u[0]))), Bit8(Xor(y, Wide(v[0])));
      assert Word(u, v) == Join(Diff(u[0], v[0]), Word(u[1..], v[1..]));
      hide *;
      DivideHead(x, u);
      DivideHead(y, v);
      RegistersDiffer(x1, y1, u[1..], v[1..]);
      WordFits(u[1..], v[1..]);
      SmallMask(|u| - 1);
      SmallWord(Word(u[1..], v[1..]), Mask(|u| - 1));
      DiffStep(x, y, u[0], v[0]);
      BackByte(Xor(x, y), Diff(u[0], v[0]), Word(u[1..], v[1..]));
    }
  }

  /** The bits of a byte, built from the highest down. */
  function Bits(b: byte): bv8
    decreases b
  {
    if b == 0 then 0 else (Bits(b / 2) << 1) | (if b % 2 == 1 then 1 else 0)
  }

  lemma TwiceIs(h: bv8, odd: bool)
    requires h < 128
    ensures ((h << 1) | (if odd then 1 else 0)) as int == 2 * (h as int) + (if odd then 1 else 0)
  {
  }

  lemma {:induction false} BitsAre(b: byte)
    ensures Bits(b) as int == b
    decreases b
  {
    if b > 0 {
      BitsAre(b / 2);
      TwiceIs(Bits(b / 2), b % 2 == 1);
    }
  }

  lemma FromInt(n: int, v: bv8)
    requires 0 <= n < 256 && n == v as int
    ensures n as bv8 == v
  {
  }

  lemma ByteIsByte(b: byte)
    ensures (b as bv8) as int == b
  {
    BitsAre(b);
    FromInt(b, Bits(b));
    hide Bits;
  }

  lemma NoDiff(a: byte, b: byte)
    requires Diff(a, b) == 0
    ensures a == b
  {
    assert a as bv8 == b as bv8;
    hide Diff;
    ByteIsByte(a);
    ByteIsByte(b);
  }

  lemma JoinZero(d: bv8, w: bv64)
    requires Join(d, w) == 0 && w & 0xff00000000000000 == 0
    ensures d == 0 && w == 0
  {
  }

  lemma {:induction false} SameWord(u: seq<byte>, v: seq<byte>)
    requires |u| == |v| <= 8 && Word(u, v) == 0
    ensures u == v
    decreases |u|
  {
    if u != [] {
      assert Word(u, v) == Join(Diff(u[0], v[0]), Word(u[1..], v[1..]));
      hide *;
      WordFits(u[1..], v[1..]);
      SmallMask(|u| - 1);
      SmallWord(Word(u[1..], v[1..]), Mask(|u| - 1));
      JoinZero(Diff(u[0], v[0]), Word(u[1..], v[1..]));
      NoDiff(u[0], v[0]);
      SameWord(u[1..], v[1..]);
      assert u == [u[0]] + u[1..] && v == [v[0]] + v[1..];
    }
  }

  /** Strings of the same length that differ only within eight consecutive bytes have different checksums. */
  lemma BurstChangesChecksum(crc: bv64, p: seq<byte>, u: seq<byte>, v: seq<byte>, q: seq<byte>)
    requires |u| == |v| <= 8 && u != v
    ensures Divide(crc, p + u + q) != Divide(crc, p + v + q)
  {
    hide *;
    var c := Divide(crc, p);
    DivideAppend(crc, p, u);
    DivideAppend(crc, p, v);
    DivideAppend(crc, p + u, q);
    DivideAppend(crc, p + v, q);
    if Divide(crc, p + u + q) == Divide(crc, p + v + q) {
      DivideInjective(Divide(c, u), Divide(c, v), q);
      RegistersDiffer(c, c, u, v);
      XorBasics(c, c);
      SameWord(u, v);
      assert false;
    }
  }
}
