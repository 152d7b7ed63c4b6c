/** Loading what was saved: lengths, strings, objects and whole files (redis-stable/src/rdb.c). */
module RdbRoundTrip {
  import opened Bytes
  import opened Decimal
  import opened LittleEndian
  import opened Objects
  import opened Keyspaces
  import opened RdbSpec
  import LzfFormat
  import Crc64

  // ---- Lengths ----

  lemma FourBytes(len: nat)
    requires len < 0x1_0000_0000
    ensures len / 0x100_0000 < 256
    ensures len / 0x100_0000 * 0x100_0000 + len / 0x1_0000 % 256 * 0x1_0000 + len / 256 % 256 * 256 + len % 256 == len
  {
  }

  lemma LoadLong(b1: byte, b2: byte, b3: byte, b4: byte, tail: seq<byte>)
    ensures var n: nat := b1 * 0x100_0000 + b2 * 0x1_0000 + b3 * 256 + b4;
            LoadLen([128, b1, b2, b3, b4] + tail) == if n == LENERR then None else Some(Length(n, false, tail))
  {
    assert ([128, b1, b2, b3, b4] + tail)[5..] == tail;
  }

  lemma LongLength(len: nat, tail: seq<byte>)
    requires 16384 <= len < 0x1_0000_0000
    ensures LoadLen(SaveLen(len) + tail) == if len == LENERR then None else Some(Length(len, false, tail))
  {
    FourBytes(len);
    assert SaveLen(len) == [128, len / 0x100_0000, len / 0x1_0000 % 256, len / 256 % 256, len % 256];
    hide SaveLen, LoadLen;
    LoadLong(len / 0x100_0000, len / 0x1_0000 % 256, len / 256 % 256, len % 256, tail);
  }

  lemma ShortLength(len: nat, tail: seq<byte>)
    requires len < 16384
    ensures LoadLen(SaveLen(len) + tail) == Some(Length(len, false, tail))
  {
    var s := SaveLen(len) + tail;
    if len < 64 {
      assert s[1..] == tail;
    } else {
      assert s[2..] == tail;
    }
  }

  lemma Truncates(n: nat)
    ensures SaveLen(n) == SaveLen(n % 0x1_0000_0000)
  {
    var m := n % 0x1_0000_0000;
    assert m % 0x1_0000_0000 == m;
  }

  /** A length is loaded as it was saved exactly if it is below REDIS_RDB_LENERR. */
  lemma LengthRoundTrip(n: nat, tail: seq<byte>)
    ensures LoadLen(SaveLen(n) + tail) == Some(Length(n, false, tail)) <==> n < LENERR
  {
    var len := n % 0x1_0000_0000;
    Truncates(n);
    hide SaveLen, LoadLen;
    if len < 16384 { ShortLength(len, tail); } else { LongLength(len, tail); }
  }

  // ---- Strings ----

  predicate FitsInt(v: int) {
    -0x8000_0000 <= v < 0x8000_0000
  }

  /** An integer encoding stands for the decimal text of the value. */
  lemma IntegerRoundTrip(v: int, tail: seq<byte>)
    requires FitsInt(v)
    ensures EncodeInteger(v) != [] && LoadString(EncodeInteger(v) + tail) == Some(Loaded(Ll2String(v), tail))
  {
    Widths();
    hide LeBytes, FromLe, Ll2String, Pow256;
    var s := EncodeInteger(v) + tail;
    if -0x80 <= v < 0x80 {
      SignedRoundTrip(v, 1, 0x80, tail);
      assert s[1..] == LeBytes(v, 1) + tail;
    } else if -0x8000 <= v < 0x8000 {
      SignedRoundTrip(v, 2, 0x8000, tail);
      assert s[1..] == LeBytes(v, 2) + tail;
    } else {
      SignedRoundTrip(v, 4, 0x8000_0000, tail);
      assert s[1..] == LeBytes(v, 4) + tail;
    }
  }

  lemma VerbatimRoundTrip(s: seq<byte>, tail: seq<byte>)
    requires |s| < LENERR
    ensures LoadString((SaveLen(|s|) + s) + tail) == Some(Loaded(s, tail))
  {
    LengthRoundTrip(|s|, s + tail);
    hide SaveLen, LoadLen;
    assert (SaveLen(|s|) + s) + tail == SaveLen(|s|) + (s + tail);
    assert (s + tail)[..|s|] == s && (s + tail)[|s|..] == tail;
  }

  lemma LzfParts(s: seq<byte>, c: seq<byte>, tail: seq<byte>)
    ensures var bytes := LzfSaved(s, c) + tail;
            bytes[0] == 195 && bytes[1..] == SaveLen(|c|) + (SaveLen(|s|) + (c + tail))
  {
    hide SaveLen;
  }

  lemma LoadsLzf(s: seq<byte>, c: seq<byte>, tail: seq<byte>)
    requires Compressed(s, c) && |s| < LENERR
    ensures LoadLzf(SaveLen(|c|) + (SaveLen(|s|) + (c + tail))) == Some(Loaded(s, tail))
  {
    LengthRoundTrip(|c|, SaveLen(|s|) + (c + tail));
    LengthRoundTrip(|s|, c + tail);
    hide SaveLen, LoadLen, LzfFormat.Decode;
    assert (c + tail)[..|c|] == c && (c + tail)[|c|..] == tail;
    assert Filled(s, |s|) == s;
  }

  lemma LzfRoundTrip(s: seq<byte>, c: seq<byte>, tail: seq<byte>)
    requires Compressed(s, c) && |s| < LENERR
    ensures LoadString(LzfSaved(s, c) + tail) == Some(Loaded(s, tail))
  {
    LzfParts(s, c, tail);
    LoadsLzf(s, c, tail);
    var bytes := LzfSaved(s, c) + tail;
    assert LoadLen(bytes) == Some(Length(3, true, bytes[1..]));
    hide SaveLen, LoadLen, LoadLzf, LzfSaved, Compressed;
  }

  lemma StrtollOfText(v: int)
    requires LLONG_MIN <= v <= LLONG_MAX
    ensures Strtoll(Ll2String(v)) == (v, |Ll2String(v)|)
  {
    StrtollReadsBack(v, []);
    assert Ll2String(v) + [] == Ll2String(v);
    hide Ll2String, Strtoll;
  }

  /** A string takes an integer encoding exactly if it is the decimal text of a value of 32 bits. */
  lemma IntegerEncodingIff(s: seq<byte>)
    ensures TryIntegerEncoding(s) != [] <==> exists v :: FitsInt(v) && s == Ll2String(v)
    ensures forall v :: FitsInt(v) && s == Ll2String(v) ==> TryIntegerEncoding(s) == EncodeInteger(v)
    ensures TryIntegerEncoding(s) != [] ==> FitsInt(Strtoll(s).0) && s == Ll2String(Strtoll(s).0)
  {
    forall v | FitsInt(v) && s == Ll2String(v)
      ensures TryIntegerEncoding(s) == EncodeInteger(v) != []
    {
      StrtollOfText(v);
      hide Ll2String, Strtoll;
    }
    hide Ll2String, Strtoll;
  }

  lemma RawRoundTrip(s: seq<byte>, bytes: seq<byte>, tail: seq<byte>)
    requires RawSaved(s, bytes) && |s| < LENERR
    ensures LoadString(bytes + tail) == Some(Loaded(s, tail))
  {
    var v := Strtoll(s).0;
    IntegerEncodingIff(s);
    var enc := if |s| <= 11 then TryIntegerEncoding(s) else [];
    assert enc != [] ==> FitsInt(v) && s == Ll2String(v) && bytes == EncodeInteger(v);
    hide TryIntegerEncoding, EncodeInteger, LoadString, SaveLen, Compressed, LzfSaved, Ll2String, Strtoll;
    if enc != [] {
      IntegerRoundTrip(v, tail);
    } else if bytes == SaveLen(|s|) + s {
      VerbatimRoundTrip(s, tail);
    } else {
      var c :| Compressed(s, c) && bytes == LzfSaved(s, c);
      LzfRoundTrip(s, c, tail);
    }
  }

  /** The text of a string that can be saved: its length fits, and integers are values of a long. */
  predicate StrOk(s: Str) {
    match s
    case Int(n) => LLONG_MIN <= n <= LLONG_MAX
    case Raw(b) => |b| < LENERR
  }

  /** Whichever encoding is chosen, loading gives the text back and reads just what was written. */
  lemma StringRoundTrip(s: Str, bytes: seq<byte>, tail: seq<byte>)
    requires StrSaved(s, bytes) && StrOk(s)
    ensures LoadString(bytes + tail) == Some(Loaded(Text(s), tail))
  {
    match s
    case Raw(b) =>
      hide RawSaved, LoadString;
      RawRoundTrip(b, bytes, tail);
    case Int(n) =>
      TextFits(n);
      hide LoadString, SaveLen, Ll2String;
      if FitsInt(n) {
        IntegerRoundTrip(n, tail);
      } else {
        VerbatimRoundTrip(Ll2String(n), tail);
      }
  }

  // ---- Objects ----

  lemma Split(bytes: seq<byte>, k: nat, tail: seq<byte>)
    requires k <= |bytes|
    ensures bytes + tail == bytes[..k] + (bytes[k..] + tail)
  {
  }

  lemma OneMoreItem(s: seq<byte>, count: nat, acc: seq<seq<byte>>, text: seq<byte>, rest: seq<byte>)
    requires LoadString(s) == Some(Loaded(text, rest))
    ensures LoadItems(s, count + 1, acc) == LoadItems(rest, count, acc + [text])
  {
    hide LoadString;
  }

  lemma TextsSnoc(items: seq<Str>)
    requires items != []
    ensures Texts(items) == Texts(items[..|items| - 1]) + [Text(items[|items| - 1])]
  {
  }

  ghost predicate ItemsOk(items: seq<Str>) {
    forall i :: 0 <= i < |items| ==> StrOk(items[i])
  }

  lemma LastItem(items: seq<Str>, bytes: seq<byte>) returns (k: nat)
    requires ItemsSaved(items, bytes) && ItemsOk(items) && items != []
    ensures k <= |bytes| && ItemsSaved(items[..|items| - 1], bytes[..k]) && StrSaved(items[|items| - 1], bytes[k..])
    ensures ItemsOk(items[..|items| - 1]) && StrOk(items[|items| - 1])
  {
    hide StrSaved, StrOk;
    k :| 0 <= k <= |bytes| && ItemsSaved(items[..|items| - 1], bytes[..k]) && StrSaved(items[|items| - 1], bytes[k..]);
  }

  lemma NoItem(bytes: seq<byte>)
    ensures ItemsSaved([], bytes) ==> bytes == []
    ensures FieldsSaved([], bytes) ==> bytes == []
    ensures Texts([]) == [] && FieldMap([]) == map[]
  {
  }

  lemma {:induction false} ItemsRoundTrip(items: seq<Str>, bytes: seq<byte>, tail: seq<byte>, more: nat)
    requires ItemsSaved(items, bytes) && ItemsOk(items)
    ensures LoadItems(bytes + tail, |items| + more, []) == LoadItems(tail, more, Texts(items))
    decreases |items|
  {
    hide *;
    if items == [] {
      NoItem(bytes);
      assert bytes + tail == tail;
    } else {
      var n := |items| - 1;
      var k := LastItem(items, bytes);
      Split(bytes, k, tail);
      ItemsRoundTrip(items[..n], bytes[..k], bytes[k..] + tail, more + 1);
      StringRoundTrip(items[n], bytes[k..], tail);
      OneMoreItem(bytes[k..] + tail, more, Texts(items[..n]), Text(items[n]), tail);
      TextsSnoc(items);
    }
  }

  /** Fields of a hash have different texts. */
  ghost predicate DistinctFields(fields: seq<(Str, Str)>) {
    forall i, j :: 0 <= i < j < |fields| ==> Text(fields[i].0) != Text(fields[j].0)
  }

  ghost predicate FieldsOk(fields: seq<(Str, Str)>) {
    DistinctFields(fields) && forall i :: 0 <= i < |fields| ==> StrOk(fields[i].0) && StrOk(fields[i].1)
  }

  lemma {:induction false} FieldMapKeys(fields: seq<(Str, Str)>, k: seq<byte>)
    ensures k in FieldMap(fields) <==> exists i :: 0 <= i < |fields| && Text(fields[i].0) == k
    decreases |fields|
  {
    hide Text;
    if fields != [] {
      var n := |fields| - 1;
      FieldMapKeys(fields[..n], k);
      assert forall i :: 0 <= i < n ==> fields[..n][i] == fields[i];
    }
  }

  lemma OneMoreField(s: seq<byte>, count: nat, acc: map<seq<byte>, seq<byte>>, f: seq<byte>, mid: seq<byte>,
                     v: seq<byte>,
                     rest: seq<byte>)
    requires LoadString(s) == Some(Loaded(f, mid)) && LoadString(mid) == Some(Loaded(v, rest)) && f !in acc
    ensures LoadFields(s, count + 1, acc) == LoadFields(rest, count, acc[f := v])
  {
    hide LoadString;
  }

  lemma FieldsOkParts(fields: seq<(Str, Str)>)
    requires FieldsOk(fields) && fields != []
    ensures var n := |fields| - 1;
            && FieldsOk(fields[..n]) && StrOk(fields[n].0) && StrOk(fields[n].1)
            && Text(fields[n].0) !in FieldMap(fields[..n])
            && FieldMap(fields) == FieldMap(fields[..n])[Text(fields[n].0) := Text(fields[n].1)]
  {
    FieldMapKeys(fields[..|fields| - 1], Text(fields[|fields| - 1].0));
    hide StrOk, Text;
  }

  lemma LastField(fields: seq<(Str, Str)>, bytes: seq<byte>) returns (k: nat, m: nat)
    requires FieldsSaved(fields, bytes) && fields != []
    ensures var n := |fields| - 1;
            && k <= m <= |bytes| && FieldsSaved(fields[..n], bytes[..k])
            && StrSaved(fields[n].0, bytes[k..m]) && StrSaved(fields[n].1, bytes[m..])
  {
    hide StrSaved;
    var n := |fields| - 1;
    k, m :| 0 <= k <= m <= |bytes| && FieldsSaved(fields[..n], bytes[..k])
            && StrSaved(fields[n].0, bytes[k..m]) && StrSaved(fields[n].1, bytes[m..]);
  }

  lemma {:induction false} FieldsRoundTrip(fields: seq<(Str, Str)>, bytes: seq<byte>, tail: seq<byte>, more: nat)
    requires FieldsSaved(fields, bytes) && FieldsOk(fields)
    ensures LoadFields(bytes + tail, |fields| + more, map[]) == LoadFields(tail, more, FieldMap(fields))
    decreases |fields|
  {
    hide *;
    if fields == [] {
      NoItem(bytes);
      assert bytes + tail == tail;
    } else {
      var n := |fields| - 1;
      var k, m := LastField(fields, bytes);
      FieldsOkParts(fields);
      Split(bytes, k, tail);
      FieldsRoundTrip(fields[..n], bytes[..k], bytes[k..] + tail, more + 1);
      assert bytes[k..] + tail == bytes[k..m] + (bytes[m..] + tail);
      StringRoundTrip(fields[n].0, bytes[k..m], bytes[m..] + tail);
      StringRoundTrip(fields[n].1, bytes[m..], tail);
      OneMoreField(bytes[k..] + tail, more, FieldMap(fields[..n]), Text(fields[n].0), bytes[m..] + tail,
                   Text(fields[n].1), tail);
    }
  }

  /** Lengths and integers are in range, and a hash has no field twice. */
  ghost predicate ObjOk(o: RdbObj) {
    match o
    case Packed(kind, data) => IsPackedKind(kind) && |data| < LENERR
    case Plain(StringObj(s)) => StrOk(s)
    case Plain(ListObj(items)) => |items| < LENERR && ItemsOk(items)
    case Plain(SetObj(items)) => |items| < LENERR && ItemsOk(items)
    case Plain(HashObj(fields)) => |fields| < LENERR && FieldsOk(fields)
  }

  function RdbValueOf(o: RdbObj): RdbValue {
    match o
    case Packed(kind, data) => PackedVal(kind, data)
    case Plain(p) => PlainVal(ValueOf(p))
  }

  lemma SetOfTexts(items: seq<Str>)
    ensures (set x | x in Texts(items)) == set m | m in items :: Text(m)
  {
    hide Text;
    forall m | m in items ensures Text(m) in Texts(items) {
      var i :| 0 <= i < |items| && items[i] == m;
      assert Texts(items)[i] == Text(m);
    }
  }

  lemma CountLoads(n: nat, bytes: seq<byte>, e: seq<byte>, tail: seq<byte>)
    requires CollectionSaved(n, bytes, e) && n < LENERR
    ensures LoadLen(bytes + tail) == Some(Length(n, false, e + tail))
  {
    LengthRoundTrip(n, e + tail);
    hide SaveLen, LoadLen;
    assert bytes + tail == SaveLen(n) + (e + tail);
  }

  lemma NothingToLoad(s: seq<byte>)
    ensures forall acc :: LoadItems(s, 0, acc) == Some(Loaded(acc, s))
    ensures forall acc :: LoadFields(s, 0, acc) == Some(Loaded(acc, s))
  {
  }

  lemma ItemsLoad(items: seq<Str>, bytes: seq<byte>, e: seq<byte>, tail: seq<byte>)
    requires CollectionSaved(|items|, bytes, e) && ItemsSaved(items, e) && |items| < LENERR && ItemsOk(items)
    ensures LoadLen(bytes + tail) == Some(Length(|items|, false, e + tail))
    ensures LoadItems(e + tail, |items|, []) == Some(Loaded(Texts(items), tail))
  {
    CountLoads(|items|, bytes, e, tail);
    hide *;
    ItemsRoundTrip(items, e, tail, 0);
    NothingToLoad(tail);
  }

  lemma FieldsLoad(fields: seq<(Str, Str)>, bytes: seq<byte>, e: seq<byte>, tail: seq<byte>)
    requires CollectionSaved(|fields|, bytes, e) && FieldsSaved(fields, e) && |fields| < LENERR && FieldsOk(fields)
    ensures LoadLen(bytes + tail) == Some(Length(|fields|, false, e + tail))
    ensures LoadFields(e + tail, |fields|, map[]) == Some(Loaded(FieldMap(fields), tail))
  {
    CountLoads(|fields|, bytes, e, tail);
    hide *;
    FieldsRoundTrip(fields, e, tail, 0);
    NothingToLoad(tail);
  }

  /** Loading an object by its type gives its value and reads just what was written. */
  lemma ObjectRoundTrip(o: RdbObj, bytes: seq<byte>, tail: seq<byte>)
    requires ObjSaved(o, bytes) && ObjOk(o)
    ensures LoadObject(bytes + tail, TypeOf(o)) == Some(Loaded(RdbValueOf(o), tail))
  {
    hide CollectionSaved, ItemsSaved, FieldsSaved, RawSaved, StrSaved, StrOk, ItemsOk, FieldsOk, FieldMap, Texts, Text,
         LoadString, LoadItems, LoadFields, LoadLen;
    match o
    case Packed(kind, data) =>
      RawRoundTrip(data, bytes, tail);
    case Plain(StringObj(s)) =>
      StringRoundTrip(s, bytes, tail);
    case Plain(ListObj(items)) =>
      var e :| CollectionSaved(|items|, bytes, e) && ItemsSaved(items, e);
      ItemsLoad(items, bytes, e, tail);
    case Plain(SetObj(items)) =>
      var e :| CollectionSaved(|items|, bytes, e) && ItemsSaved(items, e);
      ItemsLoad(items, bytes, e, tail);
      SetOfTexts(items);
    case Plain(HashObj(fields)) =>
      var e :| CollectionSaved(|fields|, bytes, e) && FieldsSaved(fields, e);
      FieldsLoad(fields, bytes, e, tail);
  }

  // ---- Records ----

  function KeyOf(r: RdbRow): seq<byte> { r.key }

  /** What loading makes of a row saved at one time: nothing if its deadline has passed then or, for a master, now. */
  function LoadedEntry(r: RdbRow, saved: int, env: Env): Option<RdbEntry> {
    if r.expire != -1 && (r.expire < saved || (!env.slave && r.expire < env.now)) then None
    else Some(RdbEntry(RdbValueOf(r.obj), r.expire))
  }

  function LoadedAt(saved: int, env: Env): RdbRow -> Option<RdbEntry> {
    (r: RdbRow) => LoadedEntry(r, saved, env)
  }

  ghost predicate RowOk(r: RdbRow) {
    |r.key| < LENERR && ObjOk(r.obj) && LLONG_MIN <= r.expire <= LLONG_MAX
  }

  lemma TimeBytes(expire: int, kind: byte, rest: seq<byte>)
    ensures var s := [EXPIRETIME_MS] + LeBytes(expire, 8) + [kind] + rest;
            |s| >= 10 && s[0] == EXPIRETIME_MS && s[1..9] == LeBytes(expire, 8) && s[9] == kind && s[10..] == rest
  {
    hide LeBytes;
  }

  lemma OpcodeLoads(expire: int, kind: byte, rest: seq<byte>)
    requires LLONG_MIN <= expire <= LLONG_MAX && kind != EXPIRETIME && kind != EXPIRETIME_MS
    ensures LoadOpcode(DeadlineSaved(expire) + [kind] + rest) == Some(Opcode(kind, expire, rest))
  {
    Widths();
    SignedRoundTrip(expire, 8, 0x8000_0000_0000_0000, []);
    hide LeBytes, FromLe, Pow256, Signed;
    if expire == -1 {
      assert DeadlineSaved(expire) + [kind] + rest == [kind] + rest;
    } else {
      TimeBytes(expire, kind, rest);
    }
  }

  lemma PairLoads(r: RdbRow, k: seq<byte>, v: seq<byte>, tail: seq<byte>)
    requires RawSaved(r.key, k) && ObjSaved(r.obj, v) && RowOk(r)
    ensures LoadPair(Opcode(TypeOf(r.obj), r.expire, k + (v + tail))) == Some(Loaded((r.key, RdbValueOf(r.obj)), tail))
  {
    hide RawSaved, ObjSaved, ObjOk, LoadString, LoadObject, TypeOf, RdbValueOf;
    RawRoundTrip(r.key, k, v + tail);
    ObjectRoundTrip(r.obj, v, tail);
  }

  /** One iteration of the loading loop on a pair. */
  lemma RecordStep(s: seq<byte>, d: Table<RdbEntry>, db: int, env: Env, op: Opcode, p: Loaded<(seq<byte>, RdbValue)>)
    requires LoadOpcode(s) == Some(op) && op.kind < 250 && LoadPair(op) == Some(p) && (db, p.value.0) !in d
    ensures LoadRecords(s, d, db, env)
         == LoadRecords(p.rest,
                        if !env.slave && op.expire != -1 && op.expire < env.now then d
                        else d[(db, p.value.0) := RdbEntry(p.value.1, op.expire)], db, env)
  {
    hide LoadOpcode, LoadPair;
  }

  lemma TypeIsSmall(o: RdbObj)
    requires ObjOk(o)
    ensures TypeOf(o) < 250
  {
    hide StrOk, ItemsOk, FieldsOk;
  }

  lemma RowParts(r: RdbRow, saved: int, bytes: seq<byte>, tail: seq<byte>) returns (k: seq<byte>, v: seq<byte>)
    requires RowSaved(r, saved, bytes) && !(r.expire != -1 && r.expire < saved)
    ensures RawSaved(r.key, k) && ObjSaved(r.obj, v)
    ensures bytes + tail == DeadlineSaved(r.expire) + [TypeOf(r.obj)] + (k + (v + tail))
  {
    hide RawSaved, ObjSaved, DeadlineSaved, TypeOf;
    k, v :| RawSaved(r.key, k) && ObjSaved(r.obj, v) && bytes == DeadlineSaved(r.expire) + [TypeOf(r.obj)] + k + v;
  }

  lemma SkippedRow(r: RdbRow, saved: int, bytes: seq<byte>, tail: seq<byte>)
    requires RowSaved(r, saved, bytes) && r.expire != -1 && r.expire < saved
    ensures bytes + tail == tail
  {
  }

  lemma RowLoads(r: RdbRow, saved: int, bytes: seq<byte>, tail: seq<byte>, d: Table<RdbEntry>, db: int, env: Env)
    requires RowSaved(r, saved, bytes) && RowOk(r) && (db, r.key) !in d
    ensures LoadRecords(bytes + tail, d, db, env)
         == LoadRecords(tail, WithRow(d, db, r, KeyOf, LoadedAt(saved, env)), db, env)
  {
    assert RowOk(r) ==> ObjOk(r.obj) && LLONG_MIN <= r.expire <= LLONG_MAX;
    hide ObjOk, RowOk, RowSaved, RdbValueOf, LoadRecords, LoadPair, LoadOpcode;
    hide DeadlineSaved, TypeOf, RawSaved, ObjSaved;
    if r.expire != -1 && r.expire < saved {
      SkippedRow(r, saved, bytes, tail);
    } else {
      var k, v := RowParts(r, saved, bytes, tail);
      var op := Opcode(TypeOf(r.obj), r.expire, k + (v + tail));
      TypeIsSmall(r.obj);
      OpcodeLoads(r.expire, TypeOf(r.obj), k + (v + tail));
      PairLoads(r, k, v, tail);
      RecordStep(bytes + tail, d, db, env, op, Loaded((r.key, RdbValueOf(r.obj)), tail));
    }
  }

  ghost predicate WellFormed(dbs: Databases) {
    UniqueKeys(dbs, KeyOf) && forall j, i :: IsRow(dbs, j, i) ==> RowOk(dbs[j][i])
  }

  lemma LastRow(rows: seq<RdbRow>, i: nat, saved: int, bytes: seq<byte>) returns (k: nat)
    requires 0 < i <= |rows| && RowsSaved(rows, i, saved, bytes)
    ensures k <= |bytes| && RowsSaved(rows, i - 1, saved, bytes[..k]) && RowSaved(rows[i - 1], saved, bytes[k..])
  {
    hide RowSaved;
    k :| 0 <= k <= |bytes| && RowsSaved(rows, i - 1, saved, bytes[..k]) && RowSaved(rows[i - 1], saved, bytes[k..]);
  }

  lemma NoRows(rows: seq<RdbRow>, saved: int, bytes: seq<byte>)
    requires RowsSaved(rows, 0, saved, bytes)
    ensures bytes == []
  {
  }

  lemma NextRow(d: Table<RdbEntry>, dbs: Databases, j: nat, i: nat, saved: int, env: Env)
    requires WellFormed(dbs) && IsRow(dbs, j, i) && Live(d, dbs, j, i, KeyOf, LoadedAt(saved, env))
    ensures RowOk(dbs[j][i]) && (j, dbs[j][i].key) !in d
    ensures Live(WithRow(d, j, dbs[j][i], KeyOf, LoadedAt(saved, env)), dbs, j, i + 1, KeyOf, LoadedAt(saved, env))
  {
    hide Live, UniqueKeys, RowOk, LoadedAt, WithRow;
    LiveStep(d, dbs, j, i, KeyOf, LoadedAt(saved, env));
  }

  /** Loading the first i rows of a database adds those that are kept. */
  lemma {:induction false} RowsLoad(dbs: Databases, j: nat, i: nat, saved: int, bytes: seq<byte>, tail: seq<byte>,
                                    d: Table<RdbEntry>, env: Env) returns (d': Table<RdbEntry>)
    requires WellFormed(dbs) && j < |dbs| && i <= |dbs[j]| && RowsSaved(dbs[j], i, saved, bytes)
    requires Live(d, dbs, j, 0, KeyOf, LoadedAt(saved, env))
    ensures LoadRecords(bytes + tail, d, j, env) == LoadRecords(tail, d', j, env)
    ensures Live(d', dbs, j, i, KeyOf, LoadedAt(saved, env))
    decreases i
  {
    hide *;
    if i == 0 {
      NoRows(dbs[j], saved, bytes);
      assert bytes + tail == tail;
      d' := d;
    } else {
      var k := LastRow(dbs[j], i, saved, bytes);
      Split(bytes, k, tail);
      var d1 := RowsLoad(dbs, j, i - 1, saved, bytes[..k], bytes[k..] + tail, d, env);
      assert IsRow(dbs, j, i - 1) by { RowIs(dbs, j, i - 1); }
      NextRow(d1, dbs, j, i - 1, saved, env);
      RowLoads(dbs[j][i - 1], saved, bytes[k..], tail, d1, j, env);
      d' := WithRow(d1, j, dbs[j][i - 1], KeyOf, LoadedAt(saved, env));
    }
  }

  lemma RowIs(dbs: Databases, j: nat, i: nat)
    requires j < |dbs| && i < |dbs[j]|
    ensures IsRow(dbs, j, i)
  {
  }

  // ---- Files ----

  lemma SelectLoads(j: nat, rest: seq<byte>, d: Table<RdbEntry>, db: int, env: Env)
    requires j < LENERR && j < env.dbnum
    ensures LoadRecords([SELECTDB] + (SaveLen(j) + rest), d, db, env) == LoadRecords(rest, d, j, env)
  {
    var s := [SELECTDB] + (SaveLen(j) + rest);
    assert s[1..] == SaveLen(j) + rest;
    LengthRoundTrip(j, rest);
    hide SaveLen, LoadLen, LoadPair;
  }

  lemma LastDb(dbs: Databases, j: nat, saved: int, bytes: seq<byte>) returns (k: nat)
    requires 0 < j <= |dbs| && DbsSaved(dbs, j, saved, bytes)
    ensures k <= |bytes| && DbsSaved(dbs, j - 1, saved, bytes[..k]) && DbSaved(dbs, j - 1, saved, bytes[k..])
  {
    hide DbSaved;
    k :| 0 <= k <= |bytes| && DbsSaved(dbs, j - 1, saved, bytes[..k]) && DbSaved(dbs, j - 1, saved, bytes[k..]);
  }

  lemma NoDbs(dbs: Databases, saved: int, bytes: seq<byte>)
    requires DbsSaved(dbs, 0, saved, bytes)
    ensures bytes == []
  {
  }

  lemma DbParts(dbs: Databases, j: nat, saved: int, bytes: seq<byte>, tail: seq<byte>) returns (e: seq<byte>)
    requires j < |dbs| && DbSaved(dbs, j, saved, bytes)
    ensures dbs[j] == [] ==> bytes + tail == tail
    ensures dbs[j] != [] ==>
              RowsSaved(dbs[j], |dbs[j]|, saved, e) && bytes + tail == [SELECTDB] + (SaveLen(j) + (e + tail))
  {
    hide RowsSaved, SaveLen;
    e := [];
    if dbs[j] != [] {
      e :| RowsSaved(dbs[j], |dbs[j]|, saved, e) && bytes == [SELECTDB] + SaveLen(j) + e;
    }
  }

  lemma DbLoads(dbs: Databases, j: nat, saved: int, bytes: seq<byte>, tail: seq<byte>, d: Table<RdbEntry>, db: int,
                env: Env)
    returns (d': Table<RdbEntry>, db': int)
    requires WellFormed(dbs) && j < |dbs| <= env.dbnum && DbSaved(dbs, j, saved, bytes)
    requires Live(d, dbs, j, 0, KeyOf, LoadedAt(saved, env))
    ensures LoadRecords(bytes + tail, d, db, env) == LoadRecords(tail, d', db', env)
    ensures Live(d', dbs, j + 1, 0, KeyOf, LoadedAt(saved, env))
  {
    hide *;
    var e := DbParts(dbs, j, saved, bytes, tail);
    d', db' := d, db;
    if dbs[j] != [] {
      SelectLoads(j, e + tail, d, db, env);
      d' := RowsLoad(dbs, j, |dbs[j]|, saved, e, tail, d, env);
      db' := j;
    }
    LiveNext(d', dbs, j, KeyOf, LoadedAt(saved, env));
  }

  lemma {:induction false} DbsLoad(dbs: Databases, j: nat, saved: int, bytes: seq<byte>, tail: seq<byte>, env: Env)
    returns (d: Table<RdbEntry>, db: int)
    requires WellFormed(dbs) && j <= |dbs| <= env.dbnum && DbsSaved(dbs, j, saved, bytes)
    ensures LoadRecords(bytes + tail, map[], 0, env) == LoadRecords(tail, d, db, env)
    ensures Live(d, dbs, j, 0, KeyOf, LoadedAt(saved, env))
    decreases j
  {
    hide *;
    if j == 0 {
      NoDbs(dbs, saved, bytes);
      assert bytes + tail == tail;
      d, db := map[], 0;
      NothingLive(dbs, saved, env);
    } else {
      var k := LastDb(dbs, j, saved, bytes);
      Split(bytes, k, tail);
      var d1, db1 := DbsLoad(dbs, j - 1, saved, bytes[..k], bytes[k..] + tail, env);
      d, db := DbLoads(dbs, j - 1, saved, bytes[k..], tail, d1, db1, env);
    }
  }

  lemma NothingLive(dbs: Databases, saved: int, env: Env)
    ensures Live(map[], dbs, 0, 0, KeyOf, LoadedAt(saved, env))
  {
  }

  lemma EndLoads(rest: seq<byte>, d: Table<RdbEntry>, db: int, env: Env)
    ensures LoadRecords([EOF] + rest, d, db, env) == Some(Loaded(d, rest))
  {
    var s := [EOF] + rest;
    assert s[1..] == rest;
  }

  lemma MagicIsCurrent()
    ensures |MAGIC| == 9 && Strtoll(MAGIC[5..9]).0 == 6
  {
    var s := MAGIC[5..9];
    assert s == [48, 48, 48, 54];
    assert s[1..] == [48, 48, 54] && s[1..][1..] == [48, 54] && s[1..][1..][1..] == [54] && s[1..][1..][1..][1..] == [];
    assert SpanDigits([54]) == 1 && SpanDigits([48, 54]) == 2 && SpanDigits([48, 48, 54]) == 3 && SpanDigits(s) == 4;
    assert SkipSpaces(s) == 0;
    assert s[0..] == s && s[..4] == s;
    assert Accumulate(s, 0) == 6;
  }

  lemma FileParts(file: seq<byte>, body: seq<byte>, foot: seq<byte>)
    requires |MAGIC| == 9 && |foot| == 8 && file == MAGIC + body + [EOF] + foot
    ensures |file| >= 9 && file[..5] == MAGIC[..5] && file[5..9] == MAGIC[5..9] && file[9..] == body + ([EOF] + foot)
    ensures file[..|file| - 8] == MAGIC + body + [EOF]
  {
  }

  /** The checksum passes: it is the right one, or zero, or nobody checks. */
  lemma ChecksumPasses(file: seq<byte>, env: Env, d: Table<RdbEntry>, foot: seq<byte>)
    requires |file| >= 9 && |foot| == 8 && file[..5] == MAGIC[..5] && Strtoll(file[5..9]).0 == 6
    requires LoadRecords(file[9..], map[], 0, env) == Some(Loaded(d, foot))
    requires foot == Footer(0) || foot == Footer(Crc64.Divide(0, file[..|file| - 8]))
    ensures LoadFile(file, env) == Some(d)
  {
    hide LoadRecords, Footer, Crc64.Divide, Strtoll;
    assert foot[..8] == foot;
  }

  /**
    Loading a saved file gives, database by database, exactly the keys whose deadline had not passed when it was saved
    and, unless a slave loads it, has not passed now, with their values and deadlines; whatever encodings were chosen,
    with checksums switched on or off on either side.
   */
  lemma FileRoundTrip(dbs: Databases, saved: int, checksum: bool, file: seq<byte>, env: Env)
    requires WellFormed(dbs) && |dbs| <= env.dbnum && FileSaved(dbs, saved, checksum, file)
    ensures LoadFile(file, env).Some?
    ensures IsLive(LoadFile(file, env).value, dbs, KeyOf, LoadedAt(saved, env))
  {
    hide DbsSaved, WellFormed, LoadFile, Live, Crc64.Divide, Footer, LoadedAt;
    var body :| DbsSaved(dbs, |dbs|, saved, body)
             && file == MAGIC + body + [EOF] + Footer(Checksum(checksum, MAGIC + body + [EOF]));
    var foot := Footer(Checksum(checksum, MAGIC + body + [EOF]));
    MagicIsCurrent();
    FileParts(file, body, foot);
    var d, db := DbsLoad(dbs, |dbs|, saved, body, [EOF] + foot, env);
    EndLoads(foot, d, db, env);
    hide *;
    ChecksumCases(checksum, MAGIC + body + [EOF]);
    ChecksumPasses(file, env, d, foot);
    LiveAll(d, dbs, saved, env);
  }

  /** So the choices that a save has, of encodings and of a checksum, never show in what is loaded. */
  lemma SavesLoadAlike(dbs: Databases, saved: int, checksum1: bool, file1: seq<byte>, checksum2: bool, file2: seq<byte>,
                       env: Env)
    requires WellFormed(dbs) && |dbs| <= env.dbnum
    requires FileSaved(dbs, saved, checksum1, file1) && FileSaved(dbs, saved, checksum2, file2)
    ensures LoadFile(file1, env).Some? && LoadFile(file1, env) == LoadFile(file2, env)
  {
    FileRoundTrip(dbs, saved, checksum1, file1, env);
    FileRoundTrip(dbs, saved, checksum2, file2, env);
    hide *;
    LiveIsUnique(LoadFile(file1, env).value, LoadFile(file2, env).value, dbs, KeyOf, LoadedAt(saved, env));
  }

  lemma ChecksumCases(checksum: bool, bytes: seq<byte>)
    ensures Checksum(checksum, bytes) == 0 || Checksum(checksum, bytes) == Crc64.Divide(0, bytes)
  {
  }

  lemma LiveAll(d: Table<RdbEntry>, dbs: Databases, saved: int, env: Env)
    requires Live(d, dbs, |dbs|, 0, KeyOf, LoadedAt(saved, env))
    ensures IsLive(d, dbs, KeyOf, LoadedAt(saved, env))
  {
    hide Live;
  }
}
