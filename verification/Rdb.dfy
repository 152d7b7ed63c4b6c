/** Saving and loading RDB files through a stream (redis-stable/src/rdb.c, redis-stable/src/rio.c). */
module Rdb {
  import opened Bytes
  import opened Decimal
  import opened LittleEndian
  import opened Objects
  import opened Keyspaces
  import opened RdbSpec
  import RdbRoundTrip
  import RdbForeign
  import Crc64
  import Lzf
  import LzfFormat
  import LzfGreedy

  /** The checksum of a stream is that of its bytes, however they were written or read. */
  lemma ChecksumGrows(updating: bool, a: seq<byte>, b: seq<byte>)
    ensures Checksum(updating, a + b)
         == if updating then Crc64.Divide(Checksum(updating, a), b) else Checksum(updating, a)
  {
    Crc64.DivideAppend(0, a, b);
    hide Crc64.Divide;
  }

  lemma NoChecksum(updating: bool)
    ensures Checksum(updating, []) == 0
  {
    Crc64.DivideNone(0);
    hide Crc64.Divide;
  }

  lemma SplitAt(data: seq<byte>, pos: nat, n: nat)
    requires pos + n <= |data|
    ensures data[pos..][..n] == data[pos..pos + n] && data[pos..][n..] == data[pos + n..]
    ensures data[..pos + n] == data[..pos] + data[pos..pos + n]
  {
  }

  /** rio: the contents of the stream, the position in it, and the checksum of what was written or read so far. */
  class Rio {
    var data: seq<byte>
    var pos: nat
    const updating: bool
    var cksum: bv64

    ghost predicate Ok()
      reads this
    {
      pos <= |data| && cksum == Checksum(updating, data[..pos])
    }

    ghost predicate Writing()
      reads this
    {
      Ok() && pos == |data|
    }

    ghost function Rest(): seq<byte>
      requires Ok()
      reads this
    {
      data[pos..]
    }

    constructor (data: seq<byte>, updating: bool)
      ensures Ok() && this.data == data && pos == 0 && this.updating == updating
    {
      this.data, pos, this.updating, cksum := data, 0, updating, 0;
      new;
      hide *;
      NoChecksum(updating);
      assert this.data[..0] == [];
    }

    /** rioWrite. */
    method Write(s: seq<byte>)
      requires Writing()
      modifies this
      ensures Writing() && data == old(data) + s
    {
      hide Checksum, Crc64.Divide;
      ghost var before := data;
      assert data[..pos] == before;
      ChecksumGrows(updating, before, s);
      if updating {
        cksum := Crc64.Crc64(cksum, s);
      }
      data := data + s;
      pos := |data|;
      assert data[..pos] == before + s;
    }

    /** rioRead; reading no bytes fails. */
    method Read(n: nat) returns (r: Option<seq<byte>>)
      requires Ok()
      modifies this
      ensures Ok() && data == old(data)
      ensures r.Some? <==> 0 < n <= |old(Rest())|
      ensures r.Some? ==> r.value == old(Rest())[..n] && Rest() == old(Rest())[n..]
    {
      hide Checksum, Crc64.Divide;
      if n == 0 || |data| - pos < n { return None; }
      var s := data[pos..pos + n];
      SplitAt(data, pos, n);
      ChecksumGrows(updating, data[..pos], s);
      if updating {
        cksum := Crc64.Crc64(cksum, s);
      }
      pos := pos + n;
      return Some(s);
    }
  }

  // ---- Saving ----

  lemma LenBytes(n: nat)
    ensures var len := n % 0x1_0000_0000;
            SaveLen(n) == if len < 64 then [len]
                          else if len < 16384 then [64 + len / 256, len % 256]
                          else [128] + [len / 0x100_0000, len / 0x1_0000 % 256, len / 256 % 256, len % 256]
  {
  }

  /** rdbSaveLen. */
  method WriteLen(rio: Rio, n: nat)
    requires rio.Writing()
    modifies rio
    ensures rio.Writing() && rio.data == old(rio.data) + SaveLen(n)
  {
    LenBytes(n);
    hide *;
    var len := n % 0x1_0000_0000;
    if len < 64 {
      rio.Write([len]);
    } else if len < 16384 {
      rio.Write([64 + len / 256, len % 256]);
    } else {
      rio.Write([128]);
      rio.Write([len / 0x100_0000, len / 0x1_0000 % 256, len / 256 % 256, len % 256]);
    }
  }

  lemma IntIs(n: int)
    ensures var text := SaveLen(|Ll2String(n)|) + Ll2String(n);
            StrSaved(Int(n), if EncodeInteger(n) != [] then EncodeInteger(n) else text)
  {
    hide EncodeInteger, SaveLen, Ll2String;
  }

  /** rdbSaveLongLongAsStringObject. */
  method WriteLongLong(rio: Rio, n: int) returns (ghost bytes: seq<byte>)
    requires rio.Writing()
    modifies rio
    ensures rio.Writing() && StrSaved(Int(n), bytes) && rio.data == old(rio.data) + bytes
  {
    hide *;
    ghost var before := rio.data;
    IntIs(n);
    var enc := EncodeInteger(n);
    if enc != [] {
      rio.Write(enc);
      return enc;
    }
    var text := Ll2String(n);
    WriteLen(rio, |text|);
    rio.Write(text);
    bytes := SaveLen(|text|) + text;
    assert rio.data == before + bytes;
  }

  /**
    Lines 218-226: the compressed string, empty when the compressor does not make it small enough.  The hash table of
    the compressor starts with arbitrary contents, and the string lies anywhere from MAX_OFF on.
   */
  method CompressString(s: seq<byte>) returns (c: seq<byte>)
    requires |s| < LENERR
    ensures c != [] ==> Compressed(s, c) && LzfGreedy.GreedyEncoding(s, LzfGreedy.HashSlot, c)
    ensures c == [] ==> |s| <= 4 || LzfGreedy.TooSmall(s, LzfGreedy.HashSlot, |s| - 4)
    ensures LzfGreedy.AllEqual(s) && |s| >= 16 ==> c != []
  {
    if |s| <= 4 { return []; }
    var outLen := |s| - 4;
    var out := new byte[outLen + 1];
    var htab := new word64[LzfGreedy.HSIZE];
    var address: nat :| LzfFormat.MAX_OFF <= address && address + |s| <= 0x1_0000_0000_0000_0000;
    var n := Lzf.Compress(s, address, out, outLen, htab, LzfGreedy.HashSlot);
    hide LzfFormat.Decode, LzfGreedy.GreedyEncoding, LzfGreedy.TooSmall, LzfGreedy.AllEqual;
    return out[..n];
  }

  /** The form in which a string of more than 20 bytes is written if compression is on. */
  ghost predicate Chosen(s: seq<byte>, bytes: seq<byte>)
    requires |s| > 20
  {
    || (exists c :: Compressed(s, c) && LzfGreedy.GreedyEncoding(s, LzfGreedy.HashSlot, c) && bytes == LzfSaved(s, c))
    || (LzfGreedy.TooSmall(s, LzfGreedy.HashSlot, |s| - 4) && !LzfGreedy.AllEqual(s) && bytes == SaveLen(|s|) + s)
  }

  lemma ChosenIs(s: seq<byte>, c: seq<byte>)
    requires |s| > 20
    ensures Compressed(s, c) && LzfGreedy.GreedyEncoding(s, LzfGreedy.HashSlot, c) ==> Chosen(s, LzfSaved(s, c))
    ensures LzfGreedy.TooSmall(s, LzfGreedy.HashSlot, |s| - 4) && !LzfGreedy.AllEqual(s) ==>
              Chosen(s, SaveLen(|s|) + s)
  {
    hide Compressed, LzfSaved, SaveLen, LzfGreedy.TooSmall, LzfGreedy.AllEqual, LzfGreedy.GreedyEncoding;
  }

  lemma LzfBytes(s: seq<byte>, c: seq<byte>)
    ensures LzfSaved(s, c) == [195] + SaveLen(|c|) + SaveLen(|s|) + c
  {
  }

  /** rdbSaveLzfStringObject; the result is false if nothing was written. */
  method WriteLzf(rio: Rio, s: seq<byte>) returns (ok: bool, ghost c: seq<byte>)
    requires rio.Writing() && |s| < LENERR
    modifies rio
    ensures rio.Writing()
    ensures !ok ==> rio.data == old(rio.data)
    ensures ok ==> Compressed(s, c) && rio.data == old(rio.data) + LzfSaved(s, c)
    ensures if ok then LzfGreedy.GreedyEncoding(s, LzfGreedy.HashSlot, c)
            else |s| <= 4 || LzfGreedy.TooSmall(s, LzfGreedy.HashSlot, |s| - 4)
    ensures LzfGreedy.AllEqual(s) && |s| >= 16 ==> ok
  {
    hide *;
    var compressed := CompressString(s);
    c := compressed;
    if compressed == [] { return false, c; }
    ghost var before := rio.data;
    LzfBytes(s, c);
    rio.Write([195]);
    WriteLen(rio, |compressed|);
    WriteLen(rio, |s|);
    rio.Write(compressed);
    assert rio.data == before + LzfSaved(s, c);
    ok := true;
  }

  lemma RawIs(s: seq<byte>, enc: seq<byte>, bytes: seq<byte>)
    requires enc == if |s| <= 11 then TryIntegerEncoding(s) else []
    ensures enc != [] ==> RawSaved(s, enc)
    ensures enc == [] ==> RawSaved(s, SaveLen(|s|) + s)
    ensures enc == [] && |s| > 20 ==> forall c :: Compressed(s, c) ==> RawSaved(s, LzfSaved(s, c))
  {
    hide TryIntegerEncoding, SaveLen, Compressed, LzfSaved;
  }

  /** rdbSaveRawString; compression is server.rdb_compression. */
  method WriteRawString(rio: Rio, s: seq<byte>, compression: bool) returns (ghost bytes: seq<byte>)
    requires rio.Writing() && |s| < LENERR
    modifies rio
    ensures rio.Writing() && RawSaved(s, bytes) && rio.data == old(rio.data) + bytes
    ensures |s| > 11 && (!compression || |s| <= 20) ==> bytes == SaveLen(|s|) + s
    ensures |s| > 20 && compression ==> Chosen(s, bytes)
  {
    hide *;
    ghost var before := rio.data;
    var enc := if |s| <= 11 then TryIntegerEncoding(s) else [];
    RawIs(s, enc, []);
    if enc != [] {
      rio.Write(enc);
      return enc;
    }
    if compression && |s| > 20 {
      var ok, c := WriteLzf(rio, s);
      ChosenIs(s, c);
      if ok { return LzfSaved(s, c); }
    }
    WriteLen(rio, |s|);
    if |s| > 0 {
      rio.Write(s);
    }
    bytes := SaveLen(|s|) + s;
    assert rio.data == before + bytes;
  }

  /** rdbSaveStringObject. */
  method WriteString(rio: Rio, s: Str, compression: bool) returns (ghost bytes: seq<byte>)
    requires rio.Writing() && RdbRoundTrip.StrOk(s)
    modifies rio
    ensures rio.Writing() && StrSaved(s, bytes) && rio.data == old(rio.data) + bytes
    ensures s.Raw? && |s.s| > 20 && compression ==> Chosen(s.s, bytes)
  {
    hide RawSaved, Checksum, SaveLen, EncodeInteger, Ll2String, Chosen;
    match s
    case Int(n) => bytes := WriteLongLong(rio, n);
    case Raw(b) => bytes := WriteRawString(rio, b, compression);
  }

  // ---- Saving objects ----

  lemma ItemsGrow(items: seq<Str>, i: nat, a: seq<byte>, b: seq<byte>)
    requires i < |items| && ItemsSaved(items[..i], a) && StrSaved(items[i], b)
    ensures ItemsSaved(items[..i + 1], a + b)
  {
    hide StrSaved;
    assert items[..i + 1][..i] == items[..i];
    assert (a + b)[..|a|] == a && (a + b)[|a|..] == b;
  }

  lemma NoItems(items: seq<Str>, fields: seq<(Str, Str)>)
    ensures ItemsSaved(items[..0], []) && FieldsSaved(fields[..0], [])
  {
  }

  lemma ItemOk(items: seq<Str>, i: nat)
    requires RdbRoundTrip.ItemsOk(items) && i < |items|
    ensures RdbRoundTrip.StrOk(items[i])
  {
  }

  /** Lines 497-505 and 516-524: the length of a list or set, and its elements. */
  method WriteItems(rio: Rio, items: seq<Str>, compression: bool) returns (ghost bytes: seq<byte>, ghost e: seq<byte>)
    requires rio.Writing() && RdbRoundTrip.ItemsOk(items)
    modifies rio
    ensures rio.Writing() && rio.data == old(rio.data) + bytes
    ensures CollectionSaved(|items|, bytes, e) && ItemsSaved(items, e)
  {
    hide Checksum, ItemsSaved, StrSaved, SaveLen, RdbRoundTrip.ItemsOk, Chosen;
    ghost var before := rio.data;
    WriteLen(rio, |items|);
    e := [];
    NoItems(items, []);
    var i := 0;
    assert rio.data == before + (SaveLen(|items|) + e);
    while i < |items|
      invariant i <= |items| && rio.Writing() && ItemsSaved(items[..i], e)
      invariant rio.data == before + (SaveLen(|items|) + e)
    {
      ItemOk(items, i);
      ghost var b := WriteString(rio, items[i], compression);
      ItemsGrow(items, i, e, b);
      assert before + (SaveLen(|items|) + e) + b == before + (SaveLen(|items|) + (e + b));
      e := e + b;
      i := i + 1;
    }
    assert items[..i] == items;
    bytes := SaveLen(|items|) + e;
  }

  lemma FieldsGrow(fields: seq<(Str, Str)>, i: nat, a: seq<byte>, b: seq<byte>, c: seq<byte>)
    requires i < |fields| && FieldsSaved(fields[..i], a) && StrSaved(fields[i].0, b) && StrSaved(fields[i].1, c)
    ensures FieldsSaved(fields[..i + 1], a + b + c)
  {
    hide StrSaved;
    var s := a + b + c;
    assert fields[..i + 1][..i] == fields[..i];
    assert s[..|a|] == a && s[|a|..|a| + |b|] == b && s[|a| + |b|..] == c;
  }

  lemma FieldOk(fields: seq<(Str, Str)>, i: nat)
    requires RdbRoundTrip.FieldsOk(fields) && i < |fields|
    ensures RdbRoundTrip.StrOk(fields[i].0) && RdbRoundTrip.StrOk(fields[i].1)
  {
  }

  /** Lines 573-585: the length of a hash, and its fields and values. */
  method WriteFields(rio: Rio, fields: seq<(Str, Str)>, compression: bool)
    returns (ghost bytes: seq<byte>, ghost e: seq<byte>)
    requires rio.Writing() && RdbRoundTrip.FieldsOk(fields)
    modifies rio
    ensures rio.Writing() && rio.data == old(rio.data) + bytes
    ensures CollectionSaved(|fields|, bytes, e) && FieldsSaved(fields, e)
  {
    hide Checksum, FieldsSaved, StrSaved, SaveLen, RdbRoundTrip.FieldsOk, Chosen;
    ghost var before := rio.data;
    WriteLen(rio, |fields|);
    e := [];
    NoItems([], fields);
    var i := 0;
    assert rio.data == before + (SaveLen(|fields|) + e);
    while i < |fields|
      invariant i <= |fields| && rio.Writing() && FieldsSaved(fields[..i], e)
      invariant rio.data == before + (SaveLen(|fields|) + e)
    {
      FieldOk(fields, i);
      ghost var b := WriteString(rio, fields[i].0, compression);
      ghost var c := WriteString(rio, fields[i].1, compression);
      FieldsGrow(fields, i, e, b, c);
      assert before + (SaveLen(|fields|) + e) + b + c == before + (SaveLen(|fields|) + (e + b + c));
      e := e + b + c;
      i := i + 1;
    }
    assert fields[..i] == fields;
    bytes := SaveLen(|fields|) + e;
  }

  /** rdbSaveObject. */
  method WriteObject(rio: Rio, o: RdbObj, compression: bool) returns (ghost bytes: seq<byte>)
    requires rio.Writing() && RdbRoundTrip.ObjOk(o)
    modifies rio
    ensures rio.Writing() && rio.data == old(rio.data) + bytes && ObjSaved(o, bytes)
  {
    hide Checksum, ItemsSaved, FieldsSaved, StrSaved, RawSaved, SaveLen, CollectionSaved,
         RdbRoundTrip.StrOk, RdbRoundTrip.ItemsOk, RdbRoundTrip.FieldsOk;
    ghost var e;
    match o
    case Packed(_, data) => bytes := WriteRawString(rio, data, compression);
    case Plain(StringObj(s)) => bytes := WriteString(rio, s, compression);
    case Plain(ListObj(items)) => bytes, e := WriteItems(rio, items, compression);
    case Plain(SetObj(items)) => bytes, e := WriteItems(rio, items, compression);
    case Plain(HashObj(fields)) => bytes, e := WriteFields(rio, fields, compression);
  }

  // ---- Saving files ----

  lemma RowIs(r: RdbRow, now: int, k: seq<byte>, v: seq<byte>)
    requires RawSaved(r.key, k) && ObjSaved(r.obj, v) && !(r.expire != -1 && r.expire < now)
    ensures RowSaved(r, now, DeadlineSaved(r.expire) + [TypeOf(r.obj)] + k + v)
  {
    hide RawSaved, ObjSaved, DeadlineSaved, TypeOf;
  }

  lemma DeadlineBytes(expire: int)
    ensures DeadlineSaved(expire) == if expire == -1 then [] else [EXPIRETIME_MS] + LeBytes(expire, 8)
  {
    hide LeBytes;
  }

  lemma SkippedIs(r: RdbRow, now: int)
    requires r.expire != -1 && r.expire < now
    ensures RowSaved(r, now, [])
  {
  }

  lemma RowParts(r: RdbRow)
    requires RdbRoundTrip.RowOk(r)
    ensures |r.key| < LENERR && RdbRoundTrip.ObjOk(r.obj)
  {
    hide RdbRoundTrip.ObjOk;
  }

  /** Lines 614-620: the deadline, if there is one. */
  method WriteDeadline(rio: Rio, expire: int)
    requires rio.Writing()
    modifies rio
    ensures rio.Writing() && rio.data == old(rio.data) + DeadlineSaved(expire)
  {
    hide *;
    DeadlineBytes(expire);
    if expire != -1 {
      rio.Write([EXPIRETIME_MS]);
      rio.Write(LeBytes(expire, 8));
    }
  }

  /** rdbSaveKeyValuePair. */
  method WriteKeyValuePair(rio: Rio, r: RdbRow, now: int, compression: bool) returns (ghost bytes: seq<byte>)
    requires rio.Writing() && RdbRoundTrip.RowOk(r)
    modifies rio
    ensures rio.Writing() && rio.data == old(rio.data) + bytes && RowSaved(r, now, bytes)
  {
    hide *;
    ghost var before := rio.data;
    if r.expire != -1 && r.expire < now {
      SkippedIs(r, now);
      return [];
    }
    RowParts(r);
    WriteDeadline(rio, r.expire);
    rio.Write([TypeOf(r.obj)]);
    ghost var k := WriteRawString(rio, r.key, compression);
    ghost var v := WriteObject(rio, r.obj, compression);
    bytes := DeadlineSaved(r.expire) + [TypeOf(r.obj)] + k + v;
    RowIs(r, now, k, v);
    assert rio.data == before + bytes;
  }

  lemma RowsGrow(rows: seq<RdbRow>, i: nat, now: int, a: seq<byte>, b: seq<byte>)
    requires i < |rows| && RowsSaved(rows, i, now, a) && RowSaved(rows[i], now, b)
    ensures RowsSaved(rows, i + 1, now, a + b)
  {
    hide RowSaved;
    assert (a + b)[..|a|] == a && (a + b)[|a|..] == b;
  }

  lemma NoRowsYet(rows: seq<RdbRow>, now: int)
    ensures RowsSaved(rows, 0, now, [])
  {
  }

  lemma RowIsOk(dbs: Databases, j: nat, i: nat)
    requires RdbRoundTrip.WellFormed(dbs) && j < |dbs| && i < |dbs[j]|
    ensures RdbRoundTrip.RowOk(dbs[j][i])
  {
    hide RdbRoundTrip.RowOk, UniqueKeys;
    assert IsRow(dbs, j, i);
  }

  /** The loop at line 670. */
  method WriteRows(rio: Rio, dbs: Databases, j: nat, now: int, compression: bool) returns (ghost bytes: seq<byte>)
    requires rio.Writing() && RdbRoundTrip.WellFormed(dbs) && j < |dbs|
    modifies rio
    ensures rio.Writing() && rio.data == old(rio.data) + bytes && RowsSaved(dbs[j], |dbs[j]|, now, bytes)
  {
    hide *;
    ghost var before := rio.data;
    bytes := [];
    NoRowsYet(dbs[j], now);
    var i := 0;
    while i < |dbs[j]|
      invariant i <= |dbs[j]| && rio.Writing() && rio.data == before + bytes && RowsSaved(dbs[j], i, now, bytes)
    {
      RowIsOk(dbs, j, i);
      ghost var b := WriteKeyValuePair(rio, dbs[j][i], now, compression);
      RowsGrow(dbs[j], i, now, bytes, b);
      bytes := bytes + b;
      i := i + 1;
    }
  }

  lemma DbIs(dbs: Databases, j: nat, now: int, e: seq<byte>)
    requires j < |dbs| && RowsSaved(dbs[j], |dbs[j]|, now, e)
    ensures DbSaved(dbs, j, now, if dbs[j] == [] then [] else [SELECTDB] + SaveLen(j) + e)
  {
    hide RowsSaved, SaveLen;
  }

  lemma EmptyDbIs(dbs: Databases, j: nat, now: int)
    requires j < |dbs| && dbs[j] == []
    ensures DbSaved(dbs, j, now, [])
  {
  }

  lemma DbsGrow(dbs: Databases, j: nat, now: int, a: seq<byte>, b: seq<byte>)
    requires j < |dbs| && DbsSaved(dbs, j, now, a) && DbSaved(dbs, j, now, b)
    ensures DbsSaved(dbs, j + 1, now, a + b)
  {
    hide DbSaved;
    assert (a + b)[..|a|] == a && (a + b)[|a|..] == b;
  }

  lemma NoDbsYet(dbs: Databases, now: int)
    ensures DbsSaved(dbs, 0, now, [])
  {
  }

  /** The loop at line 655. */
  method WriteDbs(rio: Rio, dbs: Databases, now: int, compression: bool) returns (ghost bytes: seq<byte>)
    requires rio.Writing() && RdbRoundTrip.WellFormed(dbs)
    modifies rio
    ensures rio.Writing() && rio.data == old(rio.data) + bytes && DbsSaved(dbs, |dbs|, now, bytes)
  {
    hide *;
    ghost var before := rio.data;
    bytes := [];
    NoDbsYet(dbs, now);
    var j := 0;
    while j < |dbs|
      invariant j <= |dbs| && rio.Writing() && rio.data == before + bytes && DbsSaved(dbs, j, now, bytes)
    {
      ghost var b := [];
      if dbs[j] == [] {
        EmptyDbIs(dbs, j, now);
      } else {
        rio.Write([SELECTDB]);
        WriteLen(rio, j);
        ghost var e := WriteRows(rio, dbs, j, now, compression);
        DbIs(dbs, j, now, e);
        b := [SELECTDB] + SaveLen(j) + e;
      }
      DbsGrow(dbs, j, now, bytes, b);
      assert rio.data == before + (bytes + b);
      bytes := bytes + b;
      j := j + 1;
    }
  }

  lemma FileIs(dbs: Databases, now: int, checksum: bool, body: seq<byte>, file: seq<byte>)
    requires DbsSaved(dbs, |dbs|, now, body)
    requires file == MAGIC + body + [EOF] + Footer(Checksum(checksum, MAGIC + body + [EOF]))
    ensures FileSaved(dbs, now, checksum, file)
  {
    hide DbsSaved, Footer, Checksum;
  }

  lemma WrittenSum(rio: Rio)
    requires rio.Writing()
    ensures rio.cksum == Checksum(rio.updating, rio.data)
  {
    assert rio.data[..rio.pos] == rio.data;
    hide Checksum;
  }

  /** rdbSave, as the contents of the file. */
  method SaveFile(dbs: Databases, now: int, checksum: bool, compression: bool) returns (file: seq<byte>)
    requires RdbRoundTrip.WellFormed(dbs)
    ensures FileSaved(dbs, now, checksum, file)
  {
    hide *;
    var rio := new Rio([], checksum);
    RioStarts(rio);
    rio.Write(MAGIC);
    ghost var body := WriteDbs(rio, dbs, now, compression);
    rio.Write([EOF]);
    WrittenSum(rio);
    assert rio.data == MAGIC + body + [EOF];
    var cksum := rio.cksum;
    rio.Write(Footer(cksum));
    file := rio.data;
    FileIs(dbs, now, checksum, body, file);
  }

  lemma RioStarts(rio: Rio)
    requires rio.Ok() && rio.data == [] && rio.pos == 0
    ensures rio.Writing()
  {
  }

  // ---- Loading ----

  /** rdbLoadLen; none for REDIS_RDB_LENERR. */
  method ReadLen(rio: Rio) returns (r: Option<(nat, bool)>)
    requires rio.Ok()
    modifies rio
    ensures rio.Ok() && rio.data == old(rio.data)
    ensures match LoadLen(old(rio.Rest()))
            case None => r == None
            case Some(l) => r == Some((l.n, l.encoded)) && rio.Rest() == l.rest
  {
    hide Checksum;
    ghost var s := rio.Rest();
    var first := rio.Read(1);
    if first.None? { return None; }
    var b: int := first.value[0];
    if b / 64 == 3 { return Some((b % 64, true)); }
    if b / 64 == 0 { return Some((b % 64, false)); }
    if b / 64 == 1 {
      var second := rio.Read(1);
      if second.None? { return None; }
      var c: int := second.value[0];
      assert c == s[1] && rio.Rest() == s[2..];
      return Some((b % 64 * 256 + c, false));
    }
    var four := rio.Read(4);
    if four.None? { return None; }
    var b1: int, b2: int, b3: int, b4: int := four.value[0], four.value[1], four.value[2], four.value[3];
    assert b1 == s[1] && b2 == s[2] && b3 == s[3] && b4 == s[4] && rio.Rest() == s[5..];
    var n := b1 * 0x100_0000 + b2 * 0x1_0000 + b3 * 256 + b4;
    return if n == LENERR then None else Some((n, false));
  }

  /** rdbLoadIntegerObject, for the width of the encoding. */
  method ReadInteger(rio: Rio, width: nat, limit: nat) returns (r: Option<seq<byte>>)
    requires rio.Ok() && width > 0
    modifies rio
    ensures rio.Ok() && rio.data == old(rio.data)
    ensures match LoadInteger(old(rio.Rest()), width, limit)
            case None => r == None
            case Some(l) => r == Some(l.value) && rio.Rest() == l.rest
  {
    hide Checksum, Signed, FromLe, Ll2String;
    var s := rio.Read(width);
    if s.None? { return None; }
    return Some(Ll2String(Signed(FromLe(s.value), limit)));
  }

  /** Lines 256-259: a zeroed buffer of len bytes that the compressed bytes are expanded into. */
  method Expand(c: seq<byte>, len: nat) returns (r: Option<seq<byte>>)
    requires c != []
    ensures match LzfFormat.Decode(c, len)
            case Error(_) => r == None
            case Ok(text) => 0 < |text| <= len && r == Some(Filled(text, len))
  {
    var val := new byte[len](_ => 0);
    ghost var zeros := val[..];
    var status := Lzf.Decompress(c, val, len);
    hide LzfFormat.Decode;
    match status
    case Failed(_) => r := None;
    case Done(n) =>
      assert zeros[n..] == seq(len - n, _ => 0);
      r := Some(val[..]);
  }

  /** rdbLoadLzfStringObject. */
  method ReadLzf(rio: Rio) returns (r: Option<seq<byte>>)
    requires rio.Ok()
    modifies rio
    ensures rio.Ok() && rio.data == old(rio.data)
    ensures match LoadLzf(old(rio.Rest()))
            case None => r == None
            case Some(l) => r == Some(l.value) && rio.Rest() == l.rest
  {
    hide Checksum, LoadLen, LzfFormat.Decode, Filled;
    var clen := ReadLen(rio);
    if clen.None? { return None; }
    var len := ReadLen(rio);
    if len.None? { return None; }
    var c := rio.Read(clen.value.0);
    if c.None? { return None; }
    r := Expand(c.value, len.value.0);
  }

  /** rdbGenericLoadStringObject. */
  method ReadString(rio: Rio) returns (r: Option<seq<byte>>)
    requires rio.Ok()
    modifies rio
    ensures rio.Ok() && rio.data == old(rio.data)
    ensures match LoadString(old(rio.Rest()))
            case None => r == None
            case Some(l) => r == Some(l.value) && rio.Rest() == l.rest
  {
    hide Checksum, LoadLen, LoadInteger, LoadLzf;
    var l := ReadLen(rio);
    if l.None? { return None; }
    var n := l.value.0;
    if l.value.1 {
      if n == 0 { r := ReadInteger(rio, 1, 0x80); }
      else if n == 1 { r := ReadInteger(rio, 2, 0x8000); }
      else if n == 2 { r := ReadInteger(rio, 4, 0x8000_0000); }
      else if n == 3 { r := ReadLzf(rio); }
      else { r := None; }
    } else if n == 0 {
      r := Some([]);
    } else {
      r := rio.Read(n);
    }
  }

  /** The loops that read the elements of a list or a set. */
  method ReadItems(rio: Rio, len: nat) returns (r: Option<seq<seq<byte>>>)
    requires rio.Ok()
    modifies rio
    ensures rio.Ok() && rio.data == old(rio.data)
    ensures match LoadItems(old(rio.Rest()), len, [])
            case None => r == None
            case Some(l) => r == Some(l.value) && rio.Rest() == l.rest
  {
    hide Checksum, LoadString;
    ghost var goal := LoadItems(rio.Rest(), len, []);
    var left, items := len, [];
    while left > 0
      invariant rio.Ok() && rio.data == old(rio.data)
      invariant LoadItems(rio.Rest(), left, items) == goal
    {
      left := left - 1;
      var ele := ReadString(rio);
      if ele.None? { return None; }
      items := items + [ele.value];
    }
    return Some(items);
  }

  /** The loops that read the fields and values of a hash. */
  method ReadFields(rio: Rio, len: nat) returns (r: Option<map<seq<byte>, seq<byte>>>)
    requires rio.Ok()
    modifies rio
    ensures rio.Ok() && rio.data == old(rio.data)
    ensures match LoadFields(old(rio.Rest()), len, map[])
            case None => r == None
            case Some(l) => r == Some(l.value) && rio.Rest() == l.rest
  {
    hide Checksum, LoadString;
    ghost var goal := LoadFields(rio.Rest(), len, map[]);
    var left, fields := len, map[];
    while left > 0
      invariant rio.Ok() && rio.data == old(rio.data)
      invariant LoadFields(rio.Rest(), left, fields) == goal
    {
      left := left - 1;
      var field := ReadString(rio);
      if field.None? { return None; }
      var value := ReadString(rio);
      if value.None? { return None; }
      if field.value in fields { return None; }
      fields := fields[field.value := value.value];
    }
    return Some(fields);
  }

  /** rdbLoadObject. */
  method ReadObject(rio: Rio, kind: byte) returns (r: Option<RdbValue>)
    requires rio.Ok()
    modifies rio
    ensures rio.Ok() && rio.data == old(rio.data)
    ensures match LoadObject(old(rio.Rest()), kind)
            case None => r == None
            case Some(l) => r == Some(l.value) && rio.Rest() == l.rest
  {
    hide Checksum, LoadString, LoadLen, LoadItems, LoadFields;
    if kind == 0 || IsPackedKind(kind) {
      var s := ReadString(rio);
      if s.None? { return None; }
      return Some(if kind == 0 then PlainVal(StringVal(s.value)) else PackedVal(kind, s.value));
    }
    var len := ReadLen(rio);
    if len.None? { return None; }
    if kind == 1 || kind == 2 {
      var items := ReadItems(rio, len.value.0);
      if items.None? { return None; }
      return Some(PlainVal(if kind == 1 then ListVal(items.value) else SetVal(set x | x in items.value)));
    }
    if kind != 4 { return None; }
    var fields := ReadFields(rio, len.value.0);
    if fields.None? { return None; }
    return Some(PlainVal(HashVal(fields.value)));
  }

  // ---- Loading files ----

  /** rdbLoadType. */
  method ReadType(rio: Rio) returns (r: Option<byte>)
    requires rio.Ok()
    modifies rio
    ensures rio.Ok() && rio.data == old(rio.data)
    ensures if old(rio.Rest()) == [] then r == None
            else r == Some(old(rio.Rest())[0]) && rio.Rest() == old(rio.Rest())[1..]
  {
    hide Checksum;
    var s := rio.Read(1);
    if s.None? { return None; }
    return Some(s.value[0]);
  }

  lemma TimeParts(s: seq<byte>, n: nat)
    requires n + 2 <= |s|
    ensures s[1..][..n] == s[1..n + 1] && s[1..][n..][0] == s[n + 1] && s[1..][n..][1..] == s[n + 2..]
  {
  }

  /** Lines 1103-1118: the type of the next record, and the deadline before it. */
  method ReadOpcode(rio: Rio) returns (r: Option<(byte, int)>)
    requires rio.Ok()
    modifies rio
    ensures rio.Ok() && rio.data == old(rio.data)
    ensures match LoadOpcode(old(rio.Rest()))
            case None => r == None
            case Some(op) => r == Some((op.kind, op.expire)) && rio.Rest() == op.rest
  {
    hide Checksum, FromLe, Signed;
    ghost var s := rio.Rest();
    var kind := ReadType(rio);
    if kind.None? { return None; }
    if kind.value != EXPIRETIME && kind.value != EXPIRETIME_MS { return Some((kind.value, -1)); }
    var n := if kind.value == EXPIRETIME then 4 else 8;
    var time := rio.Read(n);
    if time.None? { return None; }
    var t := Signed(FromLe(time.value), if n == 4 then 0x8000_0000 else 0x8000_0000_0000_0000);
    var next := ReadType(rio);
    if |s| >= n + 2 { TimeParts(s, n); }
    if t == -1 || next.None? { return None; }
    return Some((next.value, if n == 4 then t * 1000 else t));
  }

  /** Lines 1134-1137: a key and its value. */
  method ReadPair(rio: Rio, kind: byte, ghost expire: int) returns (r: Option<(seq<byte>, RdbValue)>)
    requires rio.Ok()
    modifies rio
    ensures rio.Ok() && rio.data == old(rio.data)
    ensures match LoadPair(Opcode(kind, expire, old(rio.Rest())))
            case None => r == None
            case Some(p) => r == Some(p.value) && rio.Rest() == p.rest
  {
    hide Checksum, LoadString, LoadObject;
    var key := ReadString(rio);
    if key.None? { return None; }
    var val := ReadObject(rio, kind);
    if val.None? { return None; }
    return Some((key.value, val.value));
  }

  /** The loop at line 1093. */
  method ReadRecords(rio: Rio, env: Env) returns (r: Option<Table<RdbEntry>>)
    requires rio.Ok()
    modifies rio
    ensures rio.Ok() && rio.data == old(rio.data)
    ensures match LoadRecords(old(rio.Rest()), map[], 0, env)
            case None => r == None
            case Some(l) => r == Some(l.value) && rio.Rest() == l.rest
  {
    hide Checksum, LoadOpcode, LoadLen, LoadPair;
    ghost var goal := LoadRecords(rio.Rest(), map[], 0, env);
    var d: Table<RdbEntry>, db := map[], 0;
    while true
      invariant rio.Ok() && rio.data == old(rio.data)
      invariant LoadRecords(rio.Rest(), d, db, env) == goal
      decreases |rio.data| - rio.pos
    {
      ghost var left := |rio.Rest()|;
      var op := ReadOpcode(rio);
      if op.None? { return None; }
      var kind, expire := op.value.0, op.value.1;
      if kind == EOF { return Some(d); }
      if kind == SELECTDB {
        var dbid := ReadLen(rio);
        if dbid.None? || dbid.value.0 >= env.dbnum { return None; }
        db := dbid.value.0;
      } else {
        var p := ReadPair(rio, kind, expire);
        if p.None? { return None; }
        if !env.slave && expire != -1 && expire < env.now {
        } else if (db, p.value.0) in d {
          return None;
        } else {
          d := d[(db, p.value.0) := RdbEntry(p.value.1, expire)];
        }
      }
      assert |rio.Rest()| < left;
    }
  }

  /** Lines 1156-1168: whether the checksum that follows the records is accepted. */
  method CheckSum(rio: Rio) returns (ok: bool)
    requires rio.Ok() && rio.updating
    modifies rio
    ensures var rest, read := old(rio.Rest()), old(rio.data[..rio.pos]);
            ok <==> |rest| >= 8 && (rest[..8] == Footer(0) || rest[..8] == Footer(Crc64.Divide(0, read)))
  {
    assert rio.cksum == Crc64.Divide(0, rio.data[..rio.pos]);
    hide Checksum, Footer, Crc64.Divide;
    var expected := rio.cksum;
    var cksum := rio.Read(8);
    if cksum.None? { return false; }
    return cksum.value == Footer(0) || cksum.value == Footer(expected);
  }

  lemma ReadSoFar(data: seq<byte>, pos: nat)
    requires pos <= |data|
    ensures data[..|data| - |data[pos..]|] == data[..pos]
  {
  }

  lemma Signature(file: seq<byte>)
    requires |file| >= 9
    ensures file[..9][..5] == file[..5] && file[..9][5..] == file[5..9]
  {
  }

  /** rdbLoad. */
  method ReadFile(file: seq<byte>, env: Env) returns (r: Option<Table<RdbEntry>>)
    ensures r == LoadFile(file, env)
    ensures r.Some? && env.checksum && Strtoll(file[5..9]).0 >= 5 ==> RdbForeign.Checked(file, env)
  {
    if LoadFile(file, env).Some? {
      RdbForeign.HeaderNeeded(file, env);
      if env.checksum && Strtoll(file[5..9]).0 >= 5 { RdbForeign.AcceptedIsChecked(file, env); }
    }
    hide Checksum, Footer, Crc64.Divide, LoadRecords, Strtoll, RdbForeign.Checked;
    var rio := new Rio(file, env.checksum);
    assert rio.Rest() == file;
    var buf := rio.Read(9);
    if buf.None? { return None; }
    Signature(file);
    if buf.value[..5] != MAGIC[..5] { return None; }
    var version := Strtoll(buf.value[5..]).0;
    if version < 1 || version > RDB_VERSION { return None; }
    r := ReadRecords(rio, env);
    if r.None? { return; }
    if version >= 5 && env.checksum {
      ReadSoFar(file, rio.pos);
      var ok := CheckSum(rio);
      if !ok { return None; }
    }
  }

  /** Saving and loading again gives the one table of the keys that are still live. */
  method SaveThenLoad(dbs: Databases, saved: int, checksum: bool, compression: bool, env: Env)
    returns (r: Option<Table<RdbEntry>>)
    requires RdbRoundTrip.WellFormed(dbs) && |dbs| <= env.dbnum
    ensures r.Some? && IsLive(r.value, dbs, RdbRoundTrip.KeyOf, RdbRoundTrip.LoadedAt(saved, env))
    ensures forall d :: IsLive(d, dbs, RdbRoundTrip.KeyOf, RdbRoundTrip.LoadedAt(saved, env)) ==> r == Some(d)
  {
    hide *;
    var file := SaveFile(dbs, saved, checksum, compression);
    r := ReadFile(file, env);
    RdbRoundTrip.FileRoundTrip(dbs, saved, checksum, file, env);
    forall d | IsLive(d, dbs, RdbRoundTrip.KeyOf, RdbRoundTrip.LoadedAt(saved, env)) ensures r == Some(d) {
      LiveIsUnique(r.value, d, dbs, RdbRoundTrip.KeyOf, RdbRoundTrip.LoadedAt(saved, env));
    }
  }
}
