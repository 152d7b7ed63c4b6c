/**
  The RDB format of redis-stable/src/rdb.c: what the saving functions may write, and the loading functions on the bytes
  that are still to be read.
 */
module RdbSpec {
  import opened Bytes
  import opened Decimal
  import opened LittleEndian
  import opened Objects
  import opened Keyspaces
  import LzfFormat
  import Crc64

  const LENERR := 0xffff_ffff

  const EXPIRETIME_MS: byte := 252
  const EXPIRETIME: byte := 253
  const SELECTDB: byte := 254
  const EOF: byte := 255
  const RDB_VERSION := 6

  /** "REDIS0006" */
  const MAGIC: seq<byte> := [82, 69, 68, 73, 83, 48, 48, 48, 54]

  // ---- Lengths (lines 82-135) ----

  /** rdbSaveLen; the argument is converted to 32 bits. */
  function SaveLen(n: nat): (s: seq<byte>)
    ensures s != []
  {
    var len := n % 0x1_0000_0000;
    if len < 64 then [len]
    else if len < 16384 then [64 + len / 256, len % 256]
    else [128, len / 0x100_0000, len / 0x1_0000 % 256, len / 256 % 256, len % 256]
  }

  /** A length or, if encoded is set, the kind of a specially encoded string. */
  datatype Length = Length(n: nat, encoded: bool, rest: seq<byte>)

  /** rdbLoadLen; none when the caller sees REDIS_RDB_LENERR. */
  function LoadLen(s: seq<byte>): (r: Option<Length>)
    ensures r.Some? ==> |r.value.rest| < |s|
  {
    if s == [] then None
    else
      var b: int := s[0];
      if b / 64 == 3 then Some(Length(b % 64, true, s[1..]))
      else if b / 64 == 0 then Some(Length(b % 64, false, s[1..]))
      else if b / 64 == 1 then
        if |s| < 2 then None
        else
          var c: int := s[1];
          Some(Length(b % 64 * 256 + c, false, s[2..]))
      else if |s| < 5 then None
      else
        var b1: int, b2: int, b3: int, b4: int := s[1], s[2], s[3], s[4];
        var n := b1 * 0x100_0000 + b2 * 0x1_0000 + b3 * 256 + b4;
        if n == LENERR then None else Some(Length(n, false, s[5..]))
  }

  // ---- Strings (lines 141-367) ----

  /** rdbEncodeInteger; empty when the value does not fit. */
  function EncodeInteger(v: int): seq<byte> {
    if -0x80 <= v < 0x80 then [192] + LeBytes(v, 1)
    else if -0x8000 <= v < 0x8000 then [193] + LeBytes(v, 2)
    else if -0x8000_0000 <= v < 0x8000_0000 then [194] + LeBytes(v, 4)
    else []
  }

  /** rdbTryIntegerEncoding; a string ends at its first NUL for strtoll. */
  function TryIntegerEncoding(s: seq<byte>): seq<byte> {
    var (value, used) := Strtoll(s);
    if used < |s| && s[used] != 0 then []
    else if Ll2String(value) != s then []
    else EncodeInteger(value)
  }

  /** What rdbSaveLzfStringObject writes when the compressor returns c. */
  function LzfSaved(s: seq<byte>, c: seq<byte>): seq<byte> {
    [195] + SaveLen(|c|) + SaveLen(|s|) + c
  }

  /** The bytes that lzf_compress may return for s in the room that it is given. */
  predicate Compressed(s: seq<byte>, c: seq<byte>) {
    0 < |c| <= |s| - 4 && LzfFormat.Decode(c, |s|) == LzfFormat.Ok(s)
  }

  /** What rdbSaveRawString may write. */
  ghost predicate RawSaved(s: seq<byte>, bytes: seq<byte>) {
    var enc := if |s| <= 11 then TryIntegerEncoding(s) else [];
    if enc != [] then bytes == enc
    else bytes == SaveLen(|s|) + s || (|s| > 20 && exists c :: Compressed(s, c) && bytes == LzfSaved(s, c))
  }

  /** rdbSaveStringObject. */
  ghost predicate StrSaved(s: Str, bytes: seq<byte>) {
    match s
    case Int(n) => bytes == if EncodeInteger(n) != [] then EncodeInteger(n) else SaveLen(|Ll2String(n)|) + Ll2String(n)
    case Raw(b) => RawSaved(b, bytes)
  }

  /** A string and what is left to read. */
  datatype Loaded<+T> = Loaded(value: T, rest: seq<byte>)

  /** rdbLoadIntegerObject, for the width of the encoding. */
  function LoadInteger(s: seq<byte>, width: nat, limit: nat): (r: Option<Loaded<seq<byte>>>)
    ensures r.Some? ==> |r.value.rest| <= |s|
  {
    if |s| < width then None else Some(Loaded(Ll2String(Signed(FromLe(s[..width]), limit)), s[width..]))
  }

  /** A buffer of len bytes that is zero but for what lzf_decompress writes at its start. */
  function Filled(text: seq<byte>, len: nat): seq<byte>
    requires |text| <= len
  {
    text + seq(len - |text|, i => 0)
  }

  /** rdbLoadLzfStringObject. */
  function LoadLzf(s: seq<byte>): (r: Option<Loaded<seq<byte>>>)
    ensures r.Some? ==> |r.value.rest| <= |s|
  {
    match LoadLen(s)
    case None => None
    case Some(clen) =>
      match LoadLen(clen.rest)
      case None => None
      case Some(len) =>
        if clen.n == 0 || clen.n > |len.rest| then None
        else
          match LzfFormat.Decode(len.rest[..clen.n], len.n)
          case Error(_) => None
          case Ok(text) =>
            if 0 < |text| <= len.n then Some(Loaded(Filled(text, len.n), len.rest[clen.n..])) else None
  }

  /** rdbGenericLoadStringObject, as the text of the object. */
  function LoadString(s: seq<byte>): (r: Option<Loaded<seq<byte>>>)
    ensures r.Some? ==> |r.value.rest| < |s|
  {
    match LoadLen(s)
    case None => None
    case Some(l) =>
      if l.encoded then
        if l.n == 0 then LoadInteger(l.rest, 1, 0x80)
        else if l.n == 1 then LoadInteger(l.rest, 2, 0x8000)
        else if l.n == 2 then LoadInteger(l.rest, 4, 0x8000_0000)
        else if l.n == 3 then LoadLzf(l.rest)
        else None
      else if l.n > |l.rest| then None
      else Some(Loaded(l.rest[..l.n], l.rest[l.n..]))
  }

  // ---- Objects (lines 430-595, 771-1032) ----

  /** Objects in a packed encoding are written as one string: kind is 10 to 13. */
  datatype RdbObj = Plain(o: Obj) | Packed(kind: byte, data: seq<byte>)

  datatype RdbValue = PlainVal(v: Value) | PackedVal(kind: byte, data: seq<byte>)

  predicate IsPackedKind(kind: byte) { 10 <= kind <= 13 }

  /** rdbSaveObjectType. */
  function TypeOf(o: RdbObj): byte {
    match o
    case Packed(kind, _) => kind
    case Plain(StringObj(_)) => 0
    case Plain(ListObj(_)) => 1
    case Plain(SetObj(_)) => 2
    case Plain(HashObj(_)) => 4
  }

  ghost predicate ItemsSaved(items: seq<Str>, bytes: seq<byte>) {
    if items == [] then bytes == []
    else
      var n := |items| - 1;
      exists k | 0 <= k <= |bytes| :: ItemsSaved(items[..n], bytes[..k]) && StrSaved(items[n], bytes[k..])
  }

  ghost predicate FieldsSaved(fields: seq<(Str, Str)>, bytes: seq<byte>) {
    if fields == [] then bytes == []
    else
      var n := |fields| - 1;
      exists k, m | 0 <= k <= m <= |bytes| ::
        FieldsSaved(fields[..n], bytes[..k]) && StrSaved(fields[n].0, bytes[k..m]) && StrSaved(fields[n].1, bytes[m..])
  }

  /** The number of elements, and then the elements. */
  ghost predicate CollectionSaved(n: nat, bytes: seq<byte>, elements: seq<byte>) {
    bytes == SaveLen(n) + elements
  }

  /** What rdbSaveObject may write. */
  ghost predicate ObjSaved(o: RdbObj, bytes: seq<byte>) {
    match o
    case Packed(_, data) => RawSaved(data, bytes)
    case Plain(StringObj(s)) => StrSaved(s, bytes)
    case Plain(ListObj(items)) => exists e :: CollectionSaved(|items|, bytes, e) && ItemsSaved(items, e)
    case Plain(SetObj(items)) => exists e :: CollectionSaved(|items|, bytes, e) && ItemsSaved(items, e)
    case Plain(HashObj(fields)) => exists e :: CollectionSaved(|fields|, bytes, e) && FieldsSaved(fields, e)
  }

  /** count strings; acc are those already read. */
  function LoadItems(s: seq<byte>, count: nat, acc: seq<seq<byte>>): (r: Option<Loaded<seq<seq<byte>>>>)
    ensures r.Some? ==> |r.value.rest| <= |s|
    decreases count
  {
    if count == 0 then Some(Loaded(acc, s))
    else
      match LoadString(s)
      case None => None
      case Some(l) => LoadItems(l.rest, count - 1, acc + [l.value])
  }

  /** count pairs of strings; a field that is already there fails an assertion. */
  function LoadFields(s: seq<byte>, count: nat, acc: map<seq<byte>, seq<byte>>)
    : (r: Option<Loaded<map<seq<byte>, seq<byte>>>>)
    ensures r.Some? ==> |r.value.rest| <= |s|
    decreases count
  {
    if count == 0 then Some(Loaded(acc, s))
    else
      match LoadString(s)
      case None => None
      case Some(f) =>
        match LoadString(f.rest)
        case None => None
        case Some(v) => if f.value in acc then None else LoadFields(v.rest, count - 1, acc[f.value := v.value])
  }

  /** rdbLoadObject; sorted sets and zipmaps are not part of this model. */
  function LoadObject(s: seq<byte>, kind: byte): (r: Option<Loaded<RdbValue>>)
    ensures r.Some? ==> |r.value.rest| <= |s|
  {
    if kind == 0 || IsPackedKind(kind) then
      match LoadString(s)
      case None => None
      case Some(l) => Some(Loaded(if kind == 0 then PlainVal(StringVal(l.value)) else PackedVal(kind, l.value), l.rest))
    else
      match LoadLen(s)
      case None => None
      case Some(len) =>
        if kind == 1 || kind == 2 then
          match LoadItems(len.rest, len.n, [])
          case None => None
          case Some(l) =>
            Some(Loaded(PlainVal(if kind == 1 then ListVal(l.value) else SetVal(set x | x in l.value)), l.rest))
        else if kind == 4 then
          match LoadFields(len.rest, len.n, map[])
          case None => None
          case Some(l) => Some(Loaded(PlainVal(HashVal(l.value)), l.rest))
        else None
  }

  // ---- Files (lines 611-716, 1061-1178) ----

  datatype RdbRow = RdbRow(key: seq<byte>, obj: RdbObj, expire: int)

  datatype RdbEntry = RdbEntry(value: RdbValue, expire: int)

  type Databases = d: seq<seq<RdbRow>> | |d| < LENERR

  /** What comes before the type of a pair. */
  function DeadlineSaved(expire: int): seq<byte> {
    if expire == -1 then [] else [EXPIRETIME_MS] + LeBytes(expire, 8)
  }

  /** What rdbSaveKeyValuePair may write. */
  ghost predicate RowSaved(r: RdbRow, now: int, bytes: seq<byte>) {
    if r.expire != -1 && r.expire < now then bytes == []
    else exists k, v :: RawSaved(r.key, k) && ObjSaved(r.obj, v)
                     && bytes == DeadlineSaved(r.expire) + [TypeOf(r.obj)] + k + v
  }

  /** The first i rows of a database. */
  ghost predicate RowsSaved(rows: seq<RdbRow>, i: nat, now: int, bytes: seq<byte>)
    requires i <= |rows|
  {
    if i == 0 then bytes == []
    else exists k | 0 <= k <= |bytes| ::
           RowsSaved(rows, i - 1, now, bytes[..k]) && RowSaved(rows[i - 1], now, bytes[k..])
  }

  /** One database; nothing is written for an empty one. */
  ghost predicate DbSaved(dbs: Databases, j: nat, now: int, bytes: seq<byte>)
    requires j < |dbs|
  {
    if dbs[j] == [] then bytes == []
    else exists e :: RowsSaved(dbs[j], |dbs[j]|, now, e) && bytes == [SELECTDB] + SaveLen(j) + e
  }

  /** The first j databases. */
  ghost predicate DbsSaved(dbs: Databases, j: nat, now: int, bytes: seq<byte>)
    requires j <= |dbs|
  {
    if j == 0 then bytes == []
    else exists k | 0 <= k <= |bytes| :: DbsSaved(dbs, j - 1, now, bytes[..k]) && DbSaved(dbs, j - 1, now, bytes[k..])
  }

  /** The byte of a checksum that starts at bit n. */
  function ByteAt(c: bv64, n: bv8): byte
    requires n <= 56
  {
    (((c >> n) & 0xff) as bv8) as int
  }

  /** A checksum in little endian order. */
  function Footer(c: bv64): (s: seq<byte>)
    ensures |s| == 8
  {
    [ByteAt(c, 0), ByteAt(c, 8), ByteAt(c, 16), ByteAt(c, 24),
     ByteAt(c, 32), ByteAt(c, 40), ByteAt(c, 48), ByteAt(c, 56)]
  }

  /** Zero when checksums are switched off. */
  function Checksum(enabled: bool, bytes: seq<byte>): bv64 {
    if enabled then Crc64.Divide(0, bytes) else 0
  }

  /** What rdbSave may write. */
  ghost predicate FileSaved(dbs: Databases, now: int, checksum: bool, file: seq<byte>) {
    exists body :: DbsSaved(dbs, |dbs|, now, body)
                && file == MAGIC + body + [EOF] + Footer(Checksum(checksum, MAGIC + body + [EOF]))
  }

  /** What rdbLoad depends on: the clock, server.masterhost, server.dbnum and server.rdb_checksum. */
  datatype Env = Env(now: int, slave: bool, dbnum: nat, checksum: bool)

  /** The type of the next record and the deadline before it. */
  datatype Opcode = Opcode(kind: byte, expire: int, rest: seq<byte>)

  function LoadOpcode(s: seq<byte>): (r: Option<Opcode>)
    ensures r.Some? ==> |r.value.rest| < |s|
  {
    if s == [] then None
    else if s[0] == EXPIRETIME then
      if |s| < 6 then None
      else
        var t := Signed(FromLe(s[1..5]), 0x8000_0000);
        if t == -1 then None else Some(Opcode(s[5], t * 1000, s[6..]))
    else if s[0] == EXPIRETIME_MS then
      if |s| < 10 then None
      else
        var t := Signed(FromLe(s[1..9]), 0x8000_0000_0000_0000);
        if t == -1 then None else Some(Opcode(s[9], t, s[10..]))
    else Some(Opcode(s[0], -1, s[1..]))
  }

  /** The loop at line 1093: the keys of all databases, and what follows the end of the records. */
  function LoadRecords(s: seq<byte>, d: Table<RdbEntry>, db: int, env: Env): (r: Option<Loaded<Table<RdbEntry>>>)
    ensures r.Some? ==> |r.value.rest| < |s|
    decreases |s|
  {
    match LoadOpcode(s)
    case None => None
    case Some(op) =>
      if op.kind == EOF then Some(Loaded(d, op.rest))
      else if op.kind == SELECTDB then
        match LoadLen(op.rest)
        case None => None
        case Some(l) => if l.n >= env.dbnum then None else LoadRecords(l.rest, d, l.n, env)
      else
        match LoadPair(op)
        case None => None
        case Some(p) =>
          if !env.slave && op.expire != -1 && op.expire < env.now then LoadRecords(p.rest, d, db, env)
          else if (db, p.value.0) in d then None
          else LoadRecords(p.rest, d[(db, p.value.0) := RdbEntry(p.value.1, op.expire)], db, env)
  }

  /** A key and its value. */
  function LoadPair(op: Opcode): (r: Option<Loaded<(seq<byte>, RdbValue)>>)
    ensures r.Some? ==> |r.value.rest| <= |op.rest|
  {
    match LoadString(op.rest)
    case None => None
    case Some(k) =>
      match LoadObject(k.rest, op.kind)
      case None => None
      case Some(v) => Some(Loaded((k.value, v.value), v.rest))
  }

  /** rdbLoad; none when it refuses the file or exits. */
  function LoadFile(file: seq<byte>, env: Env): Option<Table<RdbEntry>> {
    if |file| < 9 || file[..5] != MAGIC[..5] then None
    else
      var version := Strtoll(file[5..9]).0;
      if version < 1 || version > RDB_VERSION then None
      else
        match LoadRecords(file[9..], map[], 0, env)
        case None => None
        case Some(l) =>
          if version < 5 || !env.checksum then Some(l.value)
          else if |l.rest| < 8 then None
          else if l.rest[..8] == Footer(0) || l.rest[..8] == Footer(Crc64.Divide(0, file[..|file| - |l.rest|])) then
            Some(l.value)
          else None
  }
}
