/** Redis objects as the emitters of the append only file and of RDB files see them, and the values they stand for. */
module Objects {
  import opened Bytes
  import opened Decimal

  /** A string object: REDIS_ENCODING_INT or REDIS_ENCODING_RAW. */
  datatype Str = Int(n: int) | Raw(s: seq<byte>)

  function Text(s: Str): seq<byte> {
    match s
    case Int(n) => Ll2String(n)
    case Raw(b) => b
  }

  /** The elements of a collection in the order in which its iterator returns them. */
  datatype Obj = StringObj(s: Str) | ListObj(items: seq<Str>) | SetObj(members: seq<Str>)
               | HashObj(fields: seq<(Str, Str)>)

  datatype Value = StringVal(s: seq<byte>)
                 | ListVal(items: seq<seq<byte>>)
                 | SetVal(members: set<seq<byte>>)
                 | HashVal(fields: map<seq<byte>, seq<byte>>)

  function Texts(items: seq<Str>): (r: seq<seq<byte>>)
    ensures |r| == |items|
  {
    seq(|items|, i requires 0 <= i < |items| => Text(items[i]))
  }

  function FieldMap(fields: seq<(Str, Str)>): map<seq<byte>, seq<byte>> {
    if fields == [] then map[]
    else
      var n := |fields| - 1;
      FieldMap(fields[..n])[Text(fields[n].0) := Text(fields[n].1)]
  }

  function ValueOf(o: Obj): Value {
    match o
    case StringObj(s) => StringVal(Text(s))
    case ListObj(items) => ListVal(Texts(items))
    case SetObj(members) => SetVal(set m | m in members :: Text(m))
    case HashObj(fields) => HashVal(FieldMap(fields))
  }
}
