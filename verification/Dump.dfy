/** The payload of DUMP and RESTORE (redis-stable/src/migrate.c:10-60). */
module Dump {
  import opened Bytes
  import opened RdbSpec
  import Crc64
  import Rdb
  import RdbRoundTrip
  import opened RdbFooter

  /** The version in little endian order. */
  const VERSION_BYTES: seq<byte> := [RDB_VERSION % 256, RDB_VERSION / 256]

  function Checksummed(s: seq<byte>): seq<byte> {
    s + Footer(Crc64.Divide(0, s))
  }

  /** A body with its footer. */
  function Payload(body: seq<byte>): seq<byte> {
    Checksummed(body + VERSION_BYTES)
  }

  /** verifyDumpPayload. */
  predicate Accepts(p: seq<byte>) {
    && |p| >= 10
    && var footer := p[|p| - 10..];
       var low: int, high: int := footer[0], footer[1];
       high * 256 + low == RDB_VERSION && footer[2..] == Footer(Crc64.Divide(0, p[..|p| - 8]))
  }

  /** Strings end alike only if they are alike. */
  lemma ChecksummedParts(s: seq<byte>)
    ensures |Checksummed(s)| == |s| + 8 && Checksummed(s)[..|s|] == s
    ensures Checksummed(s)[|s|..] == Footer(Crc64.Divide(0, s))
  {
    hide Footer, Crc64.Divide;
  }

  /** A payload is accepted exactly if it was made from some body. */
  lemma AcceptsExactlyPayloads(p: seq<byte>)
    ensures Accepts(p) <==> exists body :: p == Payload(body)
  {
    if Accepts(p) {
      hide Footer, Crc64.Divide;
      var n := |p| - 10;
      var body := p[..n];
      assert p[n..][0] == p[n] && p[n..][1] == p[n + 1] && p[n..][2..] == p[n + 2..];
      assert body + VERSION_BYTES == p[..n + 2];
      assert p == Payload(body);
    }
    forall body | p == Payload(body)
      ensures Accepts(p)
    {
      PayloadAccepted(body);
    }
  }

  lemma PayloadAccepted(body: seq<byte>)
    ensures Accepts(Payload(body))
  {
    var p, n := Payload(body), |body|;
    ChecksummedParts(body + VERSION_BYTES);
    hide Footer, Crc64.Divide, Checksummed;
    assert p[n..][0] == p[..n + 2][n] && p[n..][1] == p[..n + 2][n + 1];
    assert p[n..][2..] == p[n + 2..];
    assert |p| - 10 == n;
  }

  lemma FooterKept(p: seq<byte>, s: seq<byte>, t: seq<byte>)
    requires Accepts(p) && p == t + Footer(Crc64.Divide(0, s)) && |t| == |s|
    ensures Crc64.Divide(0, t) == Crc64.Divide(0, s)
  {
    var n := |p| - 10;
    assert p[n..][2..] == p[n + 2..] == Footer(Crc64.Divide(0, s));
    assert p[..|p| - 8] == t;
    hide Footer, Crc64.Divide;
    FooterInjective(Crc64.Divide(0, t), Crc64.Divide(0, s));
  }

  /** A payload is rejected after any change, before the checksum, that is confined to eight consecutive bytes. */
  lemma BurstRejected(body: seq<byte>, before: seq<byte>, u: seq<byte>, v: seq<byte>, after: seq<byte>)
    requires body + VERSION_BYTES == before + u + after && |u| == |v| <= 8 && u != v
    ensures Payload(body) == before + u + after + Footer(Crc64.Divide(0, body + VERSION_BYTES))
    ensures !Accepts(before + v + after + Footer(Crc64.Divide(0, body + VERSION_BYTES)))
  {
    hide Accepts, Footer, Crc64.Divide;
    var p := before + v + after + Footer(Crc64.Divide(0, body + VERSION_BYTES));
    if Accepts(p) {
      FooterKept(p, before + u + after, before + v + after);
      Crc64.BurstChangesChecksum(0, before, u, v, after);
    }
  }

  lemma NotUpdating(rio: Rdb.Rio)
    requires rio.Ok() && rio.data == [] && rio.pos == 0
    ensures rio.Writing()
  {
  }

  /** createDumpPayload. */
  method CreateDumpPayload(o: RdbObj, compression: bool) returns (p: seq<byte>, ghost bytes: seq<byte>)
    requires RdbRoundTrip.ObjOk(o)
    ensures ObjSaved(o, bytes) && p == Payload([TypeOf(o)] + bytes)
  {
    hide *;
    var payload := new Rdb.Rio([], false);
    NotUpdating(payload);
    payload.Write([TypeOf(o)]);
    bytes := Rdb.WriteObject(payload, o, compression);
    var s := payload.data + VERSION_BYTES;
    var crc := Crc64.Crc64(0, s);
    p := s + Footer(crc);
    assert s == [TypeOf(o)] + bytes + VERSION_BYTES;
    PayloadIs([TypeOf(o)] + bytes);
  }

  lemma PayloadIs(body: seq<byte>)
    ensures var s := body + VERSION_BYTES; Payload(body) == s + Footer(Crc64.Divide(0, s))
  {
    hide Footer, Crc64.Divide;
  }

  /** verifyDumpPayload. */
  method VerifyDumpPayload(p: seq<byte>) returns (ok: bool)
    ensures ok == Accepts(p)
  {
    hide Footer, Crc64.Divide;
    if |p| < 10 { return false; }
    var footer := p[|p| - 10..];
    var low: int, high: int := footer[0], footer[1];
    var rdbver := high * 256 + low;
    if rdbver != RDB_VERSION { return false; }
    var crc := Crc64.Crc64(0, p[..|p| - 8]);
    return Footer(crc) == footer[2..];
  }

  /** What RESTORE makes of a payload: the object that was dumped. */
  lemma RestoreInvertsDump(o: RdbObj, bytes: seq<byte>)
    requires RdbRoundTrip.ObjOk(o) && ObjSaved(o, bytes)
    ensures var p := Payload([TypeOf(o)] + bytes);
            && Accepts(p) && p[0] == TypeOf(o)
            && LoadObject(p[1..], p[0]) == Some(Loaded(RdbRoundTrip.RdbValueOf(o), p[|bytes| + 1..]))
  {
    hide *;
    var body := [TypeOf(o)] + bytes;
    PayloadAccepted(body);
    PayloadIs(body);
    var p, foot := Payload(body), Footer(Crc64.Divide(0, body + VERSION_BYTES));
    assert p[0] == TypeOf(o) && p[1..] == bytes + (VERSION_BYTES + foot);
    assert p[|bytes| + 1..] == VERSION_BYTES + foot;
    RdbRoundTrip.ObjectRoundTrip(o, bytes, VERSION_BYTES + foot);
  }
}
