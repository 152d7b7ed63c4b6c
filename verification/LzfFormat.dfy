/**
  The LZF stream format (redis-stable/src/lzf_c.c:89-96) as a list of tokens, and the function that the
  decompressor computes.  The compressor and the decompressor are in Lzf.dfy.
 */
module LzfFormat {
  import opened Bytes

  const MAX_LIT := 32
  const MAX_OFF := 8192
  const MAX_REF := 264

  /** A run of literal bytes, or a copy of len + 2 bytes starting off + 1 bytes back. */
  datatype Token = Literal(data: seq<byte>) | BackRef(off: nat, len: nat)

  predicate WellFormed(t: Token) {
    match t
    case Literal(data) => 1 <= |data| <= MAX_LIT
    case BackRef(off, len) => off < MAX_OFF && 1 <= len <= MAX_REF - 2
  }

  function EncodeToken(t: Token): seq<byte>
    requires WellFormed(t)
  {
    match t
    case Literal(data) => [|data| - 1] + data
    case BackRef(off, len) =>
      if len < 7 then [off / 256 + len * 32, off % 256]
      else [off / 256 + 7 * 32, len - 7, off % 256]
  }

  /** Appends n bytes, each read off + 1 bytes behind the write position; the source may overlap the copy. */
  function CopyBack(out: seq<byte>, off: nat, n: nat): (r: seq<byte>)
    requires off < |out|
    ensures |r| == |out| + n && out <= r
    decreases n
  {
    if n == 0 then out else CopyBack(out + [out[|out| - off - 1]], off, n - 1)
  }

  predicate Applies(t: Token, out: seq<byte>) {
    WellFormed(t) && (t.BackRef? ==> t.off < |out|)
  }

  function ApplyToken(t: Token, out: seq<byte>): seq<byte>
    requires Applies(t, out)
  {
    match t
    case Literal(data) => out + data
    case BackRef(off, len) => CopyBack(out, off, len + 2)
  }

  /** Every token is well formed and refers only to bytes produced before it. */
  predicate Valid(ts: seq<Token>)
    decreases |ts|, 0
  {
    ts == [] || (Valid(ts[..|ts| - 1]) && Applies(ts[|ts| - 1], Expand(ts[..|ts| - 1])))
  }

  /** The text that a valid token list stands for. */
  function Expand(ts: seq<Token>): seq<byte>
    requires Valid(ts)
    decreases |ts|, 1
  {
    if ts == [] then [] else ApplyToken(ts[|ts| - 1], Expand(ts[..|ts| - 1]))
  }

  function Encode(ts: seq<Token>): seq<byte>
    requires Valid(ts)
  {
    if ts == [] then [] else Encode(ts[..|ts| - 1]) + EncodeToken(ts[|ts| - 1])
  }

  datatype Errno = E2BIG | EINVAL
  datatype Decoded = Ok(text: seq<byte>) | Error(errno: Errno)

  datatype Step = Next(ip: nat, out: seq<byte>) | Stop(errno: Errno)

  /** One token: the work of one iteration of lzf_decompress at position ip, once it has written out. */
  function DecodeStep(s: seq<byte>, ip: nat, out: seq<byte>, limit: nat): (r: Step)
    requires ip < |s|
    ensures r.Next? ==> ip < r.ip <= |s| && |out| < |r.out| <= limit
  {
    var ctrl: int := s[ip];
    if ctrl < 32 then
      var n := ctrl + 1;
      if |out| + n > limit then Stop(E2BIG)
      else if ip + 1 + n > |s| then Stop(EINVAL)
      else Next(ip + 1 + n, out + s[ip + 1..ip + 1 + n])
    else
      var last := ip + if ctrl / 32 == 7 then 2 else 1;
      if last >= |s| then Stop(EINVAL)
      else
        var ext: int, low: int := s[ip + 1], s[last];
        var len := if ctrl / 32 == 7 then 7 + ext else ctrl / 32;
        var off := ctrl % 32 * 256 + low;
        if |out| + len + 2 > limit then Stop(E2BIG)
        else if off >= |out| then Stop(EINVAL)
        else Next(last + 1, CopyBack(out, off, len + 2))
  }

  /** What lzf_decompress does from position ip of s once it has written out, in a buffer of limit bytes. */
  function DecodeFrom(s: seq<byte>, ip: nat, out: seq<byte>, limit: nat): Decoded
    requires ip <= |s|
    decreases |s| - ip
  {
    if ip == |s| then Ok(out)
    else
      match DecodeStep(s, ip, out, limit)
      case Stop(errno) => Error(errno)
      case Next(ip', out') => DecodeFrom(s, ip', out', limit)
  }

  function Decode(s: seq<byte>, limit: nat): Decoded {
    DecodeFrom(s, 0, [], limit)
  }

  lemma ValidAppend(ts: seq<Token>, t: Token)
    requires Valid(ts) && Applies(t, Expand(ts))
    ensures Valid(ts + [t])
    ensures Expand(ts + [t]) == ApplyToken(t, Expand(ts))
    ensures Encode(ts + [t]) == Encode(ts) + EncodeToken(t)
  {
    assert (ts + [t])[..|ts + [t]| - 1] == ts;
  }

  lemma DecodeLiteral(s: seq<byte>, ip: nat, data: seq<byte>, out: seq<byte>, limit: nat)
    requires WellFormed(Literal(data)) && |out| + |data| <= limit
    requires ip + 1 + |data| <= |s| && s[ip..ip + 1 + |data|] == [|data| - 1] + data
    ensures DecodeStep(s, ip, out, limit) == Next(ip + 1 + |data|, out + data)
  {
    var e := s[ip..ip + 1 + |data|];
    assert s[ip] == e[0];
    assert e[1..] == data && e[1..] == s[ip + 1..ip + 1 + |data|];
  }

  lemma BackRefBytes(off: nat, len: nat)
    requires WellFormed(BackRef(off, len))
    ensures var e := EncodeToken(BackRef(off, len));
            var ctrl: int := e[0];
            && |e| == (if len < 7 then 2 else 3)
            && ctrl >= 32 && (len < 7 ==> ctrl / 32 == len) && (len >= 7 ==> ctrl / 32 == 7 && e[1] == len - 7)
            && ctrl % 32 * 256 + e[|e| - 1] == off
  {
  }

  /** The branch of a back reference. */
  lemma BackRefStep(s: seq<byte>, ip: nat, off: nat, len: nat, out: seq<byte>, limit: nat)
    requires ip < |s| && off < |out| && |out| + len + 2 <= limit
    requires var ctrl: int, last := s[ip], ip + if len < 7 then 1 else 2;
             && last < |s| && ctrl >= 32 && ctrl % 32 * 256 + s[last] == off
             && (len < 7 ==> ctrl / 32 == len) && (len >= 7 ==> ctrl / 32 == 7 && s[ip + 1] == len - 7)
    ensures DecodeStep(s, ip, out, limit)
         == Next(ip + if len < 7 then 2 else 3, CopyBack(out, off, len + 2))
  {
    hide CopyBack;
  }

  lemma DecodeBackRef(s: seq<byte>, ip: nat, off: nat, len: nat, out: seq<byte>, limit: nat)
    requires Applies(BackRef(off, len), out) && |out| + len + 2 <= limit
    requires var e := EncodeToken(BackRef(off, len)); ip + |e| <= |s| && s[ip..ip + |e|] == e
    ensures DecodeStep(s, ip, out, limit)
         == Next(ip + if len < 7 then 2 else 3, CopyBack(out, off, len + 2))
  {
    BackRefBytes(off, len);
    hide CopyBack, EncodeToken, DecodeStep;
    var e := EncodeToken(BackRef(off, len));
    assert s[ip] == e[0] && s[ip + 1] == e[1] && s[ip + |e| - 1] == e[|e| - 1];
    BackRefStep(s, ip, off, len, out, limit);
  }

  lemma DecodeOneToken(s: seq<byte>, ip: nat, t: Token, out: seq<byte>, limit: nat)
    requires Applies(t, out) && |ApplyToken(t, out)| <= limit
    requires ip + |EncodeToken(t)| <= |s| && s[ip..ip + |EncodeToken(t)|] == EncodeToken(t)
    ensures |EncodeToken(t)| > 0
    ensures DecodeStep(s, ip, out, limit) == Next(ip + |EncodeToken(t)|, ApplyToken(t, out))
  {
    hide DecodeStep, CopyBack;
    match t
    case Literal(data) => DecodeLiteral(s, ip, data, out, limit);
    case BackRef(off, len) => DecodeBackRef(s, ip, off, len, out, limit);
  }

  lemma PrefixParts(a: seq<byte>, b: seq<byte>, s: seq<byte>)
    requires a + b <= s
    ensures a <= s && s[|a|..|a| + |b|] == b
  {
  }

  /** The decoder reads back every valid token list, whatever follows it. */
  lemma {:induction false} DecodePrefix(ts: seq<Token>, s: seq<byte>, limit: nat)
    requires Valid(ts) && Encode(ts) <= s && |Expand(ts)| <= limit
    ensures Decode(s, limit) == DecodeFrom(s, |Encode(ts)|, Expand(ts), limit)
  {
    if ts != [] {
      var init, t := ts[..|ts| - 1], ts[|ts| - 1];
      PrefixParts(Encode(init), EncodeToken(t), s);
      DecodePrefix(init, s, limit);
      DecodeOneToken(s, |Encode(init)|, t, Expand(init), limit);
    }
  }

  lemma DecodeInvertsEncode(ts: seq<Token>, limit: nat)
    requires Valid(ts) && |Expand(ts)| <= limit
    ensures Decode(Encode(ts), limit) == Ok(Expand(ts))
  {
    DecodePrefix(ts, Encode(ts), limit);
  }

  /** The token at a position from which the decoder succeeds, and its length in bytes. */
  lemma HeadToken(s: seq<byte>, ip: nat, out: seq<byte>, limit: nat) returns (t: Token, k: nat)
    requires ip < |s| && DecodeStep(s, ip, out, limit).Next?
    ensures 0 < k && ip + k <= |s| && Applies(t, out) && EncodeToken(t) == s[ip..ip + k]
    ensures |ApplyToken(t, out)| <= limit
  {
    hide CopyBack;
    var ctrl: int := s[ip];
    if ctrl < 32 {
      t, k := Literal(s[ip + 1..ip + 2 + ctrl]), 2 + ctrl;
    } else if ctrl / 32 == 7 {
      var ext: int, low: int := s[ip + 1], s[ip + 2];
      t, k := BackRef(ctrl % 32 * 256 + low, 7 + ext), 3;
      assert EncodeToken(t) == [s[ip], s[ip + 1], s[ip + 2]];
    } else {
      var low: int := s[ip + 1];
      t, k := BackRef(ctrl % 32 * 256 + low, ctrl / 32), 2;
      assert EncodeToken(t) == [s[ip], s[ip + 1]];
    }
  }

  /** The decoder accepts nothing but encodings of valid token lists. */
  lemma {:induction false} DecodedTokens(ts: seq<Token>, s: seq<byte>, limit: nat) returns (all: seq<Token>)
    requires Valid(ts) && Encode(ts) <= s && |Expand(ts)| <= limit
    requires DecodeFrom(s, |Encode(ts)|, Expand(ts), limit).Ok?
    ensures Valid(all) && Encode(all) == s && |Expand(all)| <= limit
    decreases |s| - |Encode(ts)|
  {
    hide DecodeStep, EncodeToken, ApplyToken, CopyBack;
    var ip := |Encode(ts)|;
    if ip == |s| {
      all := ts;
    } else {
      var t, k := HeadToken(s, ip, Expand(ts), limit);
      DecodeOneToken(s, ip, t, Expand(ts), limit);
      ValidAppend(ts, t);
      assert Encode(ts) + s[ip..ip + k] == s[..ip + k];
      all := DecodedTokens(ts + [t], s, limit);
    }
  }

  /** Decoding succeeds exactly on the encodings of token lists whose text fits the buffer, and yields that text. */
  lemma DecodeAcceptsExactlyEncodings(s: seq<byte>, limit: nat, text: seq<byte>)
    ensures Decode(s, limit) == Ok(text) <==>
            exists ts :: Valid(ts) && Encode(ts) == s && Expand(ts) == text && |text| <= limit
  {
    if Decode(s, limit) == Ok(text) {
      var ts := DecodedTokens([], s, limit);
      DecodeInvertsEncode(ts, limit);
      assert Valid(ts) && Encode(ts) == s && Expand(ts) == text;
    }
    if ts :| Valid(ts) && Encode(ts) == s && Expand(ts) == text && |text| <= limit {
      DecodeInvertsEncode(ts, limit);
    }
  }

  /** Copying back over a match reproduces the matched input, including when the two stretches overlap. */
  lemma {:induction false} CopyBackMatch(src: seq<byte>, ref: nat, ip: nat, done: nat, n: nat)
    requires ref < ip && ip + done + n <= |src|
    requires src[ref..ref + done + n] == src[ip..ip + done + n]
    ensures CopyBack(src[..ip + done], ip - ref - 1, n) == src[..ip + done + n]
    decreases n
  {
    if n > 0 {
      var out := src[..ip + done];
      assert src[ref..ref + done + n][done] == src[ip..ip + done + n][done];
      assert out + [src[ip + done]] == src[..ip + done + 1];
      CopyBackMatch(src, ref, ip, done + 1, n - 1);
    }
  }
}
