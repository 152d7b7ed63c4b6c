/** lzf_compress and lzf_decompress (redis-stable/src/lzf_c.c, lzf_d.c) over an output buffer written in place. */
module Lzf {
  import opened Bytes
  import opened LzfFormat
  import opened LzfGreedy

  /** What the C functions report: the length written, or 0 with errno set. */
  datatype Status = Done(length: nat) | Failed(errno: Errno)

  lemma OneRead(s: seq<byte>, ip: nat, k: nat)
    requires ip + k < |s|
    ensures s[ip..ip + k + 1] == s[ip..ip + k] + [s[ip + k]]
  {
  }

  /** A byte of the output buffer, by the value an array holds after one write. */
  method Put(dst: array<byte>, i: nat, b: byte)
    requires i < dst.Length
    modifies dst
    ensures dst[..] == old(dst[..])[i := b]
    ensures dst[..i + 1] == old(dst[..i]) + [b] && dst[i + 1..] == old(dst[i + 1..])
  {
    dst[i] := b;
  }

  /** Copies a literal run; both cursors advance together. */
  method CopyRun(src: seq<byte>, ip: nat, dst: array<byte>, op: nat, n: nat)
    requires 0 < n && ip + n <= |src| && op + n <= dst.Length
    modifies dst
    ensures dst[..op + n] == old(dst[..op]) + src[ip..ip + n] && dst[op + n..] == old(dst[op + n..])
  {
    var k := 0;
    while k < n
      invariant 0 <= k <= n
      invariant dst[..op + k] == old(dst[..op]) + src[ip..ip + k] && dst[op + k..] == old(dst[op + k..])
    {
      Put(dst, op + k, src[ip + k]);
      OneRead(src, ip, k);
      k := k + 1;
    }
  }

  lemma CopyBackNext(out: seq<byte>, off: nat, n: nat)
    requires off < |out| && n > 0
    ensures CopyBack(out, off, n) == CopyBack(out + [out[|out| - off - 1]], off, n - 1)
  {
  }

  /** Copies byte by byte from behind the write cursor, so that it may read bytes it has just written. */
  method CopyMatch(dst: array<byte>, ref: nat, op: nat, n: nat)
    requires ref < op && op + n <= dst.Length
    modifies dst
    ensures dst[..op + n] == CopyBack(old(dst[..op]), op - ref - 1, n) && dst[op + n..] == old(dst[op + n..])
  {
    hide CopyBack;
    var k := 0;
    while k < n
      invariant 0 <= k <= n
      invariant CopyBack(dst[..op + k], op - ref - 1, n - k) == CopyBack(old(dst[..op]), op - ref - 1, n)
      invariant dst[op + k..] == old(dst[op + k..])
    {
      CopyBackNext(dst[..op + k], op - ref - 1, n - k);
      Put(dst, op + k, dst[ref + k]);
      k := k + 1;
    }
  }

  datatype Progress = Continue(ip: nat, op: nat) | Halt(errno: Errno)

  /** What one token does to the cursors and to the output buffer. */
  twostate predicate Stepped(src: seq<byte>, ip: nat, dst: array<byte>, op: nat, outLen: nat, r: Progress)
    requires ip < |src| && op <= outLen <= dst.Length
    reads dst
  {
    match DecodeStep(src, ip, old(dst[..op]), outLen)
    case Stop(e) => r == Halt(e) && dst[..] == old(dst[..])
    case Next(ip', out) => r == Continue(ip', |out|) && dst[..|out|] == out && dst[|out|..] == old(dst[|out|..])
  }

  /** The literal-run branch of lzf_decompress; ctrl is the control byte at ip - 1. */
  method LiteralRun(src: seq<byte>, ip: nat, ctrl: nat, dst: array<byte>, op: nat, outLen: nat) returns (r: Progress)
    requires 0 < ip <= |src| && ctrl == src[ip - 1] < 32 && op <= outLen <= dst.Length
    modifies dst
    ensures Stepped(src, ip - 1, dst, op, outLen, r)
  {
    var n := ctrl + 1;
    if op + n > outLen { return Halt(E2BIG); }
    if ip + n > |src| { return Halt(EINVAL); }
    CopyRun(src, ip, dst, op, n);
    return Continue(ip + n, op + n);
  }

  /** The back-reference branch of lzf_decompress; ctrl is the control byte at ip - 1. */
  method BackReference(src: seq<byte>, ip0: nat, ctrl: nat, dst: array<byte>, op: nat, outLen: nat)
    returns (r: Progress)
    requires 0 < ip0 <= |src| && ctrl == src[ip0 - 1] >= 32 && op <= outLen <= dst.Length
    modifies dst
    ensures Stepped(src, ip0 - 1, dst, op, outLen, r)
  {
    hide CopyBack;
    var ip := ip0;
    var len := ctrl / 32;
    var ref := op - ctrl % 32 * 256 - 1;
    if ip >= |src| { return Halt(EINVAL); }
    if len == 7 {
      len := len + src[ip];
      ip := ip + 1;
      if ip >= |src| { return Halt(EINVAL); }
    }
    ref := ref - src[ip];
    ip := ip + 1;
    if op + len + 2 > outLen { return Halt(E2BIG); }
    if ref < 0 { return Halt(EINVAL); }
    CopyMatch(dst, ref, op, len + 2);
    return Continue(ip, op + len + 2);
  }

  /** lzf_decompress: decodes src into the first outLen bytes of dst. */
  method Decompress(src: seq<byte>, dst: array<byte>, outLen: nat) returns (r: Status)
    requires src != [] && outLen <= dst.Length
    modifies dst
    ensures match Decode(src, outLen)
            case Ok(text) => r == Done(|text|) && 0 < |text| <= outLen && dst[..] == text + old(dst[|text|..])
            case Error(e) => r == Failed(e)
    ensures dst[outLen..] == old(dst[outLen..])
  {
    hide DecodeStep;
    var ip, op := 0, 0;
    assert dst[..0] == [];
    while ip < |src|
      invariant 0 <= ip <= |src| && 0 <= op <= outLen
      invariant ip > 0 ==> op > 0
      invariant DecodeFrom(src, ip, dst[..op], outLen) == Decode(src, outLen)
      invariant dst[op..] == old(dst[op..])
    {
      var ctrl := src[ip];
      var p;
      if ctrl < 32 {
        p := LiteralRun(src, ip + 1, ctrl, dst, op, outLen);
      } else {
        p := BackReference(src, ip + 1, ctrl, dst, op, outLen);
      }
      match p
      case Halt(e) => return Failed(e);
      case Continue(ip', op') => ip, op := ip', op';
    }
    assert dst[..] == dst[..op] + dst[op..];
    return Done(op);
  }

  // ---- lzf_compress ----

  /**
    The input already read is the text of ts followed by lit pending literals.  The output holds the encoding of ts,
    one byte reserved for the header of the pending run, and the pending literals.
   */
  ghost predicate Writing(src: seq<byte>, o: seq<byte>, ip: nat, op: nat, lit: nat, ts: seq<Token>) {
    && lit <= MAX_LIT && lit <= ip <= |src| && lit + 1 <= op <= |o|
    && Valid(ts) && Expand(ts) == src[..ip - lit]
    && Encode(ts) == o[..op - lit - 1]
    && o[op - lit..op] == src[ip - lit..ip]
  }

  /** No run is open: the output is the encoding of ts and the input already read is its text. */
  ghost predicate Flushed(src: seq<byte>, o: seq<byte>, ip: nat, op: nat, ts: seq<Token>) {
    ip <= |src| && op <= |o| && Valid(ts) && Expand(ts) == src[..ip] && Encode(ts) == o[..op]
  }

  /** What was written is at most a 32nd longer than what was read, but for the header of the open run. */
  predicate Tight(ip: nat, op: nat, lit: nat) {
    32 * op <= 33 * ip - lit + 32
  }

  /** The cursors when all that was read has become literals. */
  predicate Plain(ip: nat, op: nat, lit: nat) {
    lit == ip % MAX_LIT && op == ip + 1 + ip / MAX_LIT
  }

  lemma PlainNext(ip: nat, op: nat, lit: nat)
    requires Plain(ip, op, lit)
    ensures if lit + 1 == MAX_LIT then Plain(ip + 1, op + 2, 0) else Plain(ip + 1, op + 1, lit + 1)
  {
  }

  /** What a text takes that holds no match. */
  function LiteralSize(len: nat): nat {
    len + (len + MAX_LIT - 1) / MAX_LIT
  }

  lemma PlainEnds(ip: nat, op: nat, lit: nat)
    requires Plain(ip, op, lit)
    ensures LiteralSize(ip) == if lit == 0 then op - 1 else op
  {
  }

  lemma TightEnds(ip: nat, op: nat, lit: nat)
    requires Tight(ip, op, lit)
    ensures (if lit == 0 then op - 1 else op) <= LiteralSize(ip)
  {
  }

  lemma Starts()
    ensures Tight(0, 1, 0) && Plain(0, 1, 0) && 0 < MAX_LIT
  {
  }

  /** With room for the worst case, none of the checks for the end of the output fails. */
  lemma TightRoom(len: nat, ip: nat, op: nat, lit: nat, outLen: nat)
    requires Tight(ip, op, lit)
    ensures Roomy(len, outLen) && ip <= len ==>
              op + 3 <= outLen && (ip + 4 < len ==> op + 4 < outLen) && (ip + 2 < len ==> op < outLen)
  {
  }

  lemma WritingStart(src: seq<byte>, o: seq<byte>)
    requires o != []
    ensures Writing(src, o, 0, 1, 0, [])
  {
  }

  lemma WritingBounds(src: seq<byte>, o: seq<byte>, ip: nat, op: nat, lit: nat, ts: seq<Token>)
    requires Writing(src, o, ip, op, lit, ts)
    ensures lit <= MAX_LIT && lit <= ip <= |src| && lit + 1 <= op <= |o|
  {
  }

  lemma HeaderFilled(o: seq<byte>, start: nat, op: nat, b: byte)
    requires start < op <= |o|
    ensures o[start := b][..op] == o[..start] + ([b] + o[start + 1..op])
  {
  }

  lemma RunEncodes(run: seq<byte>, text: seq<byte>)
    requires 0 < |run| <= MAX_LIT
    ensures Applies(Literal(run), text) && ApplyToken(Literal(run), text) == text + run
    ensures EncodeToken(Literal(run)) == [|run| - 1] + run
  {
  }

  lemma RunClosed(src: seq<byte>, o: seq<byte>, ip: nat, op: nat, lit: nat, ts: seq<Token>)
    requires Writing(src, o, ip, op, lit, ts) && lit > 0
    ensures Flushed(src, o[op - lit - 1 := lit - 1], ip, op, ts + [Literal(src[ip - lit..ip])])
  {
    hide Valid, Expand, Encode, EncodeToken, ApplyToken, Applies;
    var run := src[ip - lit..ip];
    RunEncodes(run, src[..ip - lit]);
    ValidAppend(ts, Literal(run));
    HeaderFilled(o, op - lit - 1, op, lit - 1);
    assert src[..ip] == src[..ip - lit] + run;
  }

  lemma EmptyRunClosed(src: seq<byte>, o: seq<byte>, ip: nat, op: nat, ts: seq<Token>)
    requires Writing(src, o, ip, op, 0, ts)
    ensures Flushed(src, o[op - 1 := 255], ip, op - 1, ts)
  {
    assert o[op - 1 := 255][..op - 1] == o[..op - 1];
  }

  /** Reserves the header byte of a new run. */
  lemma RunStarted(src: seq<byte>, o: seq<byte>, ip: nat, op: nat, ts: seq<Token>)
    requires Flushed(src, o, ip, op, ts) && op < |o|
    ensures Writing(src, o, ip, op + 1, 0, ts)
  {
  }

  lemma LiteralAdded(src: seq<byte>, o: seq<byte>, ip: nat, op: nat, lit: nat, ts: seq<Token>)
    requires Writing(src, o, ip, op, lit, ts) && lit < MAX_LIT && ip < |src| && op < |o|
    ensures Writing(src, o[op := src[ip]], ip + 1, op + 1, lit + 1, ts)
  {
    var o' := o[op := src[ip]];
    assert o'[..op - lit - 1] == o[..op - lit - 1];
    assert o'[op - lit..op + 1] == o[op - lit..op] + [src[ip]];
    assert src[ip - lit..ip + 1] == src[ip - lit..ip] + [src[ip]];
  }

  lemma ClosedRuns(ts: seq<Token>, t: Token)
    requires t.Literal?
    ensures Refs(ts + [t]) == Refs(ts)
    ensures Runs(ts) ==> Merged(ts + [t]) && (|t.data| == MAX_LIT ==> Runs(ts + [t]))
  {
    hide *;
    RefsSnoc(ts, t);
    RefsOfLiteral(t, TextLength(ts));
    if Runs(ts) { RunsOn(ts, t); }
  }

  /** Stops the open run: fills in its header, or gives the reserved byte back when the run is empty. */
  method CloseRun(src: seq<byte>, dst: array<byte>, ip: nat, op: nat, lit: nat, ghost ts: seq<Token>)
    returns (op': nat, ghost ts': seq<Token>)
    requires Writing(src, dst[..], ip, op, lit, ts)
    modifies dst
    ensures Flushed(src, dst[..], ip, op', ts')
    ensures op' == if lit == 0 then op - 1 else op
    ensures Refs(ts') == Refs(ts) && (Runs(ts) ==> Merged(ts') && (lit == 0 || lit == MAX_LIT ==> Runs(ts')))
  {
    hide Writing, Flushed;
    ghost var o := dst[..];
    WritingBounds(src, o, ip, op, lit, ts);
    Put(dst, op - lit - 1, (lit - 1) % 256);
    if lit == 0 {
      EmptyRunClosed(src, o, ip, op, ts);
      op', ts' := op - 1, ts;
    } else {
      RunClosed(src, o, ip, op, lit, ts);
      ClosedRuns(ts, Literal(src[ip - lit..ip]));
      hide Refs, Merged, Runs;
      op', ts' := op, ts + [Literal(src[ip - lit..ip])];
    }
  }

  /** Copies one literal into the open run and starts a new run when this one is full. */
  method AddLiteral(src: seq<byte>, dst: array<byte>, ip: nat, op: nat, lit: nat, ghost ts: seq<Token>)
    returns (op': nat, lit': nat, ghost ts': seq<Token>)
    requires Writing(src, dst[..], ip, op, lit, ts) && lit < MAX_LIT && ip < |src| && op + 1 < dst.Length
    modifies dst
    ensures Writing(src, dst[..], ip + 1, op', lit', ts')
    ensures if lit + 1 == MAX_LIT then lit' == 0 && op' == op + 2 else lit' == lit + 1 && op' == op + 1
    ensures Tight(ip, op, lit) ==> Tight(ip + 1, op', lit')
    ensures Plain(ip, op, lit) ==> Plain(ip + 1, op', lit')
    ensures Refs(ts') == Refs(ts) && (Runs(ts) ==> Runs(ts'))
  {
    hide Writing, Flushed, Plain, Refs, Runs;
    if Plain(ip, op, lit) {
      PlainNext(ip, op, lit);
    }
    LiteralAdded(src, dst[..], ip, op, lit, ts);
    Put(dst, op, src[ip]);
    op', lit', ts' := op + 1, lit + 1, ts;
    if lit' == MAX_LIT {
      op', ts' := CloseRun(src, dst, ip + 1, op', lit', ts');
      RunStarted(src, dst[..], ip + 1, op', ts');
      op', lit' := op' + 1, 0;
    }
  }

  lemma MatchExtended(src: seq<byte>, ref: nat, ip: nat, len: nat)
    requires Matching(src, ref, ip, len) && ip + len < |src| && src[ref + len] == src[ip + len]
    ensures Matching(src, ref, ip, len + 1)
  {
    assert src[ref..ref + len + 1] == src[ref..ref + len] + [src[ref + len]];
    assert src[ip..ip + len + 1] == src[ip..ip + len] + [src[ip + len]];
  }

  /**
    The length of the match at ref and ip, compared as the unrolled loop does, given that three bytes are equal.  The
    match cannot be longer, unless it is the longest that a token holds or reaches within two bytes of the end.
   */
  method MatchLength(src: seq<byte>, ref: nat, ip: nat) returns (len: nat)
    requires Matching(src, ref, ip, 3) && ref < ip && ip + 4 < |src|
    ensures 3 <= len <= MAX_REF && ip + len <= |src| && Matching(src, ref, ip, len)
    ensures len >= MAX_REF || len >= |src| - ip - 2 || src[ref + len] != src[ip + len]
  {
    hide Matching;
    len := 2;
    var maxlen := |src| - ip - len;
    maxlen := if maxlen > MAX_REF then MAX_REF else maxlen;
    if maxlen > 16 {
      var k := 0;
      while k < 16
        invariant 0 <= k <= 16 && len == 2 + k && Matching(src, ref, ip, len + 1)
      {
        len := len + 1;
        if src[ref + len] != src[ip + len] { return; }
        MatchExtended(src, ref, ip, len);
        k := k + 1;
      }
    }
    len := len + 1;
    while len < maxlen && src[ref + len] == src[ip + len]
      invariant 3 <= len && (len <= maxlen || len <= 19) && ip + len <= |src|
      invariant Matching(src, ref, ip, len)
    {
      MatchExtended(src, ref, ip, len);
      len := len + 1;
    }
  }

  lemma RefExpands(src: seq<byte>, ip: nat, ts: seq<Token>, ref: nat, len: nat, t: Token)
    requires Valid(ts) && ref < ip && ip + len <= |src| && Expand(ts) == src[..ip]
    requires ip - ref - 1 < MAX_OFF && 3 <= len <= MAX_REF && t == BackRef(ip - ref - 1, len - 2)
    requires src[ref..ref + len] == src[ip..ip + len]
    ensures Applies(t, Expand(ts)) && ApplyToken(t, Expand(ts)) == src[..ip + len]
  {
    CopyBackMatch(src, ref, ip, 0, len);
    assert src[..ip + 0] == src[..ip];
  }

  lemma RefEncoded(src: seq<byte>, o: seq<byte>, o': seq<byte>, ip: nat, op: nat, ts: seq<Token>, ref: nat, len: nat,
                   t: Token)
    requires Flushed(src, o, ip, op, ts) && ref < ip && ip - ref - 1 < MAX_OFF
    requires 3 <= len <= MAX_REF && ip + len <= |src| && t == BackRef(ip - ref - 1, len - 2)
    requires src[ref..ref + len] == src[ip..ip + len]
    requires op + |EncodeToken(t)| <= |o'| && o'[..op + |EncodeToken(t)|] == o[..op] + EncodeToken(t)
    ensures Flushed(src, o', ip + len, op + |EncodeToken(t)|, ts + [t])
  {
    RefExpands(src, ip, ts, ref, len, t);
    ValidAppend(ts, t);
  }

  lemma RefWritten(src: seq<byte>, o: seq<byte>, o': seq<byte>, ip: nat, op: nat, ts: seq<Token>, ref: nat, len: nat,
                   t: Token)
    requires Flushed(src, o, ip, op, ts) && ref < ip && ip - ref - 1 < MAX_OFF
    requires 3 <= len <= MAX_REF && ip + len <= |src| && t == BackRef(ip - ref - 1, len - 2)
    requires src[ref..ref + len] == src[ip..ip + len]
    requires op + |EncodeToken(t)| < |o'| && o'[..op + |EncodeToken(t)|] == o[..op] + EncodeToken(t)
    ensures Writing(src, o', ip + len, op + |EncodeToken(t)| + 1, 0, ts + [t])
  {
    RefEncoded(src, o, o', ip, op, ts, ref, len, t);
    RunStarted(src, o', ip + len, op + |EncodeToken(t)|, ts + [t]);
  }

  lemma RefSize(off: nat, l: nat)
    requires off < MAX_OFF && 1 <= l <= MAX_REF - 2
    ensures WellFormed(BackRef(off, l)) && |EncodeToken(BackRef(off, l))| == if l < 7 then 2 else 3
  {
  }

  lemma FlushedLength(src: seq<byte>, o: seq<byte>, ip: nat, op: nat, ts: seq<Token>)
    requires Flushed(src, o, ip, op, ts)
    ensures TextLength(ts) == ip
  {
    TextLengthIs(ts);
    hide Valid, Expand, Encode;
  }

  lemma RefAdded(src: seq<byte>, o: seq<byte>, ip: nat, op: nat, ref: nat, len: nat, ts: seq<Token>)
    requires Flushed(src, o, ip, op, ts) && ref < ip && 3 <= len
    ensures var ts' := ts + [BackRef(ip - ref - 1, len - 2)];
            Refs(ts') == Refs(ts) + [Ref(ip, ip + len, ref)] && (Merged(ts) ==> Runs(ts'))
  {
    hide *;
    var t := BackRef(ip - ref - 1, len - 2);
    FlushedLength(src, o, ip, op, ts);
    RefsSnoc(ts, t);
    RefsOfRef(t, ip);
    if Merged(ts) { RunsAfterRef(ts, t); }
  }

  /** The two or three bytes of a back reference. */
  method WriteRef(dst: array<byte>, op: nat, off: nat, l: nat) returns (op': nat)
    requires off < MAX_OFF && 1 <= l <= MAX_REF - 2 && op + 3 <= dst.Length
    modifies dst
    ensures op' == op + if l < 7 then 2 else 3
    ensures dst[..op'] == old(dst[..op]) + EncodeToken(BackRef(off, l))
  {
    ghost var o := dst[..op];
    if l < 7 {
      dst[op] := off / 256 + l * 32;
      dst[op + 1] := off % 256;
      assert dst[..op + 2] == o + [off / 256 + l * 32, off % 256];
      return op + 2;
    }
    dst[op] := off / 256 + 7 * 32;
    dst[op + 1] := l - 7;
    dst[op + 2] := off % 256;
    assert dst[..op + 3] == o + [off / 256 + 7 * 32, l - 7, off % 256];
    return op + 3;
  }

  /** Writes a back reference for the len bytes at ip, which equal those at ref, and starts a new run. */
  method EmitRef(src: seq<byte>, dst: array<byte>, ip: nat, op: nat, ref: nat, len: nat, ghost ts: seq<Token>)
    returns (op': nat, ghost ts': seq<Token>)
    requires Flushed(src, dst[..], ip, op, ts) && ref < ip && ip - ref - 1 < MAX_OFF
    requires 3 <= len <= MAX_REF && ip + len <= |src| && src[ref..ref + len] == src[ip..ip + len]
    requires op + 3 < dst.Length
    modifies dst
    ensures Writing(src, dst[..], ip + len, op', 0, ts') && op' == op + if len < 9 then 3 else 4
    ensures Refs(ts') == Refs(ts) + [Ref(ip, ip + len, ref)] && (Merged(ts) ==> Runs(ts'))
    ensures ts' != [] && ts'[|ts'| - 1].BackRef?
  {
    ghost var o, t := dst[..], BackRef(ip - ref - 1, len - 2);
    RefAdded(src, o, ip, op, ref, len, ts);
    RefSize(ip - ref - 1, len - 2);
    hide *;
    op' := WriteRef(dst, op, ip - ref - 1, len - 2);
    assert o[..op] == old(dst[..op]);
    ts' := ts + [t];
    RefWritten(src, o, dst[..], ip, op, ts, ref, len, t);
    op' := op' + 1;
  }

  /** The match branch: closes the run and replaces the match by a back reference, if the output has room for it. */
  method TakeMatch(src: seq<byte>, dst: array<byte>, ip: nat, op: nat, lit: nat, ghost ts: seq<Token>,
                   ref: nat, outLen: nat)
    returns (ok: bool, ip': nat, op': nat, ghost ts': seq<Token>)
    requires Writing(src, dst[..], ip, op, lit, ts) && dst.Length == outLen + 1
    requires ref < ip && ip - ref - 1 < MAX_OFF && ip + 4 < |src| && src[ref..ref + 3] == src[ip..ip + 3]
    modifies dst
    ensures ok ==> ip < ip' && Writing(src, dst[..], ip', op', 0, ts')
    ensures ok && Tight(ip, op, lit) ==> Tight(ip', op', 0)
    ensures ok ==> ip + 3 <= ip' <= |src| && Matching(src, ref, ip, ip' - ip)
    ensures ok ==> ip' - ip >= MAX_REF || ip' + 2 >= |src| || src[ref + (ip' - ip)] != src[ip']
    ensures ok ==> Refs(ts') == Refs(ts) + [Ref(ip, ip', ref)] && (Runs(ts) ==> Runs(ts'))
    ensures ok ==> ts' != [] && ts'[|ts'| - 1].BackRef?
    ensures !ok ==> op + 4 >= outLen
    ensures !ok ==> Flushed(src, dst[..], ip, op', ts') && Refs(ts') == Refs(ts) && op' + 4 >= outLen
    ensures !ok ==> ip' == ip && (Runs(ts) ==> Merged(ts'))
  {
    hide Writing, Flushed, Refs, Runs, Merged;
    WritingBounds(src, dst[..], ip, op, lit, ts);
    ok, ip' := false, ip;
    op', ts' := CloseRun(src, dst, ip, op, lit, ts);
    if op' + 3 + 1 >= outLen { return; }
    assert Matching(src, ref, ip, 3);
    var len := MatchLength(src, ref, ip);
    op', ts' := EmitRef(src, dst, ip, op', ref, len, ts');
    ok, ip' := true, ip + len;
  }

  /** The distance ip - ref - 1 of two addresses, as an unsigned long. */
  function Distance(ip: nat, ref: word64): (d: nat)
    requires ip < 0x1_0000_0000_0000_0000
    ensures d == if ref < ip then ip - ref - 1 else ip - ref - 1 + 0x1_0000_0000_0000_0000
  {
    (ip - ref - 1) % 0x1_0000_0000_0000_0000
  }

  /** Hashes the last two positions of a match that ends at ip into the table. */
  method InsertSkipped(src: seq<byte>, base: nat, ip: nat, htab: array<word64>, slot: nat -> Slot, ghost rs: seq<Ref>)
    returns (hval: nat)
    requires 2 <= ip < |src| - 2 && base + |src| <= 0x1_0000_0000_0000_0000 && htab.Length == HSIZE
    requires Before(rs, ip) && Restarts(rs, ip - 2) && !Restarts(rs, ip - 1) && !Restarts(rs, ip)
    requires TableOk(src, slot, rs, ip - 2, base, htab[..])
    modifies htab
    ensures TableOk(src, slot, rs, ip, base, htab[..]) && Rolls(src, rs, ip, hval)
  {
    hval := NextHash(FirstHash(src, ip - 2), src, ip - 2);
    assert hval == HashAt(src, rs, ip - 2);
    HashedNow(rs, ip - 2);
    HashedNow(rs, ip - 1);
    RollsOn(src, rs, ip - 2);
    RollsOn(src, rs, ip - 1);
    hide TableOk, HashAt, Hashed, Restarts, NextHash, FirstHash;
    TableNext(src, slot, rs, ip - 2, base, htab[..]);
    htab[slot(hval)] := base + ip - 2;
    hval := NextHash(hval, src, ip - 1);
    TableNext(src, slot, rs, ip - 1, base, htab[..]);
    htab[slot(hval)] := base + ip - 1;
  }

  /** The test of a table entry. */
  lemma EntryUsable(src: seq<byte>, base: nat, ip: nat, entry: word64)
    requires MAX_OFF <= base && ip < |src| && base + |src| <= 0x1_0000_0000_0000_0000
    ensures Usable(src, entry - base, ip) <==>
            && Distance(base + ip, entry) < MAX_OFF
            && ip + 4 < |src|
            && entry > base
            && src[entry - base] == src[ip]
            && src[entry - base + 1] == src[ip + 1]
            && src[entry - base + 2] == src[ip + 2]
  {
    if 0 < entry - base < ip && ip + 4 < |src| {
      ThreeBytes(src, entry - base, ip);
    }
    hide Matching;
  }

  lemma ThreeBytes(src: seq<byte>, q: nat, p: nat)
    requires q < p && p + 2 < |src|
    ensures Matching(src, q, p, 3) <==> src[q] == src[p] && src[q + 1] == src[p + 1] && src[q + 2] == src[p + 2]
  {
    assert src[q..q + 3] == [src[q], src[q + 1], src[q + 2]];
    assert src[p..p + 3] == [src[p], src[p + 1], src[p + 2]];
  }

  /** The tokens when the open run is closed. */
  lemma ClosedTokens(src: seq<byte>, o: seq<byte>, ip: nat, op: nat, lit: nat, ts: seq<Token>, slot: nat -> Slot)
    returns (us: seq<Token>)
    requires Writing(src, o, ip, op, lit, ts) && Runs(ts) && Greedy(src, slot, Refs(ts), ip)
    ensures GreedyTokens(src, slot, us, ip) && |Encode(us)| == if lit == 0 then op - 1 else op
    ensures lit == 0 ==> us == ts
  {
    WritingBounds(src, o, ip, op, lit, ts);
    if lit == 0 {
      EmptyRunClosed(src, o, ip, op, ts);
      us := ts;
    } else {
      us := ts + [Literal(src[ip - lit..ip])];
      RunClosed(src, o, ip, op, lit, ts);
      ClosedRuns(ts, Literal(src[ip - lit..ip]));
    }
    hide Valid, Expand, Encode, Writing, Refs, Merged, Greedy;
  }

  lemma SomethingWritten(src: seq<byte>, o: seq<byte>, op: nat, ts: seq<Token>)
    requires Flushed(src, o, |src|, op, ts) && src != []
    ensures op > 0
  {
    assert src[..|src|] == src;
  }

  /** The end of lzf_compress: the bytes too close to the end to start a match are literals. */
  method FinishLiterals(src: seq<byte>, dst: array<byte>, ip0: nat, op0: nat, lit0: nat, ghost ts0: seq<Token>,
                        outLen: nat)
    returns (n: nat, ghost ts: seq<Token>)
    requires Writing(src, dst[..], ip0, op0, lit0, ts0) && lit0 < MAX_LIT
    requires |src| - ip0 <= 2 && src != [] && dst.Length == outLen + 1
    modifies dst
    ensures n <= outLen || n == 0
    ensures n > 0 ==> Flushed(src, dst[..], |src|, n, ts)
    ensures Tight(ip0, op0, lit0) ==> n <= LiteralSize(|src|)
    ensures Plain(ip0, op0, lit0) && n > 0 ==> n == LiteralSize(|src|)
    ensures n > 0 <==> op0 + 3 <= outLen
    ensures n > 0 && lit0 == 0 && |src| == ip0 + 2 ==> n == op0 + 2
    ensures Refs(ts) == Refs(ts0) && (Runs(ts0) && n > 0 ==> Merged(ts))
  {
    hide Writing, Flushed, Tight, Plain, LiteralSize, Refs, Runs, Merged;
    WritingBounds(src, dst[..], ip0, op0, lit0, ts0);
    var ip: nat, op: nat, lit: nat := ip0, op0, lit0;
    ts := ts0;
    if op + 3 > outLen { return 0, ts; }
    while ip < |src|
      invariant ip0 <= ip <= |src| && Writing(src, dst[..], ip, op, lit, ts) && lit < MAX_LIT
      invariant Refs(ts) == Refs(ts0) && (Runs(ts0) ==> Runs(ts))
      invariant Tight(ip0, op0, lit0) ==> Tight(ip, op, lit)
      invariant Plain(ip0, op0, lit0) ==> Plain(ip, op, lit)
      invariant lit0 == 0 ==> lit == ip - ip0 && op == op0 + (ip - ip0)
      invariant op == op0 + (ip - ip0) || (op == op0 + (ip - ip0) + 1 && lit <= ip - ip0)
    {
      op, lit, ts := AddLiteral(src, dst, ip, op, lit, ts);
      ip := ip + 1;
    }
    if Tight(ip, op, lit) { TightEnds(ip, op, lit); }
    if Plain(ip, op, lit) { PlainEnds(ip, op, lit); }
    n, ts := CloseRun(src, dst, ip, op, lit, ts);
    SomethingWritten(src, dst[..], n, ts);
  }

  lemma FlushedDecodes(src: seq<byte>, o: seq<byte>, n: nat, ts: seq<Token>)
    requires Flushed(src, o, |src|, n, ts)
    ensures forall limit: nat :: |src| <= limit ==> Decode(o[..n], limit) == Ok(src)
  {
    assert src[..|src|] == src;
    forall limit: nat | |src| <= limit ensures Decode(o[..n], limit) == Ok(src) {
      DecodeInvertsEncode(ts, limit);
    }
  }

  /** The output has room for the worst case. */
  predicate Roomy(len: nat, outLen: nat) {
    outLen >= len + len / 32 + 4
  }

  /** No three bytes occur twice. */
  ghost predicate NoMatch(src: seq<byte>) {
    forall i: nat, j: nat :: !Matching(src, i, j, 3)
  }

  lemma NothingChosen(src: seq<byte>, slot: nat -> Slot, ts: seq<Token>, base: nat, h: seq<word64>, hval: nat)
    requires ts == [] && |h| == HSIZE && (|src| > 1 ==> hval == FirstHash(src, 0))
    ensures Runs(ts) && Greedy(src, slot, Refs(ts), 0)
    ensures TableOk(src, slot, Refs(ts), 0, base, h) && Rolls(src, Refs(ts), 0, hval)
  {
  }

  /** Position ip has been looked up and entered into the table. */
  lemma Looked(src: seq<byte>, slot: nat -> Slot, rs: seq<Ref>, ip: nat, base: nat, h: seq<word64>, hval0: nat,
               hval: nat)
    requires TableOk(src, slot, rs, ip, base, h) && Greedy(src, slot, rs, ip) && ip + 2 < |src| && |h| == HSIZE
    requires base + |src| <= 0x1_0000_0000_0000_0000 && Rolls(src, rs, ip, hval0) && hval == NextHash(hval0, src, ip)
    ensures hval == HashAt(src, rs, ip)
    ensures TableOk(src, slot, rs, ip + 1, base, h[slot(hval) := base + ip])
    ensures !Usable(src, h[slot(hval)] - base, ip) ==> Missed(src, slot, rs, ip)
    ensures Rolls(src, rs, ip + 1, hval)
  {
    assert Before(rs, ip);
    HashedNow(rs, ip);
    assert !Restarts(rs, ip + 1);
    RollsOn(src, rs, ip);
    hide TableOk, Hashed, HashAt, Usable, Missed, Restarts, Taken;
    TableNext(src, slot, rs, ip, base, h);
    if !Usable(src, h[slot(hval)] - base, ip) {
      MissedNow(src, slot, rs, ip, base, h);
    }
  }

  lemma UsableMatches(src: seq<byte>, q: nat, p: nat)
    requires Usable(src, q, p)
    ensures Matching(src, q, p, 3) && q < p && src[q..q + 3] == src[p..p + 3] && !NoMatch(src)
  {
  }

  /** The match r has been taken; h is the table before position r.start was entered and h' the table after that. */
  lemma MatchChosen(src: seq<byte>, slot: nat -> Slot, rs: seq<Ref>, r: Ref, base: nat, h: seq<word64>, h': seq<word64>)
    requires TableOk(src, slot, rs, r.start, base, h) && TableOk(src, slot, rs, r.start + 1, base, h')
    requires Greedy(src, slot, rs, r.start) && r.start + 3 <= r.end <= |src|
    requires r.from == h[slot(HashAt(src, rs, r.start))] - base && Usable(src, r.from, r.start)
    requires Matching(src, r.from, r.start, r.end - r.start)
    requires r.end - r.start >= MAX_REF || r.end + 2 >= |src| || src[r.from + (r.end - r.start)] != src[r.end]
    ensures Greedy(src, slot, rs + [r], r.end) && TableOk(src, slot, rs + [r], r.end - 2, base, h')
    ensures Before(rs + [r], r.end)
    ensures Restarts(rs + [r], r.end - 2) && !Restarts(rs + [r], r.end - 1) && !Restarts(rs + [r], r.end)
  {
    TakenNow(src, slot, rs, r, base, h);
    assert Before(rs, r.start);
    assert (rs + [r])[|rs|] == r;
    hide TableOk, HashAt, Usable, Taken, Matching;
    TableSkips(src, slot, rs, r, base, h');
    GreedyRef(src, slot, rs, r);
    hide Greedy;
  }

  lemma LiteralChosen(src: seq<byte>, slot: nat -> Slot, rs: seq<Ref>, n: nat)
    requires Greedy(src, slot, rs, n)
    ensures Missed(src, slot, rs, n) ==> Greedy(src, slot, rs, n + 1)
  {
    if Missed(src, slot, rs, n) { GreedyLiteral(src, slot, rs, n); }
  }

  lemma NoRoomForMatch(src: seq<byte>, slot: nat -> Slot, o: seq<byte>, ip: nat, op: nat, ts: seq<Token>, outLen: nat)
    requires Flushed(src, o, ip, op, ts) && op + 4 >= outLen && ip + 4 < |src|
    requires Merged(ts) && Greedy(src, slot, Refs(ts), ip)
    ensures NoRoom(src, slot, ts, ip, outLen)
  {
    hide Valid, Expand, Encode, Greedy, Merged, Refs;
  }

  lemma NoRoomForLiteral(src: seq<byte>, slot: nat -> Slot, ts: seq<Token>, ip: nat, outLen: nat)
    requires GreedyTokens(src, slot, ts, ip) && ip + 2 < |src| && |Encode(ts)| + 1 >= outLen
    ensures NoRoom(src, slot, ts, ip, outLen)
  {
    hide GreedyTokens;
  }

  /** The loop of lzf_compress, which leaves at most two bytes, or gives up. */
  method CompressMost(src: seq<byte>, base: nat, dst: array<byte>, outLen: nat, htab: array<word64>, slot: nat -> Slot)
    returns (ok: bool, ip: nat, op: nat, lit: nat, ghost ts: seq<Token>)
    requires src != [] && outLen > 0
    requires MAX_OFF <= base && base + |src| <= 0x1_0000_0000_0000_0000
    requires dst.Length == outLen + 1 && htab.Length == HSIZE
    modifies dst, htab
    ensures ok ==> Writing(src, dst[..], ip, op, lit, ts) && lit < MAX_LIT && |src| - ip <= 2 && Tight(ip, op, lit)
    ensures ok && NoMatch(src) ==> Plain(ip, op, lit)
    ensures !ok ==> !Roomy(|src|, outLen)
    ensures |src| == 2 ==> ok && ip == 0 && op == 1 && lit == 0
    ensures if ok then Runs(ts) && Greedy(src, slot, Refs(ts), ip) else NoRoom(src, slot, ts, ip, outLen)
    ensures ok ==> ip + 2 <= |src| || ip == 0 || (lit == 0 && ts != [] && ts[|ts| - 1].BackRef?)
  {
    hide *;
    Starts();
    ok, ip, op, lit, ts := true, 0, 1, 0, [];
    WritingStart(src, dst[..]);
    var hval: nat := *;
    if |src| > 1 { hval := FirstHash(src, ip); }
    NothingChosen(src, slot, ts, base, htab[..], hval);
    while ip < |src| - 2
      invariant Writing(src, dst[..], ip, op, lit, ts) && lit < MAX_LIT
      invariant ok && Tight(ip, op, lit) && (|src| == 2 ==> ip == 0 && op == 1 && lit == 0)
      invariant NoMatch(src) ==> Plain(ip, op, lit)
      invariant Runs(ts) && Greedy(src, slot, Refs(ts), ip) && (ip + 2 <= |src| || ip == 0)
      invariant TableOk(src, slot, Refs(ts), ip, base, htab[..]) && Rolls(src, Refs(ts), ip, hval)
    {
      TightRoom(|src|, ip, op, lit, outLen);
      ghost var rs, h, hval0 := Refs(ts), htab[..], hval;
      hval := NextHash(hval, src, ip);
      var entry := htab[slot(hval)];
      htab[slot(hval)] := base + ip;
      Looked(src, slot, rs, ip, base, h, hval0, hval);
      EntryUsable(src, base, ip, entry);
      if
        && Distance(base + ip, entry) < MAX_OFF
        && ip + 4 < |src|
        && entry > base
        && src[entry - base] == src[ip]
        && src[entry - base + 1] == src[ip + 1]
        && src[entry - base + 2] == src[ip + 2]
      {
        ghost var start := ip;
        UsableMatches(src, entry - base, ip);
        ok, ip, op, ts := TakeMatch(src, dst, ip, op, lit, ts, entry - base, outLen);
        if !ok {
          NoRoomForMatch(src, slot, dst[..], ip, op, ts, outLen);
          return;
        }
        lit := 0;
        MatchChosen(src, slot, rs, Ref(start, ip, entry - base), base, h, htab[..]);
        if ip >= |src| - 2 { break; }
        hval := InsertSkipped(src, base, ip, htab, slot, rs + [Ref(start, ip, entry - base)]);
      } else {
        LiteralChosen(src, slot, rs, ip);
        if op >= outLen {
          ts := ClosedTokens(src, dst[..], ip, op, lit, ts, slot);
          NoRoomForLiteral(src, slot, ts, ip, outLen);
          ok := false;
          return;
        }
        op, lit, ts := AddLiteral(src, dst, ip, op, lit, ts);
        ip := ip + 1;
      }
    }
  }

  /** The lengths at which a text without matches stays below 104 %: 26 to 32, 51 to 64, 76 to 96, and from 101 on. */
  predicate Within104(len: nat) {
    len > 25 * ((len + 31) / 32)
  }

  /** lzf.h promises an output of less than 104 % of the input; this holds of every output exactly at those lengths. */
  lemma SizePromise(len: nat)
    ensures Within104(len) <==> 100 * LiteralSize(len) < 104 * len
    ensures len >= 101 ==> Within104(len)
  {
  }

  lemma SameHead(s: seq<byte>, i: nat, j: nat)
    ensures Matching(s, i, j, 3) ==> i < j < |s| && s[i] == s[j]
  {
    if Matching(s, i, j, 3) {
      assert s[i..i + 3][0] == s[i] && s[j..j + 3][0] == s[j];
    }
  }

  lemma DifferentBytes(s: seq<byte>)
    requires forall i, j :: 0 <= i < j < |s| ==> s[i] != s[j]
    ensures NoMatch(s)
  {
    hide Matching;
    forall i: nat, j: nat ensures !Matching(s, i, j, 3) {
      SameHead(s, i, j);
    }
  }

  /** Bytes that are all different, for a length at which the promise fails. */
  function AllDifferent(len: nat): (s: seq<byte>)
    requires !Within104(len)
    ensures |s| == len && NoMatch(s)
  {
    SizePromise(len);
    assert len < 256;
    var s: seq<byte> := seq(len, i requires 0 <= i < len => i);
    DifferentBytes(s);
    s
  }

  lemma SizeLimits(len: nat, outLen: nat)
    ensures Roomy(len, outLen) <==> outLen >= len + len / 32 + 4
  {
  }

  /**
    lzf_compress, with any function slot from hash values to slots of the table.  The output buffer has one byte more
    than outLen, as its caller allocates it, and the hash table starts with arbitrary contents: only the guards on an
    entry make it usable.  No buffer lies in the first MAX_OFF bytes of the address space, so that an unsigned distance
    below MAX_OFF cannot have wrapped around.  The first two input bytes are read without a length check; the hash
    value that comes of a missing second byte can be any.

    The output is no longer than that of literals only, which is what a text without matches takes; SizePromise and
    WorstCase say what this means for the promise of lzf.h.  With room for the worst case the compression succeeds.
   */
  method Compress(src: seq<byte>, base: nat, dst: array<byte>, outLen: nat, htab: array<word64>, slot: nat -> Slot)
    returns (n: nat)
    requires MAX_OFF <= base && base + |src| <= 0x1_0000_0000_0000_0000
    requires dst.Length == outLen + 1 && htab.Length == HSIZE
    modifies dst, htab
    ensures n <= outLen
    ensures n > 0 ==> forall limit: nat :: |src| <= limit ==> Decode(dst[..n], limit) == Ok(src)
    ensures n <= LiteralSize(|src|) && (n > 0 && NoMatch(src) ==> n == LiteralSize(|src|))
    ensures src != [] && outLen >= |src| + |src| / 32 + 4 ==> n > 0
    ensures Within104(|src|) ==> 100 * n < 104 * |src|
    ensures |src| == 2 && outLen >= 4 ==> n == 3
    ensures n > 0 ==> GreedyEncoding(src, slot, dst[..n])
    ensures n == 0 && src != [] && outLen > 0 ==> TooSmall(src, slot, outLen)
    ensures AllEqual(src) && |src| >= 16 && outLen + 4 >= |src| ==> 0 < n <= 8 + 3 * (|src| / 264 + 1)
  {
    SizePromise(|src|);
    if src == [] || outLen == 0 { return 0; }
    hide *;
    SizeLimits(|src|, outLen);
    var ok, ip, op, lit, ts := CompressMost(src, base, dst, outLen, htab, slot);
    if !ok {
      NoRoomIsTooSmall(src, slot, ts, ip, outLen);
      return 0;
    }
    TightRoom(|src|, ip, op, lit, outLen);
    WritingBounds(src, dst[..], ip, op, lit, ts);
    ghost var us := ClosedTokens(src, dst[..], ip, op, lit, ts, slot);
    if op + 3 > outLen {
      NoRoomToFinish(src, slot, us, ip, outLen);
      NoRoomIsTooSmall(src, slot, us, ip, outLen);
    }
    n, ts := FinishLiterals(src, dst, ip, op, lit, ts, outLen);
    if n > 0 {
      FlushedDecodes(src, dst[..], n, ts);
      FlushedIsGreedy(src, slot, dst[..], n, ts, ip);
    }
  }

  lemma NoRoomIsTooSmall(src: seq<byte>, slot: nat -> Slot, ts: seq<Token>, ip: nat, outLen: nat)
    requires NoRoom(src, slot, ts, ip, outLen)
    ensures TooSmall(src, slot, outLen) && !(AllEqual(src) && |src| >= 16 && outLen + 4 >= |src|)
  {
    if AllEqual(src) && |src| >= 16 { EqualBytesFit(src, slot, ts, ip, outLen); }
    hide NoRoom, AllEqual;
  }

  lemma NoRoomToFinish(src: seq<byte>, slot: nat -> Slot, ts: seq<Token>, ip: nat, outLen: nat)
    requires GreedyTokens(src, slot, ts, ip) && |src| - ip <= 2 && |Encode(ts)| + 3 >= outLen
    requires ip + 2 <= |src| || ip == 0 || (ts != [] && ts[|ts| - 1].BackRef?)
    ensures NoRoom(src, slot, ts, ip, outLen)
  {
    hide GreedyTokens;
  }

  lemma FlushedIsGreedy(src: seq<byte>, slot: nat -> Slot, o: seq<byte>, n: nat, ts: seq<Token>, ip: nat)
    requires Flushed(src, o, |src|, n, ts) && Merged(ts) && Greedy(src, slot, Refs(ts), ip)
    requires ip <= |src| <= ip + 2 && n <= |o|
    ensures GreedyEncoding(src, slot, o[..n])
    ensures AllEqual(src) && |src| >= 16 ==> n <= 8 + 3 * (|src| / 264 + 1)
  {
    GreedyTail(src, slot, Refs(ts), ip);
    hide Valid, Expand, Encode, Refs, Merged, Greedy, AllEqual;
    assert GreedyTokens(src, slot, ts, |src|);
    if AllEqual(src) && |src| >= 16 { EqualBytesShrink(src, slot, ts); }
    hide GreedyTokens;
  }

  /** The last two positions are not looked up. */
  lemma GreedyTail(src: seq<byte>, slot: nat -> Slot, rs: seq<Ref>, n: nat)
    requires Greedy(src, slot, rs, n) && n <= |src| <= n + 2
    ensures Greedy(src, slot, rs, |src|)
  {
    hide Taken, Newest, Usable;
  }

  /** At every other length, some input takes 104 % or more, whatever the table and the hash function. */
  method WorstCase(len: nat, base: nat, dst: array<byte>, outLen: nat, htab: array<word64>, slot: nat -> Slot)
    returns (src: seq<byte>, n: nat)
    requires len >= 1 && !Within104(len) && outLen >= len + len / 32 + 4
    requires MAX_OFF <= base && base + len <= 0x1_0000_0000_0000_0000
    requires dst.Length == outLen + 1 && htab.Length == HSIZE
    modifies dst, htab
    ensures |src| == len && 0 < n <= outLen && 100 * n >= 104 * len
    ensures Decode(dst[..n], len) == Ok(src)
  {
    src := AllDifferent(len);
    hide *;
    SizePromise(len);
    n := Compress(src, base, dst, outLen, htab, slot);
  }
}
