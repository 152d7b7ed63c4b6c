/** The printer as it appends to a buffer, and the client structure as the parser updates it. */
module Resp {
  import opened Bytes
  import opened Decimal
  import opened RespSpec

  /** catAppendOnlyGenericCommand: appends the command to dst. */
  method CatCommand(dst: seq<byte>, args: Args) returns (r: seq<byte>)
    ensures r == dst + PrintCommand(args)
  {
    r := dst + ([STAR] + Digits(|args|) + CRLF);
    var j := 0;
    while j < |args|
      invariant 0 <= j <= |args|
      invariant r + PrintArgs(args[j..]) == dst + PrintCommand(args)
    {
      var o := args[j];
      ghost var r0, rest := r, PrintArgs(args[j + 1..]);
      assert args[j..][1..] == args[j + 1..];
      r := r + ([DOLLAR] + Digits(|o|) + CRLF);
      r := r + o;
      r := r + CRLF;
      Appended(r0, Header(DOLLAR, |o|), o, rest);
      j := j + 1;
    }
    assert r + [] == r;
  }

  lemma Appended(r: seq<byte>, h: seq<byte>, o: seq<byte>, rest: seq<byte>)
    ensures ((r + h) + o + CRLF) + rest == r + ((h + (o + CRLF)) + rest)
  {
  }

  /** The fields of redisClient that parsing uses; executed lists the commands handed to processCommand. */
  class RedisClient {
    var querybuf: seq<byte>
    var reqtype: Request
    var multibulklen: nat
    var bulklen: int
    var argv: Args
    var closing: bool
    var executed: seq<Args>

    ghost function Abs(): Client
      reads this
    {
      Client(querybuf, reqtype, multibulklen, bulklen, argv, closing, executed)
    }

    constructor ()
      ensures Abs() == Connected()
    {
      querybuf, reqtype, multibulklen, bulklen, argv, closing, executed := [], Unknown, 0, -1, [], false, [];
    }

    /** resetClient. */
    method ResetClient()
      modifies this
      ensures Abs() == Reset(old(Abs()))
    {
      argv, reqtype, multibulklen, bulklen := [], Unknown, 0, -1;
    }

    /** setProtocolError. */
    method SetProtocolError(pos: nat)
      requires pos <= |querybuf|
      modifies this
      ensures Abs() == old(Abs()).(closing := true, buf := old(querybuf)[pos..])
    {
      closing := true;
      querybuf := querybuf[pos..];
    }

    ghost function At(pos: nat): Bulks
      reads this
    {
      Bulks(querybuf, pos, multibulklen, bulklen, argv)
    }

    /** Lines 897-939: false when the loop must stop, with the error already reported. */
    method ReadBulkLength(pos: nat) returns (ok: bool, pos': nat)
      requires BulksOk(At(pos)) && multibulklen > 0
      modifies this
      ensures reqtype == old(reqtype) && executed == old(executed) && pos' <= |querybuf|
      ensures match ReadLength(old(At(pos)))
              case Advance(b) => ok && At(pos') == b && closing == old(closing)
              case Pause(b) => !ok && At(pos') == b && closing == old(closing)
              case Reject(b) => !ok && At(0).(buf := querybuf[pos'..]) == b.(buf := b.buf[b.pos..], pos := 0) && closing
    {
      pos' := pos;
      if bulklen != -1 { return true, pos; }
      var newline := FindCR(querybuf, pos);
      if newline.None? {
        if |querybuf| > INLINE_MAX_SIZE { closing := true; }
        return false, pos;
      }
      var nl := newline.value;
      if nl > |querybuf| - 2 { return false, pos; }
      if querybuf[pos] != DOLLAR {
        SetProtocolError(pos);
        return false, 0;
      }
      var ll := String2ll(querybuf[pos + 1..nl]);
      if ll.None? || ll.value < 0 || ll.value > MAX_BULK {
        SetProtocolError(pos);
        return false, 0;
      }
      pos' := nl + 2;
      if ll.value >= MBULK_BIG_ARG {
        querybuf := querybuf[pos'..];
        pos' := 0;
      }
      bulklen := ll.value;
      return true, pos';
    }

    /** Lines 941-967: false when the argument has not arrived in full. */
    method ReadBulkArgument(pos: nat) returns (ok: bool, pos': nat)
      requires BulksOk(At(pos)) && multibulklen > 0 && bulklen >= 0
      modifies this
      ensures reqtype == old(reqtype) && executed == old(executed) && closing == old(closing)
      ensures ok == TakeArg(old(At(pos))).Advance? && At(pos') == TakeArg(old(At(pos))).b
    {
      pos' := pos;
      if |querybuf| - pos < bulklen + 2 { return false, pos; }
      if pos == 0 && bulklen >= MBULK_BIG_ARG && |querybuf| == bulklen + 2 {
        argv := argv + [querybuf[..bulklen]];
        querybuf := [];
      } else {
        argv := argv + [querybuf[pos..pos + bulklen]];
        pos' := pos + bulklen + 2;
      }
      bulklen := -1;
      multibulklen := multibulklen - 1;
      return true, pos';
    }

    /** The loop from line 895 on and the trimming after it. */
    method ReadArguments(pos0: nat) returns (ok: bool)
      requires BulksOk(At(pos0))
      modifies this
      ensures Abs() == AfterBulks(old(Abs()), RunBulks(old(At(pos0)))).0
      ensures ok == RunBulks(old(At(pos0))).Advance?
    {
      hide ReadLength, TakeArg;
      var pos := pos0;
      ghost var c, goal := Abs(), RunBulks(At(pos0));
      while multibulklen > 0
        invariant BulksOk(At(pos)) && RunBulks(At(pos)) == goal
        invariant reqtype == old(reqtype) && executed == old(executed) && closing == old(closing)
        decreases multibulklen
      {
        ghost var b0 := At(pos);
        var more;
        more, pos := ReadBulkLength(pos);
        if !more {
          assert goal == BulkStep(b0) == ReadLength(b0);
          querybuf := querybuf[pos..];
          return false;
        }
        more, pos := ReadBulkArgument(pos);
        if !more {
          querybuf := querybuf[pos..];
          return false;
        }
      }
      querybuf := querybuf[pos..];
      return true;
    }

    /** processMultibulkBuffer. */
    method ProcessMultibulkBuffer() returns (ok: bool)
      requires bulklen >= -1 && querybuf != [] && (multibulklen == 0 ==> querybuf[0] == STAR)
      modifies this
      ensures (Abs(), ok) == ProcessMultibulk(old(Abs()))
    {
      hide RunBulks, FindCR, String2ll;
      var pos := 0;
      if multibulklen == 0 {
        var newline := FindCR(querybuf, 0);
        if newline.None? {
          if |querybuf| > INLINE_MAX_SIZE { SetProtocolError(0); }
          return false;
        }
        var nl := newline.value;
        if nl > |querybuf| - 2 { return false; }
        var ll := String2ll(querybuf[1..nl]);
        if ll.None? || ll.value > MAX_ARGS {
          SetProtocolError(0);
          return false;
        }
        pos := nl + 2;
        if ll.value <= 0 {
          querybuf := querybuf[pos..];
          return true;
        }
        multibulklen := ll.value;
        argv := [];
      }
      ok := ReadArguments(pos);
    }

    /** processInlineBuffer. */
    method ProcessInlineBuffer() returns (ok: bool)
      modifies this
      ensures (Abs(), ok) == ProcessInline(old(Abs()))
    {
      hide Words;
      var newline := FindCRLF(querybuf, 0);
      if newline.None? {
        if |querybuf| > INLINE_MAX_SIZE { SetProtocolError(0); }
        return false;
      }
      argv := Words(querybuf[..newline.value], []);
      querybuf := querybuf[newline.value + 2..];
      return true;
    }

    /** processInputBuffer. */
    method ProcessInputBuffer()
      requires Idle(Abs())
      modifies this
      ensures Abs() == ProcessInput(old(Abs()))
    {
      hide ProcessMultibulk, ProcessInline;
      ghost var goal := ProcessInput(Abs());
      while querybuf != [] && !closing
        invariant Idle(Abs()) && ProcessInput(Abs()) == goal
        decreases |querybuf|
      {
        ghost var c := Abs();
        if reqtype == Unknown {
          reqtype := if querybuf[0] == STAR then Multibulk else Inline;
        }
        assert Abs() == WithType(c);
        var ok;
        if reqtype == Inline {
          ok := ProcessInlineBuffer();
        } else {
          ok := ProcessMultibulkBuffer();
        }
        if !ok {
          assert (Abs(), false) == InputStep(c);
          return;
        }
        if argv != [] {
          executed := executed + [argv];
        }
        ResetClient();
        assert (Abs(), true) == InputStep(c);
      }
    }

    /** readQueryFromClient, for the bytes that a read returned. */
    method ReadQuery(chunk: seq<byte>)
      requires Idle(Abs()) && 0 < |chunk| <= ReadLen(Abs())
      modifies this
      ensures Idle(Abs()) && Abs() == ProcessInput(old(Abs()).(buf := old(querybuf) + chunk))
    {
      querybuf := querybuf + chunk;
      assert Abs() == old(Abs()).(buf := old(querybuf) + chunk);
      ProcessInputBuffer();
    }
  }
}
