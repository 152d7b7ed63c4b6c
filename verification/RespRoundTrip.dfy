/** What the command printer writes, the request parser reads back, however the bytes are cut into reads. */
module RespRoundTrip {
  import opened Bytes
  import opened Decimal
  import opened RespSpec

  // ---- Header lines ----

  lemma {:induction false} FindCRSkips(s: seq<byte>, pos: nat, k: nat)
    requires pos + k <= |s| && forall i :: pos <= i < pos + k ==> s[i] != CR && s[i] != 0
    ensures FindCR(s, pos) == FindCR(s, pos + k)
    decreases k
  {
    if k > 0 {
      FindCRSkips(s, pos + 1, k - 1);
    }
  }

  lemma DigitsShort(n: nat)
    requires n <= MAX_BULK
    ensures |Digits(n)| <= 10
  {
    Pow10Is();
    DigitsLength(n, 10);
  }

  /** The part of a header line before its end: no byte of it is CR or NUL. */
  lemma HeaderBytes(kind: byte, n: nat, tail: seq<byte>)
    requires kind == STAR || kind == DOLLAR
    ensures var s := Header(kind, n) + tail;
            var h := 1 + |Digits(n)|;
            && |s| >= h + 2 && s[0] == kind && s[1..h] == Digits(n)
            && s[h] == CR && s[h + 1] == LF && s[h + 2..] == tail
            && forall i :: 0 <= i < h ==> s[i] != CR && s[i] != 0
  {
    var s := Header(kind, n) + tail;
    var h := 1 + |Digits(n)|;
    assert s == [kind] + Digits(n) + (CRLF + tail);
    assert s[1..h] == Digits(n);
    assert CRLF == [CR, LF];
    forall i | 1 <= i < h ensures s[i] != CR && s[i] != 0 {
      assert s[i] == Digits(n)[i - 1];
    }
  }

  /** What the parser sees of a header line whose bytes have arrived in part. */
  lemma HeaderSeen(buf: seq<byte>, pos: nat, future: seq<byte>, kind: byte, n: nat, tail: seq<byte>)
    requires kind == STAR || kind == DOLLAR
    requires pos <= |buf| && buf[pos..] + future == Header(kind, n) + tail
    ensures var h := 1 + |Digits(n)|;
            var avail := |buf| - pos;
            && (avail <= h ==> FindCR(buf, pos) == None)
            && (avail > h ==>
                  FindCR(buf, pos) == Some(pos + h) && buf[pos] == kind && buf[pos + 1..pos + h] == Digits(n))
            && (avail < h + 2 ==> future != [])
            && (avail >= h + 2 ==> buf[pos + h + 2..] + future == tail)
  {
    var s := buf[pos..] + future;
    var h := 1 + |Digits(n)|;
    var avail := |buf| - pos;
    HeaderBytes(kind, n, tail);
    hide Digits, Header;
    forall i | pos <= i < |buf| ensures buf[i] == s[i - pos] {
    }
    if avail <= h {
      FindCRSkips(buf, pos, avail);
    } else {
      FindCRSkips(buf, pos, h);
      assert buf[pos + 1..pos + h] == s[1..h];
      if avail >= h + 2 {
        assert s[h + 2..] == buf[pos + h + 2..] + future;
      }
    }
  }

  // ---- One argument ----

  /** The unread bytes are what is left of the command cmd, followed by tail. */
  ghost predicate Expects(b: Bulks, future: seq<byte>, cmd: Args, tail: seq<byte>) {
    var j := |b.argv|;
    && BulksOk(b) && j <= |cmd| && b.argv == cmd[..j] && b.mlen == |cmd| - j
    && (if b.blen == -1 then b.buf[b.pos..] + future == PrintArgs(cmd[j..]) + tail
        else j < |cmd| && b.blen == |cmd[j]|
             && b.buf[b.pos..] + future == cmd[j] + CRLF + (PrintArgs(cmd[j + 1..]) + tail))
  }

  /** The buffer cannot trip the size check: it is short, or holds no more than one big argument. */
  predicate SizeOk(b: Bulks) {
    |b.buf| <= INLINE_MAX_SIZE || (b.pos == 0 && b.blen >= MBULK_BIG_ARG && |b.buf| <= b.blen + 2)
  }

  /** More bytes are needed, and little is waiting in the buffer. */
  ghost predicate Hungry(b: Bulks, future: seq<byte>) {
    && future != [] && b.mlen > 0
    && |b.buf| - b.pos < (if b.blen == -1 then 13 else b.blen + 2)
  }

  ghost predicate GoodArgs(cmd: Args) {
    0 < |cmd| <= MAX_ARGS && forall i :: 0 <= i < |cmd| ==> |cmd[i]| <= MAX_BULK
  }

  lemma LengthParses(n: nat)
    requires n <= MAX_BULK
    ensures String2ll(Digits(n)) == Some(n)
  {
    String2llIsCanonical(Digits(n), n);
  }

  /** What is left of a command of which j arguments have been read, from the length of the next one on. */
  lemma ArgsLeft(cmd: Args, j: nat, tail: seq<byte>)
    requires j < |cmd|
    ensures PrintArgs(cmd[j..]) + tail
         == Header(DOLLAR, |cmd[j]|) + (cmd[j] + CRLF + (PrintArgs(cmd[j + 1..]) + tail))
  {
    assert cmd[j..][1..] == cmd[j + 1..];
    Regroup(Header(DOLLAR, |cmd[j]|), cmd[j] + CRLF, PrintArgs(cmd[j + 1..]), tail);
  }

  /** ReadLength on a length line of n that ends at h and has arrived in full, or not. */
  lemma LengthRead(b: Bulks, h: nat, n: nat)
    requires BulksOk(b) && b.blen == -1 && |b.buf| <= INLINE_MAX_SIZE && h > 0 && n <= MAX_BULK
    requires |b.buf| - b.pos <= h ==> FindCR(b.buf, b.pos) == None
    requires |b.buf| - b.pos > h ==> FindCR(b.buf, b.pos) == Some(b.pos + h) && b.buf[b.pos] == DOLLAR
    requires |b.buf| - b.pos > h ==> String2ll(b.buf[b.pos + 1..b.pos + h]) == Some(n)
    ensures |b.buf| - b.pos < h + 2 ==> ReadLength(b) == Pause(b)
    ensures |b.buf| - b.pos >= h + 2 ==>
              ReadLength(b) == Advance(if n >= MBULK_BIG_ARG then b.(buf := b.buf[b.pos + h + 2..], pos := 0, blen := n)
                                       else b.(pos := b.pos + h + 2, blen := n))
  {
    hide FindCR, String2ll;
  }

  /** Reading a length leaves the argument and what follows it to be read. */
  lemma ReadLengthExpects(b: Bulks, future: seq<byte>, cmd: Args, tail: seq<byte>)
    requires Expects(b, future, cmd, tail) && GoodArgs(cmd) && SizeOk(b) && b.mlen > 0
    ensures var s := ReadLength(b);
            && !s.Reject? && Expects(s.b, future, cmd, tail) && SizeOk(s.b) && s.b.mlen == b.mlen
            && (s.Pause? ==> Hungry(s.b, future))
  {
    if b.blen == -1 {
      var j := |b.argv|;
      var a := cmd[j];
      var h := 1 + |Digits(|a|)|;
      ArgsLeft(cmd, j, tail);
      HeaderSeen(b.buf, b.pos, future, DOLLAR, |a|, a + CRLF + (PrintArgs(cmd[j + 1..]) + tail));
      DigitsShort(|a|);
      LengthParses(|a|);
      hide PrintArgs, Digits, FindCR, String2ll, Header, ReadLength, GoodArgs, Expects, Hungry;
      LengthRead(b, h, |a|);
      if |b.buf| - b.pos < h + 2 {
        StaysHungry(b, future, h);
      } else {
        LengthKnown(b, future, cmd, tail, h);
      }
    }
  }

  lemma StaysHungry(b: Bulks, future: seq<byte>, h: nat)
    requires future != [] && b.mlen > 0 && b.blen == -1 && |b.buf| - b.pos < h + 2 && h <= 11
    ensures Hungry(b, future)
  {
  }

  lemma LengthKnown(b: Bulks, future: seq<byte>, cmd: Args, tail: seq<byte>, h: nat)
    requires Expects(b, future, cmd, tail) && b.mlen > 0 && b.blen == -1 && |b.buf| - b.pos >= h + 2
    requires var j := |b.argv|;
             b.buf[b.pos + h + 2..] + future == cmd[j] + CRLF + (PrintArgs(cmd[j + 1..]) + tail)
    ensures var n := |cmd[|b.argv|]|;
            && Expects(b.(buf := b.buf[b.pos + h + 2..], pos := 0, blen := n), future, cmd, tail)
            && Expects(b.(pos := b.pos + h + 2, blen := n), future, cmd, tail)
  {
    hide PrintArgs;
    assert b.buf[b.pos + h + 2..][0..] == b.buf[b.pos + h + 2..];
  }

  lemma Regroup(h: seq<byte>, a: seq<byte>, p: seq<byte>, t: seq<byte>)
    ensures ((h + a) + p) + t == h + (a + (p + t))
  {
  }

  /** Taking an argument leaves the ones after it. */
  lemma TakeArgExpects(b: Bulks, future: seq<byte>, cmd: Args, tail: seq<byte>)
    requires Expects(b, future, cmd, tail) && GoodArgs(cmd) && SizeOk(b) && b.mlen > 0 && b.blen >= 0
    ensures var s := TakeArg(b);
            && !s.Reject? && Expects(s.b, future, cmd, tail) && SizeOk(s.b)
            && (s.Pause? ==> Hungry(s.b, future))
  {
    var j := |b.argv|;
    var a := cmd[j];
    var rest := PrintArgs(cmd[j + 1..]) + tail;
    hide PrintArgs;
    var n := |a| + 2;
    var seen := b.buf[b.pos..];
    assert |a + CRLF| == n;
    if |seen| < n {
      assert |seen + future| == |a + CRLF + rest| >= n;
    } else {
      SplitSeen(seen, future, a, rest);
      assert b.buf[b.pos..b.pos + |a|] == seen[..|a|];
      assert b.buf[b.pos + n..] == seen[n..];
      assert cmd[..j] + [a] == cmd[..j + 1];
      if |seen| == n {
        assert seen[n..] == [];
      }
    }
  }

  lemma SplitSeen(seen: seq<byte>, future: seq<byte>, a: seq<byte>, rest: seq<byte>)
    requires seen + future == a + CRLF + rest && |seen| >= |a| + 2
    ensures seen[..|a|] == a && seen[|a| + 2..] + future == rest
  {
    var s := seen + future;
    assert s[..|a|] == a && s[|a| + 2..] == rest;
    assert s[..|a|] == seen[..|a|] && s[|a| + 2..] == seen[|a| + 2..] + future;
  }

  lemma BulkStepExpects(b: Bulks, future: seq<byte>, cmd: Args, tail: seq<byte>)
    requires Expects(b, future, cmd, tail) && GoodArgs(cmd) && SizeOk(b) && b.mlen > 0
    ensures var s := BulkStep(b);
            && !s.Reject? && Expects(s.b, future, cmd, tail) && SizeOk(s.b)
            && (s.Pause? ==> Hungry(s.b, future))
  {
    hide Expects, GoodArgs, ReadLength, TakeArg, Hungry, SizeOk;
    ExpectsOk(b, future, cmd, tail);
    ReadLengthExpects(b, future, cmd, tail);
    var l := ReadLength(b);
    if l.Advance? {
      TakeArgExpects(l.b, future, cmd, tail);
    }
  }

  lemma {:induction false} RunBulksExpects(b: Bulks, future: seq<byte>, cmd: Args, tail: seq<byte>)
    requires Expects(b, future, cmd, tail) && GoodArgs(cmd) && SizeOk(b)
    ensures var s := RunBulks(b);
            && !s.Reject? && Expects(s.b, future, cmd, tail) && SizeOk(s.b)
            && (s.Pause? ==> Hungry(s.b, future))
            && (s.Advance? ==> s.b.mlen == 0)
    decreases b.mlen
  {
    hide Expects, GoodArgs, BulkStep, Hungry, SizeOk;
    ExpectsOk(b, future, cmd, tail);
    if b.mlen > 0 {
      BulkStepExpects(b, future, cmd, tail);
      var s := BulkStep(b);
      if s.Advance? {
        RunBulksExpects(s.b, future, cmd, tail);
      }
    }
  }

  lemma ExpectsOk(b: Bulks, future: seq<byte>, cmd: Args, tail: seq<byte>)
    requires Expects(b, future, cmd, tail)
    ensures BulksOk(b)
  {
  }

  // ---- Whole requests ----

  ghost predicate GoodCommands(cmds: seq<Args>) {
    forall i :: 0 <= i < |cmds| ==> GoodArgs(cmds[i])
  }

  function AtStart(c: Client): Bulks {
    Bulks(c.buf, 0, c.mlen, c.blen, c.argv)
  }

  /** The client is in step with the stream: its state and the bytes to come stand for the commands todo. */
  ghost predicate Sync(c: Client, future: seq<byte>, todo: seq<Args>) {
    && !c.closing && Idle(c) && GoodCommands(todo)
    && (if c.mlen == 0 then
          && c.argv == [] && c.blen == -1 && c.buf + future == PrintAll(todo)
          && (c.req == Unknown || (c.req == Multibulk && c.buf != []))
        else
          && c.req == Multibulk && todo != []
          && Expects(AtStart(c), future, todo[0], PrintAll(todo[1..])))
  }

  lemma CommandSplits(cmds: seq<Args>)
    requires cmds != []
    ensures PrintAll(cmds) == Header(STAR, |cmds[0]|) + (PrintArgs(cmds[0]) + PrintAll(cmds[1..]))
  {
    assert Header(STAR, |cmds[0]|) + PrintArgs(cmds[0]) + PrintAll(cmds[1..])
        == Header(STAR, |cmds[0]|) + (PrintArgs(cmds[0]) + PrintAll(cmds[1..]));
  }

  /** The count line is read, or is still incomplete. */
  lemma CountSeen(c: Client, future: seq<byte>, todo: seq<Args>)
    requires Sync(c, future, todo) && c.mlen == 0 && c.buf != [] && |c.buf| <= INLINE_MAX_SIZE
    ensures todo != [] && c.buf[0] == STAR
    ensures var n := |todo[0]|;
            var h := 1 + |Digits(n)|;
            && String2ll(Digits(n)) == Some(n) && 0 < n <= MAX_ARGS && h <= 11
            && (|c.buf| <= h ==> FindCR(c.buf, 0) == None && future != [])
            && (|c.buf| > h ==> FindCR(c.buf, 0) == Some(h) && c.buf[1..h] == Digits(n))
            && (|c.buf| == h + 1 ==> future != [])
            && (|c.buf| >= h + 2 ==> Expects(Bulks(c.buf, h + 2, n, -1, []), future, todo[0], PrintAll(todo[1..])))
  {
    CommandSplits(todo);
    var n := |todo[0]|;
    assert GoodArgs(todo[0]);
    var tail := PrintArgs(todo[0]) + PrintAll(todo[1..]);
    assert c.buf[0..] == c.buf;
    HeaderSeen(c.buf, 0, future, STAR, n, tail);
    HeaderBytes(STAR, n, tail);
    DigitsShort(n);
    LengthParses(n);
    hide PrintAll, PrintArgs, Header, Digits, FindCR, String2ll, GoodArgs, GoodCommands;
    assert todo[0][0..] == todo[0];
  }

  /** Trimming the buffer to the position changes nothing. */
  lemma ExpectsTrimmed(b: Bulks, future: seq<byte>, cmd: Args, tail: seq<byte>)
    requires Expects(b, future, cmd, tail)
    ensures BulksOk(b) && b.mlen <= |cmd|
    ensures Expects(b.(buf := b.buf[b.pos..], pos := 0), future, cmd, tail)
    ensures Hungry(b, future) ==> Hungry(b.(buf := b.buf[b.pos..], pos := 0), future)
  {
    hide PrintArgs;
    assert b.buf[b.pos..][0..] == b.buf[b.pos..];
  }

  lemma ExpectsDone(b: Bulks, future: seq<byte>, cmd: Args, tail: seq<byte>)
    requires Expects(b, future, cmd, tail) && b.mlen == 0
    ensures b.argv == cmd && b.blen == -1 && b.buf[b.pos..] + future == tail
  {
    assert cmd[..|cmd|] == cmd && cmd[|cmd|..] == [];
    assert PrintArgs([]) + tail == tail;
  }

  /** What a completed or an interrupted argument loop means for the client. */
  lemma AfterBulksSync(c: Client, b: Bulks, future: seq<byte>, todo: seq<Args>)
    requires !c.closing && c.req == Multibulk && todo != [] && GoodCommands(todo) && b.mlen > 0 && BulksOk(b)
    requires Expects(b, future, todo[0], PrintAll(todo[1..])) && SizeOk(b)
    ensures var (c', ok) := AfterBulks(c, RunBulks(b));
            && (ok ==> c'.argv == todo[0] && c'.buf + future == PrintAll(todo[1..]) && !c'.closing
                       && |c'.buf| <= INLINE_MAX_SIZE)
            && (!ok ==> Sync(c', future, todo) && Hungry(AtStart(c'), future) && c'.mlen > 0)
            && c'.executed == c.executed
  {
    assert GoodArgs(todo[0]);
    hide PrintAll, GoodArgs, RunBulks, GoodCommands, Expects, Hungry;
    RunBulksExpects(b, future, todo[0], PrintAll(todo[1..]));
    var s := RunBulks(b);
    ExpectsTrimmed(s.b, future, todo[0], PrintAll(todo[1..]));
    if s.Advance? {
      ExpectsDone(s.b, future, todo[0], PrintAll(todo[1..]));
    }
  }

  /** The buffer is empty or waits for data, and is short enough for the next read. */
  ghost predicate Waiting(c: Client, future: seq<byte>) {
    && (c.buf == [] || future != [])
    && (c.mlen == 0 || c.blen == -1 ==> |c.buf| < 13)
    && (c.mlen > 0 && c.blen >= 0 ==> |c.buf| < c.blen + 2)
  }

  /** ProcessMultibulk on a count line of n that ends at h and has arrived in full, or not. */
  lemma CountRead(c: Client, h: nat, n: nat)
    requires c.buf != [] && c.mlen == 0 && c.blen == -1 && c.buf[0] == STAR && |c.buf| <= INLINE_MAX_SIZE
    requires h > 0 && 0 < n <= MAX_ARGS
    requires |c.buf| <= h ==> FindCR(c.buf, 0) == None
    requires |c.buf| > h ==> FindCR(c.buf, 0) == Some(h) && String2ll(c.buf[1..h]) == Some(n)
    ensures |c.buf| < h + 2 ==> ProcessMultibulk(c) == (c.(closing := c.closing), false)
    ensures |c.buf| >= h + 2 ==> ProcessMultibulk(c) == AfterBulks(c, RunBulks(Bulks(c.buf, h + 2, n, -1, [])))
  {
    hide FindCR, String2ll, RunBulks, AfterBulks;
  }

  /** The pass that reads the count of a request. */
  lemma FirstStepSync(c: Client, future: seq<byte>, todo: seq<Args>)
    requires Sync(c, future, todo) && c.buf != [] && c.mlen == 0 && |c.buf| <= INLINE_MAX_SIZE
    ensures todo != [] && WithType(c).req == Multibulk && WithType(c).buf[0] == STAR
    ensures var (c', ok) := ProcessMultibulk(WithType(c)); StepResult(WithType(c), c', ok, future, todo)
  {
    CountSeen(c, future, todo);
    var n := |todo[0]|;
    var h := 1 + |Digits(n)|;
    var c1 := WithType(c);
    hide Digits, FindCR, String2ll, GoodArgs, RunBulks, AfterBulks, Expects, ProcessMultibulk;
    CountRead(c1, h, n);
    if |c.buf| >= h + 2 {
      AfterBulksSync(c1, Bulks(c.buf, h + 2, n, -1, []), future, todo);
    }
  }

  /** A request was read in full, or the client waits for the rest of it. */
  ghost predicate StepResult(c: Client, c': Client, ok: bool, future: seq<byte>, todo: seq<Args>) {
    && c'.executed == c.executed && todo != []
    && (ok ==> c'.argv == todo[0] && c'.buf + future == PrintAll(todo[1..]) && !c'.closing
               && |c'.buf| <= INLINE_MAX_SIZE)
    && (!ok ==> Sync(c', future, todo) && Waiting(c', future))
  }

  lemma NextStepSync(c: Client, future: seq<byte>, todo: seq<Args>)
    requires Sync(c, future, todo) && c.buf != [] && c.mlen > 0 && SizeOk(AtStart(c))
    ensures c.req == Multibulk && todo != []
    ensures var (c', ok) := ProcessMultibulk(c); StepResult(c, c', ok, future, todo)
  {
    AfterBulksSync(c, AtStart(c), future, todo);
    hide PrintAll, GoodArgs, RunBulks, Expects;
  }

  /** One pass of the loop of processInputBuffer: it executes the next command, or waits for the rest of it. */
  lemma InputStepSync(c: Client, future: seq<byte>, todo: seq<Args>)
    requires Sync(c, future, todo) && c.buf != [] && SizeOk(AtStart(c))
    ensures var (c', more) := InputStep(c);
            && (more ==> todo != [] && c'.executed == c.executed + [todo[0]] && Sync(c', future, todo[1..])
                         && |c'.buf| <= INLINE_MAX_SIZE)
            && (!more ==> c'.executed == c.executed && Sync(c', future, todo) && Waiting(c', future))
  {
    if c.mlen == 0 {
      FirstStepSync(c, future, todo);
    } else {
      NextStepSync(c, future, todo);
    }
    assert GoodArgs(todo[0]);
    hide PrintAll, ProcessMultibulk, Expects, ProcessInline;
  }

  // ---- Reads ----

  lemma {:induction false} ProcessInputSync(c: Client, future: seq<byte>, todo: seq<Args>) returns (left: seq<Args>)
    requires Sync(c, future, todo) && SizeOk(AtStart(c)) && (c.buf == [] ==> Waiting(c, future))
    ensures var c' := ProcessInput(c);
            && Sync(c', future, left) && Waiting(c', future)
            && c'.executed + left == c.executed + todo
    decreases |c.buf|
  {
    hide Expects, InputStep, PrintAll, GoodCommands;
    left := todo;
    if c.buf != [] {
      InputStepSync(c, future, todo);
      var (c', more) := InputStep(c);
      if more {
        assert c.executed + [todo[0]] + todo[1..] == c.executed + todo;
        left := ProcessInputSync(c', future, todo[1..]);
      }
    }
  }

  /** readQueryFromClient with the bytes that one read returned. */
  function Receive(c: Client, chunk: seq<byte>): Client
    requires Idle(c)
    ensures Idle(Receive(c, chunk))
  {
    ProcessInput(c.(buf := c.buf + chunk))
  }

  /** There is always room for the next read, so every stream can be delivered. */
  lemma WaitingMayRead(c: Client, future: seq<byte>, todo: seq<Args>)
    requires Sync(c, future, todo) && Waiting(c, future)
    ensures ReadLen(c) > 0
  {
    hide Expects, PrintAll;
  }

  lemma ReceiveSync(c: Client, chunk: seq<byte>, future: seq<byte>, todo: seq<Args>) returns (left: seq<Args>)
    requires Sync(c, chunk + future, todo) && Waiting(c, chunk + future) && 0 < |chunk| <= ReadLen(c)
    ensures var c' := Receive(c, chunk);
            && Sync(c', future, left) && Waiting(c', future)
            && c'.executed + left == c.executed + todo
  {
    var c1 := c.(buf := c.buf + chunk);
    assert c1.buf + future == c.buf + (chunk + future);
    assert (c.buf + chunk)[0..] + future == c.buf[0..] + (chunk + future);
    hide PrintAll, PrintArgs, GoodCommands;
    assert Sync(c1, future, todo);
    assert SizeOk(AtStart(c1));
    hide Expects, ProcessInput, SizeOk, Sync;
    left := ProcessInputSync(c1, future, todo);
  }

  function Concat(chunks: seq<seq<byte>>): seq<byte> {
    if chunks == [] then [] else chunks[0] + Concat(chunks[1..])
  }

  function ReceiveAll(c: Client, chunks: seq<seq<byte>>): Client
    requires Idle(c)
    decreases |chunks|
  {
    if chunks == [] then c else ReceiveAll(Receive(c, chunks[0]), chunks[1..])
  }

  /** Each chunk is one that read(2) may return: not empty, and no longer than what was asked for. */
  predicate Readable(c: Client, chunks: seq<seq<byte>>)
    requires Idle(c)
    decreases |chunks|
  {
    chunks == [] || (0 < |chunks[0]| <= ReadLen(c) && Readable(Receive(c, chunks[0]), chunks[1..]))
  }

  lemma {:induction false} ReceiveAllSync(c: Client, chunks: seq<seq<byte>>, todo: seq<Args>) returns (left: seq<Args>)
    requires Sync(c, Concat(chunks), todo) && Waiting(c, Concat(chunks)) && Readable(c, chunks)
    ensures var c' := ReceiveAll(c, chunks);
            && Sync(c', [], left) && Waiting(c', [])
            && c'.executed + left == c.executed + todo
    decreases |chunks|
  {
    SyncIdle(c, Concat(chunks), todo);
    hide Sync, Waiting, Receive, ReadLen;
    left := todo;
    if chunks != [] {
      var c' := Receive(c, chunks[0]);
      left := ReceiveSync(c, chunks[0], Concat(chunks[1..]), todo);
      left := ReceiveAllSync(c', chunks[1..], left);
    }
  }

  lemma SyncIdle(c: Client, future: seq<byte>, todo: seq<Args>)
    requires Sync(c, future, todo)
    ensures Idle(c)
  {
  }

  lemma NothingLeft(c: Client, left: seq<Args>)
    requires Sync(c, [], left) && Waiting(c, [])
    ensures left == [] && c == Connected().(executed := c.executed)
  {
    if c.mlen > 0 {
      ExpectsMore(AtStart(c), left[0], PrintAll(left[1..]));
    } else {
      PrintsSomething(left);
    }
  }

  lemma PrintsSomething(cmds: seq<Args>)
    ensures cmds != [] ==> PrintAll(cmds) != []
  {
  }

  lemma ExpectsMore(b: Bulks, cmd: Args, tail: seq<byte>)
    requires Expects(b, [], cmd, tail) && b.mlen > 0
    ensures b.buf != []
  {
    if b.blen == -1 {
      ArgsLeft(cmd, |b.argv|, tail);
    }
  }

  /**
    Whatever way the bytes printed for a list of commands are cut into reads, the parser executes exactly those
    commands, in order, and is left as it was.  The size checks of the parser never fire.
   */
  lemma ParserReadsBackPrinter(cmds: seq<Args>, chunks: seq<seq<byte>>)
    requires GoodCommands(cmds) && Concat(chunks) == PrintAll(cmds)
    requires Readable(Connected(), chunks)
    ensures ReceiveAll(Connected(), chunks) == Connected().(executed := cmds)
  {
    var c := Connected();
    assert [] + PrintAll(cmds) == PrintAll(cmds);
    assert Sync(c, Concat(chunks), cmds);
    hide Sync, GoodCommands;
    var left := ReceiveAllSync(c, chunks, cmds);
    NothingLeft(ReceiveAll(c, chunks), left);
    assert [] + cmds == cmds;
  }
}
