/**
  The command printer of redis-stable/src/aof.c:322-345 and the request parser of redis-stable/src/networking.c:787-1017
  as functions.  The client structure that is updated in place is in Resp.dfy.
 */
module RespSpec {
  import opened Bytes
  import opened Decimal

  type Args = seq<seq<byte>>

  const CR: byte := 13
  const LF: byte := 10
  const STAR: byte := 42
  const DOLLAR: byte := 36
  const SPACE: byte := 32
  const CRLF: seq<byte> := [13, 10]

  const INLINE_MAX_SIZE := 65536
  const MBULK_BIG_ARG := 32768
  const IOBUF_LEN := 16384
  const MAX_ARGS := 1048576
  const MAX_BULK := 536870912

  // ---- Printing ----

  function Header(kind: byte, n: nat): seq<byte> {
    [kind] + Digits(n) + CRLF
  }

  function PrintArg(a: seq<byte>): seq<byte> {
    Header(DOLLAR, |a|) + (a + CRLF)
  }

  function PrintArgs(args: Args): seq<byte> {
    if args == [] then [] else PrintArg(args[0]) + PrintArgs(args[1..])
  }

  /** catAppendOnlyGenericCommand. */
  function PrintCommand(args: Args): seq<byte> {
    Header(STAR, |args|) + PrintArgs(args)
  }

  function PrintAll(cmds: seq<Args>): seq<byte> {
    if cmds == [] then [] else PrintCommand(cmds[0]) + PrintAll(cmds[1..])
  }

  // ---- Client state ----

  datatype Request = Unknown | Inline | Multibulk

  datatype Client = Client(buf: seq<byte>, req: Request, mlen: nat, blen: int, argv: Args, closing: bool,
                           executed: seq<Args>)

  function Connected(): Client {
    Client([], Unknown, 0, -1, [], false, [])
  }

  function Reset(c: Client): Client {
    c.(argv := [], req := Unknown, mlen := 0, blen := -1)
  }

  /** strchr(s + pos, '\\r') on a string that ends at its first NUL. */
  function FindCR(s: seq<byte>, pos: nat): (r: Option<nat>)
    ensures r.Some? ==> pos <= r.value < |s| && s[r.value] == CR
    decreases |s| - pos
  {
    if pos >= |s| then None
    else if s[pos] == CR then Some(pos)
    else if s[pos] == 0 then None
    else FindCR(s, pos + 1)
  }

  /** strstr(s + pos, "\\r\\n"). */
  function FindCRLF(s: seq<byte>, pos: nat): (r: Option<nat>)
    ensures r.Some? ==> pos <= r.value && r.value + 2 <= |s|
    decreases |s| - pos
  {
    if pos + 1 >= |s| then None
    else if s[pos] == CR && s[pos + 1] == LF then Some(pos)
    else if s[pos] == 0 then None
    else FindCRLF(s, pos + 1)
  }

  // ---- Multi-bulk requests (lines 848-978) ----

  /** The state of the argument loop; pos is the position in the query buffer. */
  datatype Bulks = Bulks(buf: seq<byte>, pos: nat, mlen: nat, blen: int, argv: Args)

  predicate BulksOk(b: Bulks) {
    b.pos <= |b.buf| && b.blen >= -1
  }

  datatype Step = Advance(b: Bulks) | Pause(b: Bulks) | Reject(b: Bulks)

  /** Lines 897-939: reads the length of the next argument if it is not known yet. */
  function ReadLength(b: Bulks): (r: Step)
    requires BulksOk(b)
    ensures BulksOk(r.b) && r.b.mlen == b.mlen && |r.b.buf| - r.b.pos <= |b.buf| - b.pos
    ensures r.Advance? ==> r.b.blen >= 0
  {
    if b.blen != -1 then Advance(b)
    else
      match FindCR(b.buf, b.pos)
      case None => if |b.buf| > INLINE_MAX_SIZE then Reject(b) else Pause(b)
      case Some(nl) =>
        if nl > |b.buf| - 2 then Pause(b)
        else if b.buf[b.pos] != DOLLAR then Reject(b)
        else
          var ll := String2ll(b.buf[b.pos + 1..nl]);
          if ll.None? || ll.value < 0 || ll.value > MAX_BULK then Reject(b)
          else if ll.value >= MBULK_BIG_ARG then Advance(b.(buf := b.buf[nl + 2..], pos := 0, blen := ll.value))
          else Advance(b.(pos := nl + 2, blen := ll.value))
  }

  /** Lines 941-967: takes the argument once all of it is there. */
  function TakeArg(b: Bulks): (r: Step)
    requires BulksOk(b) && b.blen >= 0 && b.mlen > 0
    ensures BulksOk(r.b) && |r.b.buf| - r.b.pos <= |b.buf| - b.pos
    ensures !r.Reject?
    ensures r.Advance? ==> r.b.mlen == b.mlen - 1 && |r.b.buf| - r.b.pos < |b.buf| - b.pos && r.b.blen == -1
  {
    if |b.buf| - b.pos < b.blen + 2 then Pause(b)
    else if b.pos == 0 && b.blen >= MBULK_BIG_ARG && |b.buf| == b.blen + 2 then
      Advance(Bulks([], 0, b.mlen - 1, -1, b.argv + [b.buf[..b.blen]]))
    else
      Advance(b.(pos := b.pos + b.blen + 2, mlen := b.mlen - 1, blen := -1,
                 argv := b.argv + [b.buf[b.pos..b.pos + b.blen]]))
  }

  /** One iteration of the loop at line 895. */
  function BulkStep(b: Bulks): (r: Step)
    requires BulksOk(b) && b.mlen > 0
    ensures BulksOk(r.b) && |r.b.buf| - r.b.pos <= |b.buf| - b.pos
    ensures r.Advance? ==> r.b.mlen == b.mlen - 1 && |r.b.buf| - r.b.pos < |b.buf| - b.pos
  {
    var l := ReadLength(b);
    if l.Advance? then TakeArg(l.b) else l
  }

  /** The loop: until all arguments are read, data is missing, or the request is malformed. */
  function RunBulks(b: Bulks): (r: Step)
    requires BulksOk(b)
    ensures BulksOk(r.b) && |r.b.buf| - r.b.pos <= |b.buf| - b.pos
    ensures !r.Advance? ==> r.b.mlen > 0
    ensures b.mlen > 0 && r.Advance? ==> |r.b.buf| - r.b.pos < |b.buf| - b.pos
    decreases b.mlen
  {
    if b.mlen == 0 then Advance(b)
    else
      var s := BulkStep(b);
      if s.Advance? then RunBulks(s.b) else s
  }

  /** The state after line 971, and whether a whole request was read. */
  function AfterBulks(c: Client, s: Step): (Client, bool)
    requires BulksOk(s.b)
  {
    var b := s.b;
    (c.(buf := b.buf[b.pos..], mlen := b.mlen, blen := b.blen, argv := b.argv, closing := c.closing || s.Reject?),
     s.Advance?)
  }

  /** processMultibulkBuffer. */
  function ProcessMultibulk(c: Client): (r: (Client, bool))
    requires c.blen >= -1 && c.buf != [] && (c.mlen == 0 ==> c.buf[0] == STAR)
    ensures r.0.blen >= -1 && r.0.req == c.req && (r.1 ==> |r.0.buf| < |c.buf|)
    ensures !r.1 && r.0.mlen == 0 ==> r.0.buf == c.buf && c.mlen == 0
  {
    if c.mlen == 0 then
      match FindCR(c.buf, 0)
      case None => (c.(closing := c.closing || |c.buf| > INLINE_MAX_SIZE), false)
      case Some(nl) =>
        if nl > |c.buf| - 2 then (c, false)
        else
          var ll := String2ll(c.buf[1..nl]);
          if ll.None? || ll.value > MAX_ARGS then (c.(closing := true), false)
          else if ll.value <= 0 then (c.(buf := c.buf[nl + 2..]), true)
          else AfterBulks(c, RunBulks(Bulks(c.buf, nl + 2, ll.value, c.blen, [])))
    else AfterBulks(c, RunBulks(Bulks(c.buf, 0, c.mlen, c.blen, c.argv)))
  }

  // ---- Inline requests (lines 796-833) ----

  /** The parts of a line between single spaces, without the empty ones; word is the part being read. */
  function Words(line: seq<byte>, word: seq<byte>): Args
    decreases |line|
  {
    if line == [] then (if word == [] then [] else [word])
    else if line[0] == SPACE then (if word == [] then [] else [word]) + Words(line[1..], [])
    else Words(line[1..], word + [line[0]])
  }

  /** processInlineBuffer. */
  function ProcessInline(c: Client): (r: (Client, bool))
    ensures r.0.blen == c.blen && (r.1 ==> |r.0.buf| < |c.buf|)
  {
    match FindCRLF(c.buf, 0)
    case None => (c.(closing := c.closing || |c.buf| > INLINE_MAX_SIZE), false)
    case Some(nl) => (c.(buf := c.buf[nl + 2..], argv := Words(c.buf[..nl], [])), true)
  }

  // ---- processInputBuffer and reading ----

  /** What holds of a client between two reads. */
  predicate Idle(c: Client) {
    && c.blen >= -1
    && (c.mlen > 0 ==> c.req == Multibulk)
    && (c.req == Multibulk && c.mlen == 0 ==> c.buf != [] && c.buf[0] == STAR)
  }

  /** The type of the request at the front of the buffer. */
  function WithType(c: Client): Client
    requires c.buf != []
  {
    if c.req != Unknown then c else c.(req := if c.buf[0] == STAR then Multibulk else Inline)
  }

  /** The command is executed and the client made ready for the next one; an empty one is dropped. */
  function Execute(c: Client): Client {
    Reset(if c.argv == [] then c else c.(executed := c.executed + [c.argv]))
  }

  /** One iteration of the loop at line 982; true when it goes on. */
  function InputStep(c: Client): (r: (Client, bool))
    requires Idle(c) && c.buf != [] && !c.closing
    ensures Idle(r.0)
    ensures r.1 ==> |r.0.buf| < |c.buf| && r.0.mlen == 0
  {
    var c1 := WithType(c);
    var (c2, ok) := if c1.req == Inline then ProcessInline(c1) else ProcessMultibulk(c1);
    if ok then (Execute(c2), true) else (c2, false)
  }

  /** processInputBuffer. */
  function ProcessInput(c: Client): (r: Client)
    requires Idle(c)
    ensures Idle(r)
    decreases |c.buf|
  {
    if c.buf == [] || c.closing then c
    else
      var (c1, more) := InputStep(c);
      if more then ProcessInput(c1) else c1
  }

  /** How many bytes readQueryFromClient asks for (lines 1027-1040). */
  function ReadLen(c: Client): int {
    if c.req == Multibulk && c.mlen != 0 && c.blen != -1 && c.blen >= MBULK_BIG_ARG then
      var remaining := c.blen + 2 - |c.buf|;
      if remaining < IOBUF_LEN then remaining else IOBUF_LEN
    else IOBUF_LEN
  }
}
