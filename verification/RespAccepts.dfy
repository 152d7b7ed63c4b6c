/**
  Which bytes the request parser takes for a request (redis-stable/src/networking.c:796-978), whoever wrote them.  The
  parser looks neither at the byte after the carriage return of a line nor at the two bytes after an argument.
 */
module RespAccepts {
  import opened Bytes
  import opened Decimal
  import opened RespSpec
  import RespRoundTrip

  // ---- Lines ----

  /** The bytes start with a line that holds a number, and with one more byte after its carriage return. */
  predicate NumberHead(s: seq<byte>, kind: byte, n: int) {
    var h := 1 + |Ll2String(n)|;
    h + 2 <= |s| && s[0] == kind && s[1..h] == Ll2String(n) && s[h] == CR
  }

  /** How long that line is, with both bytes that end it. */
  function NumberSize(n: int): nat {
    |Ll2String(n)| + 3
  }

  lemma {:induction false} FindCRShift(buf: seq<byte>, pos: nat, k: nat)
    requires pos + k <= |buf|
    ensures FindCR(buf, pos + k) == match FindCR(buf[pos..], k)
                                    case None => None
                                    case Some(i) => Some(pos + i)
    decreases |buf| - pos - k
  {
    if pos + k < |buf| {
      FindCRShift(buf, pos, k + 1);
    }
  }

  lemma {:induction false} FindCRPrefix(s: seq<byte>, t: seq<byte>, k: nat)
    requires k <= |s| && FindCR(s, k).Some?
    ensures FindCR(s + t, k) == FindCR(s, k)
    decreases |s| - k
  {
    if s[k] != CR {
      FindCRPrefix(s, t, k + 1);
    }
  }

  lemma PlainDigits(n: int)
    ensures forall i :: 0 <= i < |Ll2String(n)| ==> Ll2String(n)[i] != CR && Ll2String(n)[i] != 0
    ensures |Ll2String(n)| > 0
  {
    var d := Digits(if n < 0 then -n else n);
    assert |d| > 0 && forall i :: 0 <= i < |d| ==> IsDigit(d[i]);
    hide Digits;
  }

  lemma LineFound(s: seq<byte>, kind: byte, n: int)
    requires NumberHead(s, kind, n) && kind != CR && kind != 0
    ensures FindCR(s, 0) == Some(1 + |Ll2String(n)|)
  {
    var h := 1 + |Ll2String(n)|;
    PlainDigits(n);
    forall i | 0 <= i < h ensures s[i] != CR && s[i] != 0 {
      if i > 0 { assert s[i] == s[1..h][i - 1]; }
    }
    hide Ll2String;
    RespRoundTrip.FindCRSkips(s, 0, h);
  }

  /** The number of a line is what string2ll makes of it. */
  lemma LineRead(s: seq<byte>, kind: byte, n: int)
    requires s != [] && s[0] == kind && kind != CR && kind != 0 && LLONG_MIN <= n <= LLONG_MAX
    ensures NumberHead(s, kind, n) <==>
            && FindCR(s, 0).Some? && 0 < FindCR(s, 0).value <= |s| - 2
            && String2ll(s[1..FindCR(s, 0).value]) == Some(n)
    ensures NumberHead(s, kind, n) ==> FindCR(s, 0).value + 2 == NumberSize(n)
  {
    if NumberHead(s, kind, n) {
      LineFound(s, kind, n);
      String2llIsCanonical(s[1..FindCR(s, 0).value], n);
    }
    if FindCR(s, 0).Some? && 0 < FindCR(s, 0).value <= |s| - 2 {
      String2llIsCanonical(s[1..FindCR(s, 0).value], n);
    }
    hide String2ll, Ll2String, FindCR;
  }

  // ---- Arguments ----

  predicate ArgHead(s: seq<byte>, a: seq<byte>) {
    && |a| <= MAX_BULK && NumberHead(s, DOLLAR, |a|)
    && var d := NumberSize(|a|); d + |a| + 2 <= |s| && s[d..d + |a|] == a
  }

  function ArgSize(a: seq<byte>): nat {
    NumberSize(|a|) + |a| + 2
  }

  /** The bytes start with these arguments, and rest is what follows. */
  predicate ArgsHead(s: seq<byte>, args: Args, rest: seq<byte>)
    decreases |args|
  {
    if args == [] then s == rest
    else ArgHead(s, args[0]) && ArgsHead(s[ArgSize(args[0])..], args[1..], rest)
  }

  function Unread(b: Bulks): seq<byte>
    requires BulksOk(b)
  {
    b.buf[b.pos..]
  }

  /** An argument is taken off the bytes that are not read yet. */
  ghost predicate Takes(b: Bulks, a: seq<byte>, r: Bulks) {
    && BulksOk(b) && BulksOk(r) && r.mlen == b.mlen - 1 && r.blen == -1 && r.argv == b.argv + [a]
    && ArgSize(a) <= |Unread(b)| && Unread(r) == Unread(b)[ArgSize(a)..]
  }

  lemma RestOfLine(buf: seq<byte>, pos: nat, nl: nat)
    requires pos < nl <= |buf| - 2
    ensures buf[pos + 1..nl] == buf[pos..][1..nl - pos] && buf[nl + 2..] == buf[pos..][nl + 2 - pos..]
  {
  }

  /** The number on the first line, if that is there in full. */
  function LengthOn(s: seq<byte>): Option<int> {
    match FindCR(s, 0)
    case None => None
    case Some(i) => if 0 < i <= |s| - 2 && s[0] == DOLLAR then String2ll(s[1..i]) else None
  }

  /** ReadLength, as what it makes of the bytes that are not read yet. */
  lemma ReadLengthIs(b: Bulks)
    requires BulksOk(b) && b.blen == -1
    ensures var r, s := ReadLength(b), Unread(b);
            && (r.Advance? <==> LengthOn(s).Some? && 0 <= LengthOn(s).value <= MAX_BULK)
            && (r.Advance? ==> r.b.blen == LengthOn(s).value && r.b.argv == b.argv
                               && Unread(r.b) == s[FindCR(s, 0).value + 2..])
            && (r.Reject? && |b.buf| <= INLINE_MAX_SIZE ==> FindCR(s, 0).Some? && FindCR(s, 0).value <= |s| - 2)
  {
    hide String2ll, FindCR;
    FindCRShift(b.buf, b.pos, 0);
    match FindCR(b.buf, b.pos)
    case None =>
    case Some(nl) =>
      if b.pos < nl <= |b.buf| - 2 {
        RestOfLine(b.buf, b.pos, nl);
        LineParts(b.buf, b.pos, nl);
      }
  }

  lemma LineParts(buf: seq<byte>, pos: nat, nl: nat)
    requires pos < nl <= |buf| - 2
    ensures |buf[pos..]| == |buf| - pos && buf[pos..][0] == buf[pos]
  {
  }

  lemma NumberIsOn(s: seq<byte>, n: nat)
    requires n <= MAX_BULK
    ensures NumberHead(s, DOLLAR, n) <==> LengthOn(s) == Some(n)
    ensures NumberHead(s, DOLLAR, n) ==> FindCR(s, 0).Some? && FindCR(s, 0).value + 2 == NumberSize(n)
  {
    if s != [] && s[0] == DOLLAR { LineRead(s, DOLLAR, n); }
    hide String2ll, FindCR, Ll2String;
  }

  /** The length of an argument is read off a line. */
  lemma LengthRead(b: Bulks, n: nat)
    requires BulksOk(b) && b.blen == -1 && n <= MAX_BULK && NumberHead(Unread(b), DOLLAR, n)
    ensures var r := ReadLength(b);
            r.Advance? && r.b.blen == n && r.b.argv == b.argv && Unread(r.b) == Unread(b)[NumberSize(n)..]
  {
    hide *;
    ReadLengthIs(b);
    NumberIsOn(Unread(b), n);
  }

  lemma LengthWasRead(b: Bulks)
    requires BulksOk(b) && b.blen == -1 && ReadLength(b).Advance?
    ensures ReadLength(b).b.blen <= MAX_BULK && NumberHead(Unread(b), DOLLAR, ReadLength(b).b.blen)
  {
    hide *;
    ReadLengthIs(b);
    NumberIsOn(Unread(b), ReadLength(b).b.blen);
  }

  lemma ArgTaken(b: Bulks)
    requires BulksOk(b) && b.blen >= 0 && b.mlen > 0
    ensures var r, s := TakeArg(b), Unread(b);
            && (r.Advance? <==> b.blen + 2 <= |s|)
            && (r.Advance? ==> r.b.argv == b.argv + [s[..b.blen]] && Unread(r.b) == s[b.blen + 2..])
  {
    var s := Unread(b);
    if b.blen + 2 <= |s| {
      assert b.buf[b.pos..b.pos + b.blen] == s[..b.blen];
      assert b.buf[b.pos + b.blen + 2..] == s[b.blen + 2..];
    }
  }

  lemma ArgParts(s: seq<byte>, a: seq<byte>)
    ensures ArgHead(s, a) <==>
            && |a| <= MAX_BULK && NumberHead(s, DOLLAR, |a|)
            && var t := s[NumberSize(|a|)..]; |a| + 2 <= |t| && t[..|a|] == a
    ensures ArgHead(s, a) ==> s[ArgSize(a)..] == s[NumberSize(|a|)..][|a| + 2..] && ArgSize(a) <= |s|
  {
    assert NumberHead(s, DOLLAR, |a|) ==> NumberSize(|a|) <= |s|;
    hide NumberHead, NumberSize;
  }

  /** One turn of the loop takes exactly an argument off the front. */
  lemma StepTakes(b: Bulks, a: seq<byte>)
    requires BulksOk(b) && b.blen == -1 && b.mlen > 0 && ArgHead(Unread(b), a)
    ensures BulkStep(b).Advance? && Takes(b, a, BulkStep(b).b)
  {
    ArgParts(Unread(b), a);
    LengthRead(b, |a|);
    hide ReadLength, TakeArg, NumberHead, NumberSize, ArgHead;
    ArgTaken(ReadLength(b).b);
  }

  lemma StepTook(b: Bulks) returns (a: seq<byte>)
    requires BulksOk(b) && b.blen == -1 && b.mlen > 0 && BulkStep(b).Advance?
    ensures ArgHead(Unread(b), a)
  {
    var l := ReadLength(b).b;
    LengthWasRead(b);
    LengthRead(b, l.blen);
    ArgTaken(l);
    a := Unread(l)[..l.blen];
    ArgParts(Unread(b), a);
    hide ReadLength, TakeArg, NumberHead, NumberSize, ArgHead;
  }

  lemma {:induction false} LoopGrows(b: Bulks)
    requires BulksOk(b) && b.blen == -1 && RunBulks(b).Advance?
    ensures var r := RunBulks(b).b; b.argv <= r.argv && |r.argv| == |b.argv| + b.mlen
    decreases b.mlen
  {
    if b.mlen > 0 {
      hide BulkStep, ArgHead, ArgSize, NumberHead;
      var a := StepTook(b);
      StepTakes(b, a);
      LoopGrows(BulkStep(b).b);
    }
  }

  lemma Unshift(argv: Args, a: seq<byte>, args: Args, all: Args)
    requires argv + [a] <= all
    ensures all == argv + args <==> args != [] && args[0] == a && all == argv + [a] + args[1..]
  {
    if all == argv + args {
      assert all[|argv|] == a && args != [] && args[0] == a;
      assert args == [a] + args[1..];
    }
    if args != [] && args[0] == a && all == argv + [a] + args[1..] {
      assert args == [a] + args[1..];
    }
  }

  /** The loop reads exactly the arguments that stand at the front. */
  lemma {:induction false} LoopAcceptsExactly(b: Bulks, args: Args, rest: seq<byte>)
    requires BulksOk(b) && b.blen == -1
    ensures var r := RunBulks(b);
            && r.Advance? && r.b.argv == b.argv + args && Unread(r.b) == rest
            <==> |args| == b.mlen && ArgsHead(Unread(b), args, rest)
    decreases b.mlen
  {
    if b.mlen == 0 {
      assert b.argv + [] == b.argv;
      assert |b.argv + args| == |b.argv| + |args|;
    } else {
      hide BulkStep, ArgHead, ArgSize, NumberHead, Unread;
      var s := BulkStep(b);
      if s.Advance? {
        var a := StepTook(b);
        StepTakes(b, a);
        if args != [] {
          if ArgHead(Unread(b), args[0]) {
            StepTakes(b, args[0]);
            assert (b.argv + [a])[|b.argv|] == (b.argv + [args[0]])[|b.argv|];
          }
          LoopAcceptsExactly(s.b, args[1..], rest);
        }
        if RunBulks(b).Advance? {
          LoopGrows(s.b);
          Unshift(b.argv, a, args, RunBulks(b).b.argv);
        }
      } else if args != [] && ArgHead(Unread(b), args[0]) {
        StepTakes(b, args[0]);
      }
    }
  }

  // ---- Requests ----

  /** The bytes start with a request that has these arguments, and rest is what follows. */
  predicate RequestHead(s: seq<byte>, args: Args, rest: seq<byte>) {
    1 <= |args| <= MAX_ARGS && NumberHead(s, STAR, |args|) && ArgsHead(s[NumberSize(|args|)..], args, rest)
  }

  /** A client that is about to read a request. */
  predicate AtRequest(c: Client) {
    c.req == Multibulk && c.mlen == 0 && c.blen == -1 && c.argv == [] && c.buf != [] && c.buf[0] == STAR && !c.closing
  }

  lemma CountIs(c: Client, n: nat)
    requires AtRequest(c) && 1 <= n <= MAX_ARGS && NumberHead(c.buf, STAR, n)
    ensures NumberSize(n) <= |c.buf|
    ensures ProcessMultibulk(c) == AfterBulks(c, RunBulks(Bulks(c.buf, NumberSize(n), n, -1, [])))
  {
    LineRead(c.buf, STAR, n);
    hide FindCR, String2ll, RunBulks, NumberHead, NumberSize;
  }

  lemma CountWas(c: Client) returns (n: nat)
    requires AtRequest(c) && ProcessMultibulk(c).1 && ProcessMultibulk(c).0.argv != []
    ensures 1 <= n <= MAX_ARGS && NumberHead(c.buf, STAR, n)
  {
    var nl := FindCR(c.buf, 0).value;
    n := String2ll(c.buf[1..nl]).value;
    LineRead(c.buf, STAR, n);
    hide FindCR, String2ll, RunBulks, NumberHead, NumberSize;
  }

  /**
    A multi-bulk request is accepted if and only if it stands at the front of the buffer: the count and each length in
    its one canonical form, each argument of just that length, and within the limits.
   */
  lemma MultibulkAcceptsExactly(c: Client, args: Args, rest: seq<byte>)
    requires AtRequest(c) && args != []
    ensures var (c', ok) := ProcessMultibulk(c);
            ok && c'.argv == args && c'.buf == rest <==> RequestHead(c.buf, args, rest)
  {
    hide ArgsHead, NumberHead, NumberSize, RunBulks, ProcessMultibulk;
    if RequestHead(c.buf, args, rest) {
      CountIs(c, |args|);
      Accepts(c, |args|, args, rest);
    }
    var (c', ok) := ProcessMultibulk(c);
    if ok && c'.argv == args && c'.buf == rest {
      var n := CountWas(c);
      CountIs(c, n);
      Accepts(c, n, args, rest);
    }
  }

  lemma Accepts(c: Client, n: nat, args: Args, rest: seq<byte>)
    requires NumberSize(n) <= |c.buf|
    ensures var (c', ok) := AfterBulks(c, RunBulks(Bulks(c.buf, NumberSize(n), n, -1, [])));
            ok && c'.argv == args && c'.buf == rest <==>
            |args| == n && ArgsHead(c.buf[NumberSize(n)..], args, rest)
  {
    LoopAcceptsExactly(Bulks(c.buf, NumberSize(n), n, -1, []), args, rest);
    assert [] + args == args;
    hide ArgsHead, NumberSize, RunBulks;
  }

  /** A count of zero or less is an empty request, which is dropped. */
  lemma EmptyRequest(c: Client, n: int)
    requires AtRequest(c) && LLONG_MIN <= n <= 0 && NumberHead(c.buf, STAR, n)
    ensures NumberSize(n) <= |c.buf| && ProcessMultibulk(c) == (c.(buf := c.buf[NumberSize(n)..]), true)
  {
    LineRead(c.buf, STAR, n);
    hide FindCR, String2ll, RunBulks, NumberHead, NumberSize;
  }

  // ---- What is rejected ----

  lemma NumberPrefix(s: seq<byte>, t: seq<byte>, kind: byte, n: int)
    requires NumberHead(s, kind, n)
    ensures NumberHead(s + t, kind, n)
  {
    var h := 1 + |Ll2String(n)|;
    assert (s + t)[1..h] == s[1..h];
    hide Ll2String;
  }

  lemma ArgPrefix(s: seq<byte>, t: seq<byte>, a: seq<byte>)
    requires ArgHead(s, a)
    ensures ArgHead(s + t, a) && ArgSize(a) <= |s| && (s + t)[ArgSize(a)..] == s[ArgSize(a)..] + t
  {
    NumberPrefix(s, t, DOLLAR, |a|);
    var d := NumberSize(|a|);
    assert (s + t)[d..d + |a|] == s[d..d + |a|];
    hide NumberHead, NumberSize;
  }

  lemma OneNumber(s: seq<byte>, kind: byte, n: int, n': int)
    requires NumberHead(s, kind, n) && NumberHead(s, kind, n') && kind != CR && kind != 0
    requires LLONG_MIN <= n <= LLONG_MAX && LLONG_MIN <= n' <= LLONG_MAX
    ensures n == n'
  {
    LineRead(s, kind, n);
    LineRead(s, kind, n');
    hide FindCR, String2ll, NumberHead;
  }

  lemma OneArg(s: seq<byte>, a: seq<byte>, a': seq<byte>)
    requires ArgHead(s, a) && ArgHead(s, a')
    ensures a == a'
  {
    OneNumber(s, DOLLAR, |a|, |a'|);
    hide NumberHead, NumberSize;
  }

  /** A line that is rejected is not a number within the limits, whatever follows. */
  lemma BadLine(s: seq<byte>, t: seq<byte>, kind: byte, n: int, nl: nat)
    requires FindCR(s, 0) == Some(nl) && nl <= |s| - 2 && kind != CR && kind != 0
    requires LLONG_MIN <= n <= LLONG_MAX && NumberHead(s + t, kind, n)
    ensures s[0] == kind && 0 < nl && String2ll(s[1..nl]) == Some(n)
  {
    FindCRPrefix(s, t, 0);
    LineRead(s + t, kind, n);
    assert (s + t)[1..nl] == s[1..nl];
    assert (s + t)[0] == s[0];
    hide FindCR, String2ll;
  }

  lemma RejectsLength(b: Bulks)
    requires BulksOk(b) && b.blen == -1 && b.mlen > 0 && BulkStep(b).Reject?
    ensures ReadLength(b).Reject?
  {
    hide ReadLength, TakeArg;
  }

  lemma StepRejects(b: Bulks, t: seq<byte>, a: seq<byte>)
    requires BulksOk(b) && b.blen == -1 && b.mlen > 0 && |b.buf| <= INLINE_MAX_SIZE && BulkStep(b).Reject?
    ensures !ArgHead(Unread(b) + t, a)
  {
    RejectsLength(b);
    ReadLengthIs(b);
    var s := Unread(b);
    if ArgHead(s + t, a) {
      BadLine(s, t, DOLLAR, |a|, FindCR(s, 0).value);
    }
    hide FindCR, String2ll, NumberHead, NumberSize, ReadLength, BulkStep;
  }

  lemma StepShrinks(b: Bulks)
    requires BulksOk(b) && b.mlen > 0
    ensures |BulkStep(b).b.buf| <= |b.buf|
  {
    hide FindCR, String2ll;
  }

  lemma {:induction false} LoopRejects(b: Bulks, t: seq<byte>, args: Args, rest: seq<byte>)
    requires BulksOk(b) && b.blen == -1 && |b.buf| <= INLINE_MAX_SIZE && RunBulks(b).Reject? && |args| == b.mlen
    ensures !ArgsHead(Unread(b) + t, args, rest)
    decreases b.mlen
  {
    hide BulkStep, ArgHead, ArgSize, NumberHead, Unread;
    var s := BulkStep(b);
    if s.Reject? {
      StepRejects(b, t, args[0]);
    } else {
      var a := StepTook(b);
      StepTakes(b, a);
      StepShrinks(b);
      ArgPrefix(Unread(b), t, a);
      LoopRejects(s.b, t, args[1..], rest);
      if ArgHead(Unread(b) + t, args[0]) {
        OneArg(Unread(b) + t, a, args[0]);
      }
    }
  }

  lemma CountRejects(c: Client, t: seq<byte>, n: nat)
    requires AtRequest(c) && |c.buf| <= INLINE_MAX_SIZE && ProcessMultibulk(c).0.closing && 1 <= n <= MAX_ARGS
    requires NumberHead(c.buf + t, STAR, n)
    ensures NumberHead(c.buf, STAR, n)
  {
    var nl := FindCR(c.buf, 0).value;
    BadLine(c.buf, t, STAR, n, nl);
    LineRead(c.buf, STAR, n);
    hide FindCR, String2ll, NumberHead, RunBulks;
  }

  /** Only what no further bytes could make a request is rejected, as long as the buffer is not too long for a line. */
  lemma MalformedIsRejected(c: Client, t: seq<byte>, args: Args, rest: seq<byte>)
    requires AtRequest(c) && |c.buf| <= INLINE_MAX_SIZE && ProcessMultibulk(c).0.closing && args != []
    ensures !RequestHead(c.buf + t, args, rest)
  {
    hide ArgsHead, NumberHead, NumberSize, RunBulks, ProcessMultibulk;
    if RequestHead(c.buf + t, args, rest) {
      CountRejects(c, t, |args|);
      ArgumentsReject(c, t, args, rest);
    }
  }

  lemma ArgumentsReject(c: Client, t: seq<byte>, args: Args, rest: seq<byte>)
    requires AtRequest(c) && |c.buf| <= INLINE_MAX_SIZE && ProcessMultibulk(c).0.closing
    requires 1 <= |args| <= MAX_ARGS && NumberHead(c.buf, STAR, |args|)
    ensures NumberSize(|args|) <= |c.buf| && !ArgsHead((c.buf + t)[NumberSize(|args|)..], args, rest)
  {
    var n := |args|;
    CountIs(c, n);
    hide ArgsHead, NumberHead, NumberSize, RunBulks, ProcessMultibulk;
    assert (c.buf + t)[NumberSize(n)..] == c.buf[NumberSize(n)..] + t;
    LoopRejects(Bulks(c.buf, NumberSize(n), n, -1, []), t, args, rest);
  }

  // ---- Inline requests ----

  /** The first line ends at n. */
  predicate LineEnds(s: seq<byte>, n: nat) {
    && n + 2 <= |s| && s[n] == CR && s[n + 1] == LF
    && forall i :: 0 <= i < n ==> s[i] != 0 && !(s[i] == CR && s[i + 1] == LF)
  }

  lemma {:induction false} FindsLineEnd(s: seq<byte>, pos: nat, n: nat)
    requires pos <= n && forall i :: 0 <= i < pos && i + 1 < |s| ==> s[i] != 0 && !(s[i] == CR && s[i + 1] == LF)
    ensures FindCRLF(s, pos) == Some(n) <==> LineEnds(s, n)
    decreases n - pos
  {
    if pos < n && pos + 1 < |s| && s[pos] != 0 && !(s[pos] == CR && s[pos + 1] == LF) {
      FindsLineEnd(s, pos + 1, n);
    }
  }

  /** A line of words, each after any number of spaces. */
  predicate Spaced(line: seq<byte>, args: Args)
    decreases |line|
  {
    if line == [] then args == []
    else if line[0] == SPACE then Spaced(line[1..], args)
    else
      && args != []
      && var n := |args[0]|;
         && 0 < n <= |line| && line[..n] == args[0] && SPACE !in args[0] && (n == |line| || line[n] == SPACE)
         && Spaced(line[n..], args[1..])
  }

  lemma {:induction false} WordGrows(line: seq<byte>, word: seq<byte>, n: nat)
    requires n <= |line| && SPACE !in line[..n]
    ensures Words(line, word) == Words(line[n..], word + line[..n])
    decreases n
  {
    if n == 0 {
      assert word + [] == word;
    } else {
      assert line[0] in line[..n] && line[1..][..n - 1] == line[1..n] && forall x :: x in line[1..n] ==> x in line[..n];
      WordGrows(line[1..], word + [line[0]], n - 1);
      assert line[1..][n - 1..] == line[n..];
      assert word + [line[0]] + line[1..n] == word + line[..n];
    }
  }

  /** How far the first word goes. */
  function WordLength(line: seq<byte>): (n: nat)
    ensures n <= |line| && SPACE !in line[..n] && (n == |line| || line[n] == SPACE)
  {
    if line == [] || line[0] == SPACE then 0
    else
      var m := WordLength(line[1..]);
      assert line[..m + 1] == [line[0]] + line[1..][..m];
      m + 1
  }

  lemma OneWord(line: seq<byte>, n: nat, m: nat)
    requires n <= |line| && m <= |line| && SPACE !in line[..n] && SPACE !in line[..m]
    requires (n == |line| || line[n] == SPACE) && (m == |line| || line[m] == SPACE)
    ensures n == m
  {
    assert forall i :: 0 <= i < n ==> line[..n][i] == line[i];
    assert forall i :: 0 <= i < m ==> line[..m][i] == line[i];
  }

  lemma HeadTail(a: seq<byte>, rest: Args, args: Args)
    requires args != []
    ensures [a] + rest == args <==> args[0] == a && args[1..] == rest
  {
    assert args == [args[0]] + args[1..];
  }

  /** An inline request is its line, taken apart at the spaces; a word ends at a space or at the end. */
  lemma {:induction false} WordsAreSpaced(line: seq<byte>, args: Args)
    ensures Words(line, []) == args <==> Spaced(line, args)
    decreases |line|
  {
    if line != [] {
      if line[0] == SPACE {
        WordsAreSpaced(line[1..], args);
        assert [] + Words(line[1..], []) == Words(line[1..], []);
      } else {
        var n := WordLength(line);
        FirstWord(line, n);
        if args != [] {
          WordsAreSpaced(line[n..], args[1..]);
          if Spaced(line, args) { OneWord(line, n, |args[0]|); }
          HeadTail(line[..n], Words(line[n..], []), args);
        }
      }
    }
  }

  lemma FirstWord(line: seq<byte>, n: nat)
    requires line != [] && line[0] != SPACE && n == WordLength(line)
    ensures 0 < n && Words(line, []) == [line[..n]] + Words(line[n..], [])
  {
    WordGrows(line, [], n);
    assert [] + line[..n] == line[..n];
    var tail := line[n..];
    if tail == [] {
      assert Words(tail, []) == [] && [line[..n]] + [] == [line[..n]];
    } else {
      assert [] + Words(tail[1..], []) == Words(tail[1..], []);
      assert Words(tail, []) == Words(tail[1..], []);
    }
  }

  /** An inline request is accepted if and only if a line has arrived in full, and is taken apart at its spaces. */
  lemma InlineAcceptsExactly(c: Client, args: Args, rest: seq<byte>)
    ensures var (c', ok) := ProcessInline(c);
            ok && c'.argv == args && c'.buf == rest <==>
            exists n: nat :: LineEnds(c.buf, n) && rest == c.buf[n + 2..] && Spaced(c.buf[..n], args)
    ensures var (c', ok) := ProcessInline(c);
            !c.closing ==> (c'.closing <==> |c.buf| > INLINE_MAX_SIZE && forall n: nat :: !LineEnds(c.buf, n))
  {
    hide Words, Spaced, FindCRLF, LineEnds;
    forall n: nat ensures FindCRLF(c.buf, 0) == Some(n) <==> LineEnds(c.buf, n) {
      FindsLineEnd(c.buf, 0, n);
    }
    if FindCRLF(c.buf, 0).Some? {
      var n := FindCRLF(c.buf, 0).value;
      WordsAreSpaced(c.buf[..n], args);
      assert LineEnds(c.buf, n);
    }
  }
}
