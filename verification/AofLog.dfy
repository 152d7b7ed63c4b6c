/** The append only file as a log of commands, and how it is loaded (redis-stable/src/aof.c:501-557). */
module AofLog {
  import opened Bytes
  import opened Decimal
  import opened RespSpec
  import RespRoundTrip

  // ---- Loading ----

  const LINE_MAX := 127

  /** fgets with a buffer of 128 bytes. */
  function Fgets(s: seq<byte>): (n: nat)
    requires s != []
    ensures 0 < n <= |s|
  {
    LineLength(s, 0)
  }

  function LineLength(s: seq<byte>, i: nat): (n: nat)
    requires i < |s| && i < LINE_MAX
    ensures i < n <= |s|
    decreases |s| - i
  {
    if s[i] == LF || i + 1 == |s| || i + 1 == LINE_MAX then i + 1 else LineLength(s, i + 1)
  }

  /** A line that starts with kind and a number: the number, and the length of the line. */
  function ReadNumber(s: seq<byte>, kind: byte): (r: Option<(int, nat)>)
    ensures r.Some? ==> 0 < r.value.1 <= |s|
  {
    if s == [] then None
    else
      var n := Fgets(s);
      if s[0] != kind then None else Some((Strtoll(s[1..n]).0, n))
  }

  /** count arguments, each a length line, that many bytes and two more; then the rest of the file. */
  function ReadArgs(s: seq<byte>, count: nat): (r: Option<(Args, seq<byte>)>)
    ensures r.Some? ==> |r.value.1| <= |s|
    decreases count
  {
    if count == 0 then Some(([], s))
    else
      match ReadNumber(s, DOLLAR)
      case None => None
      case Some((len, n)) =>
        if len < 0 || n + len + 2 > |s| then None
        else
          match ReadArgs(s[n + len + 2..], count - 1)
          case None => None
          case Some((args, rest)) => Some(([s[n..n + len]] + args, rest))
  }

  /** loadAppendOnlyFile: the commands it executes, or none when it exits on an error. */
  function Load(s: seq<byte>): Option<seq<Args>>
    decreases |s|
  {
    if s == [] then Some([])
    else
      match ReadNumber(s, STAR)
      case None => None
      case Some((argc, n)) =>
        if argc < 1 then None
        else
          match ReadArgs(s[n..], argc)
          case None => None
          case Some((args, rest)) =>
            match Load(rest)
            case None => None
            case Some(cmds) => Some([args] + cmds)
  }

  lemma {:induction false} LineLengthIs(s: seq<byte>, i: nat, h: nat)
    requires i <= h < |s| && h < LINE_MAX && s[h] == LF && forall k :: i <= k < h ==> s[k] != LF
    ensures LineLength(s, i) == h + 1
    decreases h - i
  {
    if i < h {
      LineLengthIs(s, i + 1, h);
    }
  }

  lemma ReadsHeader(kind: byte, n: nat, tail: seq<byte>)
    requires kind == STAR || kind == DOLLAR
    requires n <= MAX_BULK
    ensures ReadNumber(Header(kind, n) + tail, kind) == Some((n, |Header(kind, n)|))
    ensures (Header(kind, n) + tail)[|Header(kind, n)|..] == tail
  {
    var s := Header(kind, n) + tail;
    var h := 1 + |Digits(n)|;
    RespRoundTrip.HeaderBytes(kind, n, tail);
    RespRoundTrip.DigitsShort(n);
    assert forall k :: 0 <= k < h ==> s[k] != LF by {
      forall k | 0 <= k < h ensures s[k] != LF {
        if k > 0 {
          assert s[k] == s[1..h][k - 1];
          assert IsDigit(Digits(n)[k - 1]);
        }
      }
    }
    LineLengthIs(s, 0, h + 1);
    assert s[1..h + 2] == Ll2String(n) + CRLF;
    StrtollReadsBack(n, CRLF);
  }

  lemma TakeFrom(s: seq<byte>, n: nat, a: seq<byte>, rest: seq<byte>)
    requires n <= |s| && s[n..] == a + CRLF + rest
    ensures n + |a| + 2 <= |s| && s[n..n + |a|] == a && s[n + |a| + 2..] == rest
  {
    assert s[n..][..|a|] == a && s[n..][|a| + 2..] == rest;
  }

  lemma ReadArgsStep(s: seq<byte>, count: nat, n: nat, a: seq<byte>, args: Args, rest: seq<byte>, tail: seq<byte>)
    requires count > 0 && ReadNumber(s, DOLLAR) == Some((|a|, n)) && n <= |s| && s[n..] == a + CRLF + rest
    requires ReadArgs(rest, count - 1) == Some((args, tail))
    ensures ReadArgs(s, count) == Some(([a] + args, tail))
  {
    hide ReadNumber;
    TakeFrom(s, n, a, rest);
  }

  lemma LoadStep(s: seq<byte>, argc: nat, n: nat, cmd: Args, rest: seq<byte>, cmds: seq<Args>)
    requires s != [] && argc > 0 && ReadNumber(s, STAR) == Some((argc, n)) && n <= |s|
    requires ReadArgs(s[n..], argc) == Some((cmd, rest)) && Load(rest) == Some(cmds)
    ensures Load(s) == Some([cmd] + cmds)
  {
    hide ReadNumber, ReadArgs;
  }

  lemma FirstArg(args: Args, tail: seq<byte>)
    requires args != []
    ensures PrintArgs(args) + tail == Header(DOLLAR, |args[0]|) + (args[0] + CRLF + (PrintArgs(args[1..]) + tail))
  {
    RespRoundTrip.ArgsLeft(args, 0, tail);
    assert args[0..] == args;
  }

  lemma ReadsNoArgs(tail: seq<byte>)
    ensures ReadArgs(PrintArgs([]) + tail, 0) == Some(([], tail))
  {
    assert PrintArgs([]) + tail == tail;
  }

  lemma ReadsOneArg(a: seq<byte>, args: Args, n: nat, tail: seq<byte>)
    requires |a| <= MAX_BULK && ReadArgs(PrintArgs(args) + tail, n) == Some((args, tail))
    ensures ReadArgs(PrintArgs([a] + args) + tail, n + 1) == Some(([a] + args, tail))
  {
    var rest := PrintArgs(args) + tail;
    FirstArg([a] + args, tail);
    assert ([a] + args)[0] == a && ([a] + args)[1..] == args;
    hide *;
    ReadsHeader(DOLLAR, |a|, a + CRLF + rest);
    ReadArgsStep(Header(DOLLAR, |a|) + (a + CRLF + rest), n + 1, |Header(DOLLAR, |a|)|, a, args, rest, tail);
  }

  lemma {:induction false} ReadsArgs(args: Args, tail: seq<byte>)
    requires forall i :: 0 <= i < |args| ==> |args[i]| <= MAX_BULK
    ensures ReadArgs(PrintArgs(args) + tail, |args|) == Some((args, tail))
    decreases |args|
  {
    hide *;
    if args == [] {
      ReadsNoArgs(tail);
    } else {
      ReadsArgs(args[1..], tail);
      ReadsOneArg(args[0], args[1..], |args| - 1, tail);
      assert args == [args[0]] + args[1..];
    }
  }

  lemma GoodHead(cmds: seq<Args>)
    requires RespRoundTrip.GoodCommands(cmds) && cmds != []
    ensures RespRoundTrip.GoodCommands(cmds[1..]) && 0 < |cmds[0]| <= MAX_BULK
    ensures forall i :: 0 <= i < |cmds[0]| ==> |cmds[0][i]| <= MAX_BULK
    ensures PrintAll(cmds) != []
  {
    assert RespRoundTrip.GoodArgs(cmds[0]);
  }

  lemma LoadOne(cmds: seq<Args>)
    requires RespRoundTrip.GoodCommands(cmds) && cmds != [] && Load(PrintAll(cmds[1..])) == Some(cmds[1..])
    ensures Load(PrintAll(cmds)) == Some([cmds[0]] + cmds[1..])
  {
    var cmd, rest := cmds[0], PrintAll(cmds[1..]);
    RespRoundTrip.CommandSplits(cmds);
    GoodHead(cmds);
    hide *;
    ReadsHeader(STAR, |cmd|, PrintArgs(cmd) + rest);
    ReadsArgs(cmd, rest);
    LoadStep(PrintAll(cmds), |cmd|, |Header(STAR, |cmd|)|, cmd, rest, cmds[1..]);
  }

  /** Loading a printed log gives back its commands. */
  lemma {:induction false} LoadReadsBackPrinter(cmds: seq<Args>)
    requires RespRoundTrip.GoodCommands(cmds)
    ensures Load(PrintAll(cmds)) == Some(cmds)
    decreases |cmds|
  {
    if cmds == [] {
      assert PrintAll([]) == [];
    } else {
      GoodHead(cmds);
      hide *;
      LoadReadsBackPrinter(cmds[1..]);
      LoadOne(cmds);
      assert cmds == [cmds[0]] + cmds[1..];
    }
  }

  // ---- Logs that are cut off ----

  lemma {:induction false} LineOn(s: seq<byte>, t: seq<byte>, i: nat)
    requires i < |s| && i < LINE_MAX && LineLength(s, i) < |s|
    ensures LineLength(s + t, i) == LineLength(s, i)
    decreases |s| - i
  {
    if !(s[i] == LF || i + 1 == |s| || i + 1 == LINE_MAX) {
      LineOn(s, t, i + 1);
    }
  }

  /** What follows a line does not matter, unless the line is all there is. */
  lemma NumberOn(s: seq<byte>, t: seq<byte>, kind: byte)
    requires ReadNumber(s, kind).Some? && ReadNumber(s, kind).value.1 < |s|
    ensures ReadNumber(s + t, kind) == ReadNumber(s, kind)
  {
    LineOn(s, t, 0);
    var n := Fgets(s);
    assert (s + t)[1..n] == s[1..n];
    hide Strtoll, LineLength;
  }

  lemma {:induction false} ArgsOn(s: seq<byte>, t: seq<byte>, count: nat)
    requires ReadArgs(s, count).Some?
    ensures var (args, rest) := ReadArgs(s, count).value; ReadArgs(s + t, count) == Some((args, rest + t))
    decreases count
  {
    hide *;
    if count == 0 {
      NoArgs(s);
      NoArgs(s + t);
    } else {
      ArgsParts(s, count);
      ArgsParts(s + t, count);
      NumberOn(s, t, DOLLAR);
      var (len, n) := ReadNumber(s, DOLLAR).value;
      assert (s + t)[n + len + 2..] == s[n + len + 2..] + t && (s + t)[n..n + len] == s[n..n + len];
      ArgsOn(s[n + len + 2..], t, count - 1);
    }
  }

  lemma NoArgs(s: seq<byte>)
    ensures ReadArgs(s, 0) == Some(([], s))
  {
  }

  lemma ArgsParts(s: seq<byte>, count: nat)
    requires count > 0
    ensures ReadArgs(s, count).Some? ==>
              && ReadNumber(s, DOLLAR).Some?
              && var (len, n) := ReadNumber(s, DOLLAR).value;
                 0 <= len && n + len + 2 <= |s| && ReadArgs(s[n + len + 2..], count - 1).Some?
    ensures ReadNumber(s, DOLLAR).Some? ==>
              var (len, n) := ReadNumber(s, DOLLAR).value;
              0 <= len && n + len + 2 <= |s| && ReadArgs(s[n + len + 2..], count - 1).Some? ==>
                var (args, rest) := ReadArgs(s[n + len + 2..], count - 1).value;
                ReadArgs(s, count) == Some(([s[n..n + len]] + args, rest))
  {
    hide ReadNumber;
  }

  lemma NotEmpty(s: seq<byte>, count: nat)
    requires ReadArgs(s, count).Some? && count > 0
    ensures s != []
  {
  }

  /** The first command of a file that loads, and what is left after it. */
  lemma FirstCommand(s: seq<byte>) returns (argc: nat, n: nat, cmd: Args, rest: seq<byte>)
    requires s != [] && Load(s).Some?
    ensures argc > 0 && ReadNumber(s, STAR) == Some((argc, n)) && n < |s|
    ensures ReadArgs(s[n..], argc) == Some((cmd, rest))
    ensures Load(rest).Some? && Load(s) == Some([cmd] + Load(rest).value)
  {
    hide ReadNumber, ReadArgs;
    argc, n := ReadNumber(s, STAR).value.0, ReadNumber(s, STAR).value.1;
    cmd, rest := ReadArgs(s[n..], argc).value.0, ReadArgs(s[n..], argc).value.1;
    NotEmpty(s[n..], argc);
  }

  /** The first command of a printed log. */
  lemma PrintedFirst(cmds: seq<Args>) returns (argc: nat, n: nat)
    requires RespRoundTrip.GoodCommands(cmds) && cmds != []
    ensures n <= |PrintAll(cmds)| && ReadNumber(PrintAll(cmds), STAR) == Some((argc, n))
    ensures ReadArgs(PrintAll(cmds)[n..], argc) == Some((cmds[0], PrintAll(cmds[1..])))
    ensures RespRoundTrip.GoodCommands(cmds[1..]) && PrintAll(cmds) == PrintCommand(cmds[0]) + PrintAll(cmds[1..])
  {
    var cmd, rest := cmds[0], PrintAll(cmds[1..]);
    RespRoundTrip.CommandSplits(cmds);
    GoodHead(cmds);
    hide *;
    ReadsHeader(STAR, |cmd|, PrintArgs(cmd) + rest);
    ReadsArgs(cmd, rest);
    argc, n := |cmd|, |Header(STAR, |cmd|)|;
    PrintedOne(cmds);
  }

  lemma PrintedOne(cmds: seq<Args>)
    requires cmds != []
    ensures PrintAll(cmds) == PrintCommand(cmds[0]) + PrintAll(cmds[1..])
  {
    hide PrintCommand;
  }

  lemma PrintedMore(cmds: seq<Args>, k: nat, p: seq<byte>, rest: seq<byte>, t: seq<byte>)
    requires cmds != [] && k < |cmds| && rest == PrintAll(cmds[1..][..k])
    requires p + t == PrintCommand(cmds[0]) + (rest + t)
    ensures p == PrintAll(cmds[..k + 1]) && cmds[..k + 1] == [cmds[0]] + cmds[1..][..k]
  {
    hide PrintCommand;
    assert cmds[..k + 1][1..] == cmds[1..][..k];
    assert p + t == (PrintCommand(cmds[0]) + rest) + t;
    assert |p| == |PrintCommand(cmds[0]) + rest|;
    assert p == (p + t)[..|p|];
  }

  lemma NothingLogged()
    ensures PrintAll([]) == [] && Load([]) == Some([])
  {
  }

  /**
    A log that is cut off anywhere, by a crash in the middle of a write say, is refused, unless it ends between two
    commands; then it gives the commands before that.
   */
  lemma {:induction false} CutLogLoadsCommands(cmds: seq<Args>, p: seq<byte>, t: seq<byte>) returns (k: nat)
    requires RespRoundTrip.GoodCommands(cmds) && p + t == PrintAll(cmds) && Load(p).Some?
    ensures k <= |cmds| && p == PrintAll(cmds[..k]) && Load(p) == Some(cmds[..k])
    decreases |cmds|
  {
    hide *;
    NothingLogged();
    if p == [] {
      k := 0;
      assert cmds[..0] == [];
    } else {
      var argc, n, cmd, rest := FirstCommand(p);
      assert cmds != [];
      var argc', n' := PrintedFirst(cmds);
      NumberOn(p, t, STAR);
      assert (p + t)[n..] == p[n..] + t;
      ArgsOn(p[n..], t, argc);
      k := CutLogLoadsCommands(cmds[1..], rest, t);
      PrintedMore(cmds, k, p, rest, t);
      k := k + 1;
    }
  }
}
