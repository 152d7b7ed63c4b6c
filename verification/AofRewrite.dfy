/** The emitter of redis-stable/src/aof.c:603-913, as the bytes that it writes. */
module AofRewrite {
  import opened Bytes
  import opened Decimal
  import opened RespSpec
  import opened AofRewriteSpec
  import opened Objects
  import Aof
  import AofSpec

  /** "*3\r\n$3\r\nSET\r\n" */
  const SET_HEAD: seq<byte> := [42, 51, 13, 10, 36, 51, 13, 10, 83, 69, 84, 13, 10]

  /** "*3\r\n$9\r\nPEXPIREAT\r\n" */
  const PEXPIREAT_HEAD: seq<byte> :=
    [42, 51, 13, 10, 36, 57, 13, 10, 80, 69, 88, 80, 73, 82, 69, 65, 84, 13, 10]

  lemma {:induction false} PrintAllAppend(a: seq<Args>, b: seq<Args>)
    ensures PrintAll(a + b) == PrintAll(a) + PrintAll(b)
    decreases |a|
  {
    if a == [] {
      assert a + b == b;
    } else {
      assert (a + b)[1..] == a[1..] + b;
      PrintAllAppend(a[1..], b);
      hide PrintCommand;
      assert PrintCommand(a[0]) + (PrintAll(a[1..]) + PrintAll(b))
          == (PrintCommand(a[0]) + PrintAll(a[1..])) + PrintAll(b);
    }
  }

  lemma {:induction false} PrintArgsAppend(a: Args, b: Args)
    ensures PrintArgs(a + b) == PrintArgs(a) + PrintArgs(b)
    decreases |a|
  {
    if a == [] {
      assert a + b == b;
    } else {
      assert (a + b)[1..] == a[1..] + b;
      PrintArgsAppend(a[1..], b);
      hide PrintArg;
      assert PrintArg(a[0]) + (PrintArgs(a[1..]) + PrintArgs(b)) == (PrintArg(a[0]) + PrintArgs(a[1..])) + PrintArgs(b);
    }
  }

  lemma PrintOne(cmd: Args)
    ensures PrintAll([cmd]) == PrintCommand(cmd)
  {
    assert PrintAll([cmd]) == PrintCommand(cmd) + PrintAll([]);
    hide PrintCommand;
  }

  lemma PrintThree(a: seq<byte>, b: seq<byte>, c: seq<byte>)
    ensures PrintCommand([a, b, c]) == (Header(STAR, 3) + PrintArg(a)) + PrintArg(b) + PrintArg(c)
  {
    var cmd, bc, one: Args := [a, b, c], [b, c], [c];
    assert cmd[1..] == bc && bc[1..] == one && one[1..] == [];
    assert PrintArgs(one) == PrintArg(c) + PrintArgs([]);
    assert PrintArgs(bc) == PrintArg(b) + PrintArgs(one);
    assert PrintArgs(cmd) == PrintArg(a) + PrintArgs(bc);
    hide PrintArg, Header, PrintArgs;
  }

  lemma Heads()
    ensures SET_HEAD == Header(STAR, 3) + PrintArg(SET)
    ensures PEXPIREAT_HEAD == Header(STAR, 3) + PrintArg(PEXPIREAT)
  {
    assert Digits(3) == [51] && Digits(9) == [57];
    hide Digits;
  }

  // ---- Variadic commands ----

  /** What is still to be written when the r items from i on complete a command that was begun. */
  function Pending(name: seq<byte>, key: seq<byte>, items: seq<Args>, i: nat, r: nat): seq<byte>
    requires i + r <= |items|
  {
    PrintArgs(Flat(items[i..i + r])) + PrintAll(Chunks(name, key, items[i + r..]))
  }

  lemma ChunksStart(name: seq<byte>, key: seq<byte>, items: seq<Args>, i: nat, w: nat)
    requires i < |items| && forall k :: 0 <= k < |items| ==> |items[k]| == w
    ensures var c := ChunkSize(|items| - i);
            var cmd := ChunkCommand(name, key, items[i..i + c]);
            Chunks(name, key, items[i..]) == [cmd] + Chunks(name, key, items[i + c..]) && |cmd| == 2 + c * w
  {
    var c := ChunkSize(|items| - i);
    assert items[i..][..c] == items[i..i + c] && items[i..][c..] == items[i + c..];
    hide Flat;
    FlatLength(items[i..i + c], w);
  }

  lemma StartPrints(name: seq<byte>, key: seq<byte>, items: seq<Args>, i: nat, w: nat)
    requires i < |items| && forall k :: 0 <= k < |items| ==> |items[k]| == w
    ensures var c := ChunkSize(|items| - i);
            PrintAll(Chunks(name, key, items[i..]))
            == (Header(STAR, 2 + c * w) + PrintArg(name) + PrintArg(key) + PrintArgs(Flat(items[i..i + c])))
             + PrintAll(Chunks(name, key, items[i + c..]))
  {
    hide *;
    var c := ChunkSize(|items| - i);
    var cmd := ChunkCommand(name, key, items[i..i + c]);
    ChunksStart(name, key, items, i, w);
    ChunkPrints(name, key, items[i..i + c]);
    PrintAllAppend([cmd], Chunks(name, key, items[i + c..]));
    PrintOne(cmd);
  }

  /** A new command: the number it announces is that of the arguments that follow. */
  lemma PendingStart(name: seq<byte>, key: seq<byte>, items: seq<Args>, i: nat, w: nat)
    requires i < |items| && forall k :: 0 <= k < |items| ==> |items[k]| == w
    ensures var c := ChunkSize(|items| - i);
            Pending(name, key, items, i, 0)
            == Header(STAR, 2 + c * w) + PrintArg(name) + PrintArg(key) + Pending(name, key, items, i, c)
  {
    hide *;
    var c := ChunkSize(|items| - i);
    StartPrints(name, key, items, i, w);
    PendingIs(name, key, items, i, 0);
    PendingIs(name, key, items, i, c);
  }

  lemma PendingIs(name: seq<byte>, key: seq<byte>, items: seq<Args>, i: nat, r: nat)
    requires i + r <= |items|
    ensures Pending(name, key, items, i, r)
         == PrintArgs(Flat(items[i..i + r])) + PrintAll(Chunks(name, key, items[i + r..]))
    ensures r == 0 ==> Pending(name, key, items, i, r) == PrintAll(Chunks(name, key, items[i..]))
  {
    if r == 0 {
      assert items[i..i] == [] && Flat([]) == [] && PrintArgs([]) == [];
    }
    hide Flat, PrintArgs, PrintAll, Chunks;
  }

  lemma ChunkPrints(name: seq<byte>, key: seq<byte>, now: seq<Args>)
    ensures var cmd := ChunkCommand(name, key, now);
            PrintCommand(cmd) == Header(STAR, |cmd|) + PrintArg(name) + PrintArg(key) + PrintArgs(Flat(now))
  {
    var cmd := ChunkCommand(name, key, now);
    assert cmd[1..] == [key] + Flat(now) && cmd[1..][1..] == Flat(now);
    assert PrintArgs(cmd) == PrintArg(name) + PrintArgs(cmd[1..]);
    assert PrintArgs(cmd[1..]) == PrintArg(key) + PrintArgs(Flat(now));
    hide PrintArg, Header, PrintArgs, Flat;
  }

  lemma PendingItem(name: seq<byte>, key: seq<byte>, items: seq<Args>, i: nat, r: nat)
    requires 0 < r && i + r <= |items|
    ensures Pending(name, key, items, i, r) == PrintArgs(items[i]) + Pending(name, key, items, i + 1, r - 1)
  {
    var now := items[i..i + r];
    assert now[0] == items[i] && now[1..] == items[i + 1..i + r];
    assert Flat(now) == items[i] + Flat(now[1..]);
    hide Flat, PrintArgs, PrintAll, Chunks;
    PrintArgsAppend(items[i], Flat(now[1..]));
  }

  /** How many more items belong to the command being written, when count of its items are written and left remain. */
  function Begun(count: nat, left: nat): (r: nat)
    requires count < ITEMS_PER_CMD
    ensures r <= left
  {
    if count == 0 then 0 else ChunkRest(ITEMS_PER_CMD - count, left)
  }

  function ChunkRest(room: nat, left: nat): (r: nat)
    ensures r <= left
  {
    if room < left then room else left
  }

  /** What announces a command, if one begins. */
  function Started(name: seq<byte>, key: seq<byte>, w: nat, count: nat, left: nat): seq<byte> {
    if count == 0 then Header(STAR, 2 + ChunkSize(left) * w) + PrintArg(name) + PrintArg(key) else []
  }

  function NextCount(count: nat): (r: nat)
    requires count < ITEMS_PER_CMD
    ensures r < ITEMS_PER_CMD
  {
    if count + 1 == ITEMS_PER_CMD then 0 else count + 1
  }

  lemma BegunStep(count: nat, left: nat)
    requires count < ITEMS_PER_CMD && left > 0
    ensures Begun(NextCount(count), left - 1) + 1 == if count == 0 then ChunkSize(left) else Begun(count, left)
    ensures Begun(0, left) == 0
  {
  }

  lemma StartedIs(name: seq<byte>, key: seq<byte>, w: nat, count: nat, left: nat)
    ensures count == 0 ==>
              Started(name, key, w, count, left)
              == Header(STAR, 2 + ChunkSize(left) * w) + PrintArg(name) + PrintArg(key)
    ensures count > 0 ==> Started(name, key, w, count, left) == []
  {
    hide ChunkSize, Header, PrintArg;
  }

  lemma PendingStep(name: seq<byte>, key: seq<byte>, items: seq<Args>, i: nat, w: nat, count: nat)
    requires i < |items| && count < ITEMS_PER_CMD && forall k :: 0 <= k < |items| ==> |items[k]| == w
    ensures var left := |items| - i;
            Pending(name, key, items, i, Begun(count, left))
            == Started(name, key, w, count, left)
             + (PrintArgs(items[i]) + Pending(name, key, items, i + 1, Begun(NextCount(count), left - 1)))
  {
    hide *;
    var left := |items| - i;
    BegunStep(count, left);
    StartedIs(name, key, w, count, left);
    PendingItem(name, key, items, i, Begun(NextCount(count), left - 1) + 1);
    if count == 0 { PendingStart(name, key, items, i, w); }
  }

  lemma PendingFirst(name: seq<byte>, key: seq<byte>, items: seq<Args>)
    ensures Pending(name, key, items, 0, Begun(0, |items|)) == PrintAll(Chunks(name, key, items))
  {
    PendingIs(name, key, items, 0, 0);
    assert items[0..] == items;
  }

  lemma PendingLast(name: seq<byte>, key: seq<byte>, items: seq<Args>, count: nat)
    requires count < ITEMS_PER_CMD
    ensures Pending(name, key, items, |items|, Begun(count, 0)) == []
  {
    PendingIs(name, key, items, |items|, 0);
    assert items[|items|..] == [];
  }

  lemma PrintsOneArg(a: seq<byte>)
    ensures PrintArgs([a]) == PrintArg(a)
  {
    assert PrintArgs([a]) == PrintArg(a) + PrintArgs([]);
    hide PrintArg;
  }

  lemma PrintsTwoArgs(a: seq<byte>, b: seq<byte>)
    ensures PrintArgs([a, b]) == PrintArg(a) + PrintArg(b)
  {
    assert [a, b] == [a] + [b];
    PrintArgsAppend([a], [b]);
    PrintsOneArg(a);
    PrintsOneArg(b);
  }

  /** Lines 614-621: at the start of a command, the number of its arguments, its name and the key. */
  method BeginCommand(name: seq<byte>, key: seq<byte>, w: nat, count: nat, items: nat, out0: seq<byte>)
    returns (out: seq<byte>)
    ensures out == out0 + Started(name, key, w, count, items)
  {
    out := out0;
    if count == 0 {
      var cmdItems := if items > ITEMS_PER_CMD then ITEMS_PER_CMD else items;
      hide Header, PrintArg;
      out := out + Header(STAR, 2 + cmdItems * w) + PrintArg(name) + PrintArg(key);
    }
  }

  lemma SinglesAre(elements: seq<Str>)
    ensures forall k :: 0 <= k < |elements| ==> Singles(elements)[k] == [Text(elements[k])]
    ensures 0 < ITEMS_PER_CMD
  {
  }

  lemma PairsAre(fields: seq<(Str, Str)>)
    ensures forall k :: 0 <= k < |fields| ==> Pairs(fields)[k] == [Text(fields[k].0), Text(fields[k].1)]
    ensures 0 < ITEMS_PER_CMD
  {
  }

  /** rewriteListObject and rewriteSetObject: name is RPUSH or SADD. */
  method RewriteElements(name: seq<byte>, key: seq<byte>, elements: seq<Str>, out0: seq<byte>) returns (out: seq<byte>)
    ensures out == out0 + PrintAll(Chunks(name, key, Singles(elements)))
  {
    hide *;
    ghost var todo := Singles(elements);
    SinglesAre(elements);
    PendingFirst(name, key, todo);
    ghost var goal := out0 + Pending(name, key, todo, 0, Begun(0, |todo|));
    var count: nat, items, i := 0, |elements|, 0;
    out := out0;
    while i < |elements|
      invariant i <= |elements| && items == |elements| - i && count < ITEMS_PER_CMD
      invariant goal == out + Pending(name, key, todo, i, Begun(count, items))
    {
      PendingStep(name, key, todo, i, 1, count);
      PrintsOneArg(Text(elements[i]));
      out := BeginCommand(name, key, 1, count, items, out);
      out := out + PrintArg(Text(elements[i]));
      i, items, count := i + 1, items - 1, NextCount(count);
    }
    PendingLast(name, key, todo, count);
  }

  /** rewriteHashObject. */
  method RewriteHashObject(key: seq<byte>, fields: seq<(Str, Str)>, out0: seq<byte>) returns (out: seq<byte>)
    ensures out == out0 + PrintAll(Chunks(HMSET, key, Pairs(fields)))
  {
    hide *;
    ghost var todo := Pairs(fields);
    PairsAre(fields);
    PendingFirst(HMSET, key, todo);
    ghost var goal := out0 + Pending(HMSET, key, todo, 0, Begun(0, |todo|));
    var count: nat, items, i := 0, |fields|, 0;
    out := out0;
    while i < |fields|
      invariant i <= |fields| && items == |fields| - i && count < ITEMS_PER_CMD
      invariant goal == out + Pending(HMSET, key, todo, i, Begun(count, items))
    {
      PendingStep(HMSET, key, todo, i, 2, count);
      PrintsTwoArgs(Text(fields[i].0), Text(fields[i].1));
      out := BeginCommand(HMSET, key, 2, count, items, out);
      out := out + PrintArg(Text(fields[i].0));
      out := out + PrintArg(Text(fields[i].1));
      i, items, count := i + 1, items - 1, NextCount(count);
    }
    PendingLast(HMSET, key, todo, count);
  }

  // ---- The whole file ----

  lemma SetPrints(key: seq<byte>, s: Str)
    ensures PrintAll(ObjCommands(key, StringObj(s))) == SET_HEAD + PrintArg(key) + PrintArg(Text(s))
  {
    Heads();
    PrintThree(SET, key, Text(s));
    PrintOne([SET, key, Text(s)]);
    assert ObjCommands(key, StringObj(s)) == [[SET, key, Text(s)]];
    hide *;
  }

  /** Lines 909-915: the deadline, if there is one. */
  function DeadlinePrinted(r: Row): seq<byte> {
    if r.expire == -1 then [] else PEXPIREAT_HEAD + PrintArg(r.key) + PrintArg(Ll2String(r.expire))
  }

  lemma ExpirePrints(r: Row, now: int)
    ensures PrintAll(RowCommands(r, now))
         == if Expired(r, now) then [] else PrintAll(ObjCommands(r.key, r.obj)) + DeadlinePrinted(r)
  {
    var cmd := [PEXPIREAT, r.key, Ll2String(r.expire)];
    var cmds := ObjCommands(r.key, r.obj);
    assert PrintAll([]) == [];
    assert RowCommands(r, now) == if Expired(r, now) then [] else cmds + if r.expire != -1 then [cmd] else [];
    Heads();
    hide *;
    PrintThree(PEXPIREAT, r.key, Ll2String(r.expire));
    PrintOne(cmd);
    PrintAllAppend(cmds, [cmd]);
    assert cmds + [] == cmds;
  }

  lemma CollectionCommands(key: seq<byte>, o: Obj)
    ensures o.ListObj? ==> ObjCommands(key, o) == Chunks(RPUSH, key, Singles(o.items))
    ensures o.SetObj? ==> ObjCommands(key, o) == Chunks(SADD, key, Singles(o.members))
    ensures o.HashObj? ==> ObjCommands(key, o) == Chunks(HMSET, key, Pairs(o.fields))
  {
    hide Chunks, Singles, Pairs;
  }

  /** Lines 890-908: the value of one key. */
  method RewriteObject(key: seq<byte>, o: Obj, out0: seq<byte>) returns (out: seq<byte>)
    ensures out == out0 + PrintAll(ObjCommands(key, o))
  {
    hide *;
    CollectionCommands(key, o);
    match o
    case StringObj(s) =>
      SetPrints(key, s);
      out := out0 + SET_HEAD + PrintArg(key) + PrintArg(Text(s));
    case ListObj(items) =>
      out := RewriteElements(RPUSH, key, items, out0);
    case SetObj(members) =>
      out := RewriteElements(SADD, key, members, out0);
    case HashObj(fields) =>
      out := RewriteHashObject(key, fields, out0);
  }

  /** Lines 881-915: one key. */
  method RewriteKey(r: Row, now: int, out0: seq<byte>) returns (out: seq<byte>)
    ensures out == out0 + PrintAll(RowCommands(r, now))
  {
    ExpirePrints(r, now);
    hide PrintAll, RowCommands, ObjCommands, PrintArg, Ll2String;
    out := out0;
    if r.expire != -1 && r.expire < now { return; }
    out := RewriteObject(r.key, r.obj, out);
    if r.expire != -1 {
      out := out + PEXPIREAT_HEAD + PrintArg(r.key) + PrintArg(Ll2String(r.expire));
    }
  }

  lemma RowsPrint(rows: seq<Row>, i: nat, now: int)
    requires i <= |rows|
    ensures PrintAll(DbCommands(rows, i, now))
         == if i == |rows| then [] else PrintAll(RowCommands(rows[i], now)) + PrintAll(DbCommands(rows, i + 1, now))
  {
    if i < |rows| {
      PrintAllAppend(RowCommands(rows[i], now), DbCommands(rows, i + 1, now));
    }
    hide RowCommands;
  }

  /** The loop at line 876. */
  method RewriteDb(rows: seq<Row>, now: int, out0: seq<byte>) returns (out: seq<byte>)
    ensures out == out0 + PrintAll(DbCommands(rows, 0, now))
  {
    hide *;
    var i := 0;
    out := out0;
    while i < |rows|
      invariant i <= |rows| && out + PrintAll(DbCommands(rows, i, now)) == out0 + PrintAll(DbCommands(rows, 0, now))
    {
      RowsPrint(rows, i, now);
      out := RewriteKey(rows[i], now, out);
      i := i + 1;
    }
    RowsPrint(rows, i, now);
  }

  lemma DatabasesPrint(dbs: Databases, j: nat, now: int)
    requires j <= |dbs|
    ensures PrintAll(FileCommands(dbs, j, now))
         == if j == |dbs| then []
            else
              (if dbs[j] == [] then []
               else Aof.SelectPrinted(Ll2String(j)) + PrintAll(DbCommands(dbs[j], 0, now)))
              + PrintAll(FileCommands(dbs, j + 1, now))
  {
    assert PrintAll([]) == [];
    if j < |dbs| {
      var cmds, rest := DbCommands(dbs[j], 0, now), FileCommands(dbs, j + 1, now);
      Aof.SelectBytes(j);
      var here := if dbs[j] == [] then [] else [AofSpec.SelectCommand(j)] + cmds;
      assert FileCommands(dbs, j, now) == here + rest;
      hide *;
      PrintOne(AofSpec.SelectCommand(j));
      PrintAllAppend([AofSpec.SelectCommand(j)], cmds);
      PrintAllAppend(here, rest);
    }
  }

  /** rewriteAppendOnlyFile: the contents of the temporary file. */
  method RewriteAppendOnlyFile(dbs: Databases, now: int) returns (out: seq<byte>)
    ensures out == PrintAll(FileCommands(dbs, 0, now))
  {
    hide *;
    var j := 0;
    out := [];
    while j < |dbs|
      invariant j <= |dbs| && out + PrintAll(FileCommands(dbs, j, now)) == PrintAll(FileCommands(dbs, 0, now))
    {
      DatabasesPrint(dbs, j, now);
      if dbs[j] != [] {
        out := out + Aof.SelectPrinted(Ll2String(j));
        out := RewriteDb(dbs[j], now, out);
      }
      j := j + 1;
    }
    DatabasesPrint(dbs, j, now);
  }
}
