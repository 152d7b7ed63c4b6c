/**
  The commands that a rewrite of the append only file writes (redis-stable/src/aof.c:603-913), and what replaying them
  builds.
 */
module AofRewriteSpec {
  import opened Bytes
  import opened Decimal
  import opened RespSpec
  import RespRoundTrip
  import AofSpec
  import opened Keyspaces
  import opened Objects

  const ITEMS_PER_CMD := 64

  const RPUSH: seq<byte> := [82, 80, 85, 83, 72]
  const SADD: seq<byte> := [83, 65, 68, 68]
  const HMSET: seq<byte> := [72, 77, 83, 69, 84]
  const SET: seq<byte> := [83, 69, 84]
  const PEXPIREAT: seq<byte> := [80, 69, 88, 80, 73, 82, 69, 65, 84]

  /** A key with its value and deadline in milliseconds, -1 for none. */
  datatype Row = Row(key: seq<byte>, obj: Obj, expire: int)

  datatype Entry = Entry(value: Value, expire: int)

  type Keyspace = Table<Entry>

  /** hashTypeSet for each pair of arguments. */
  function SetFields(m: map<seq<byte>, seq<byte>>, args: Args): map<seq<byte>, seq<byte>>
    requires |args| % 2 == 0
  {
    if args == [] then m
    else
      var n := |args|;
      SetFields(m, args[..n - 2])[args[n - 2] := args[n - 1]]
  }

  function AddAll(m: set<seq<byte>>, args: Args): set<seq<byte>> {
    m + set a | a in args
  }

  // ---- Running the commands of a rewrite ----

  /** A value after RPUSH, SADD or HMSET; none when the command is refused. */
  function Grow(name: seq<byte>, was: Option<Value>, args: Args): Option<Value> {
    if name == RPUSH then
      match was
      case None => Some(ListVal(args))
      case Some(ListVal(items)) => Some(ListVal(items + args))
      case _ => None
    else if name == SADD then
      match was
      case None => Some(SetVal(AddAll({}, args)))
      case Some(SetVal(members)) => Some(SetVal(AddAll(members, args)))
      case _ => None
    else if name == HMSET && |args| % 2 == 0 then
      match was
      case None => Some(HashVal(SetFields(map[], args)))
      case Some(HashVal(fields)) => Some(HashVal(SetFields(fields, args)))
      case _ => None
    else None
  }

  function ValueAt(d: Keyspace, k: (int, seq<byte>)): Option<Value> {
    if k in d then Some(d[k].value) else None
  }

  function ExpireAt(d: Keyspace, k: (int, seq<byte>)): int {
    if k in d then d[k].expire else -1
  }

  /** The effect of a command while the append only file is loaded; other commands are not part of a rewrite. */
  function Exec(d: Keyspace, db: int, cmd: Args): Keyspace {
    if |cmd| < 3 then d
    else
      var k := (db, cmd[1]);
      if cmd[0] == SET then (if |cmd| == 3 then d[k := Entry(StringVal(cmd[2]), -1)] else d)
      else if cmd[0] == PEXPIREAT then
        if |cmd| == 3 && k in d && String2ll(cmd[2]).Some? then d[k := d[k].(expire := String2ll(cmd[2]).value)] else d
      else
        match Grow(cmd[0], ValueAt(d, k), cmd[2..])
        case None => d
        case Some(v) => d[k := Entry(v, ExpireAt(d, k))]
  }

  // ---- The commands ----

  function Flat(items: seq<Args>): Args {
    if items == [] then [] else items[0] + Flat(items[1..])
  }

  /** How many items the next command takes. */
  function ChunkSize(n: nat): (r: nat)
    ensures r <= n && r <= ITEMS_PER_CMD && (n > 0 ==> r > 0)
  {
    if n > ITEMS_PER_CMD then ITEMS_PER_CMD else n
  }

  function ChunkCommand(name: seq<byte>, key: seq<byte>, items: seq<Args>): Args {
    [name, key] + Flat(items)
  }

  /** The commands that add the items, as many as one command may take at a time. */
  function Chunks(name: seq<byte>, key: seq<byte>, items: seq<Args>): seq<Args>
    decreases |items|
  {
    if items == [] then []
    else
      var n := ChunkSize(|items|);
      [ChunkCommand(name, key, items[..n])] + Chunks(name, key, items[n..])
  }

  function Singles(items: seq<Str>): (r: seq<Args>)
    ensures |r| == |items|
  {
    seq(|items|, i requires 0 <= i < |items| => [Text(items[i])])
  }

  function Pairs(fields: seq<(Str, Str)>): (r: seq<Args>)
    ensures |r| == |fields|
  {
    seq(|fields|, i requires 0 <= i < |fields| => [Text(fields[i].0), Text(fields[i].1)])
  }

  function ObjCommands(key: seq<byte>, o: Obj): seq<Args> {
    match o
    case StringObj(s) => [[SET, key, Text(s)]]
    case ListObj(items) => Chunks(RPUSH, key, Singles(items))
    case SetObj(members) => Chunks(SADD, key, Singles(members))
    case HashObj(fields) => Chunks(HMSET, key, Pairs(fields))
  }

  predicate Expired(r: Row, now: int) {
    r.expire != -1 && r.expire < now
  }

  function RowCommands(r: Row, now: int): seq<Args> {
    if Expired(r, now) then []
    else ObjCommands(r.key, r.obj) + if r.expire != -1 then [[PEXPIREAT, r.key, Ll2String(r.expire)]] else []
  }

  /** The commands for rows i and after. */
  function DbCommands(rows: seq<Row>, i: nat, now: int): seq<Args>
    requires i <= |rows|
    decreases |rows| - i
  {
    if i == |rows| then [] else RowCommands(rows[i], now) + DbCommands(rows, i + 1, now)
  }

  type Databases = d: seq<seq<Row>> | |d| < 0x8000_0000

  /** The commands for databases j and after: none for an empty one. */
  function FileCommands(dbs: Databases, j: nat, now: int): seq<Args>
    requires j <= |dbs|
    decreases |dbs| - j
  {
    if j == |dbs| then []
    else
      (if dbs[j] == [] then [] else [AofSpec.SelectCommand(j)] + DbCommands(dbs[j], 0, now))
      + FileCommands(dbs, j + 1, now)
  }

  // ---- What they build ----

  /** What replaying its commands builds: nothing for an empty collection, which Redis does not keep. */
  function Meaning(o: Obj): Option<Value> {
    match o
    case StringObj(s) => Some(ValueOf(o))
    case ListObj(items) => if items == [] then None else Some(ValueOf(o))
    case SetObj(members) => if members == [] then None else Some(ValueOf(o))
    case HashObj(fields) => if fields == [] then None else Some(ValueOf(o))
  }

  predicate Kept(r: Row, now: int) {
    !Expired(r, now) && Meaning(r.obj).Some?
  }

  /** A command stream run from any database: the data, whatever database is selected in the end. */
  function Play(d: Keyspace, db: int, log: seq<Args>): (Keyspace, int) {
    AofSpec.Replay(Exec, d, db, log)
  }

  lemma {:induction false} PlayAppend(d: Keyspace, db: int, a: seq<Args>, b: seq<Args>)
    ensures Play(d, db, a + b) == var m := Play(d, db, a); Play(m.0, m.1, b)
    decreases |b|
  {
    if b == [] {
      assert a + b == a;
    } else {
      var n := |b| - 1;
      assert (a + b)[..|a| + n] == a + b[..n];
      hide Exec;
      PlayAppend(d, db, a, b[..n]);
    }
  }

  lemma PlayOne(d: Keyspace, db: int, cmd: Args)
    requires |cmd| >= 3
    ensures Play(d, db, [cmd]) == (Exec(d, db, cmd), db)
  {
    hide Exec;
    assert [cmd][..0] == [];
    assert AofSpec.Replay(Exec, d, db, []) == (d, db);
  }

  lemma {:induction false} SetFieldsAppend(m: map<seq<byte>, seq<byte>>, a: Args, b: Args)
    requires |a| % 2 == 0 && |b| % 2 == 0
    ensures SetFields(m, a + b) == SetFields(SetFields(m, a), b)
    decreases |b|
  {
    if b == [] {
      assert a + b == a;
    } else {
      var n := |b| - 2;
      assert (a + b)[..|a| + n] == a + b[..n];
      SetFieldsAppend(m, a, b[..n]);
    }
  }

  /** Two commands of the same kind do what one with all the arguments does. */
  lemma GrowTwice(name: seq<byte>, was: Option<Value>, a: Args, b: Args)
    requires name == HMSET ==> |a| % 2 == 0 && |b| % 2 == 0
    requires Grow(name, was, a).Some?
    ensures Grow(name, Grow(name, was, a), b) == Grow(name, was, a + b)
  {
    if name == RPUSH {
      if was.Some? {
        assert was.value.items + a + b == was.value.items + (a + b);
      }
    } else if name == SADD {
      var m := if was.Some? then was.value.members else {};
      assert AddAll(AddAll(m, a), b) == AddAll(m, a + b);
    } else {
      SetFieldsAppend(if was.Some? then was.value.fields else map[], a, b);
    }
  }

  lemma {:induction false} FlatAppend(a: seq<Args>, b: seq<Args>)
    ensures Flat(a + b) == Flat(a) + Flat(b)
    decreases |a|
  {
    if a == [] {
      assert a + b == b;
    } else {
      assert (a + b)[1..] == a[1..] + b;
      FlatAppend(a[1..], b);
    }
  }

  /** The number of arguments that a number of items of the same width make. */
  lemma {:induction false} FlatLength(items: seq<Args>, w: nat)
    requires forall i :: 0 <= i < |items| ==> |items[i]| == w
    ensures |Flat(items)| == |items| * w
    decreases |items|
  {
    if items != [] {
      FlatLength(items[1..], w);
    }
  }

  // ---- Replaying one object ----

  /** The command may run on such a value. */
  predicate Suits(name: seq<byte>, was: Option<Value>) {
    || (name == RPUSH && (was.None? || was.value.ListVal?))
    || (name == SADD && (was.None? || was.value.SetVal?))
    || (name == HMSET && (was.None? || was.value.HashVal?))
  }

  lemma GrowSuits(name: seq<byte>, was: Option<Value>, args: Args)
    requires Suits(name, was) && (name == HMSET ==> |args| % 2 == 0)
    ensures Grow(name, was, args).Some? && Suits(name, Grow(name, was, args))
  {
  }

  /** Items that a variadic command takes: one or two arguments each. */
  ghost predicate GoodItems(name: seq<byte>, items: seq<Args>) {
    var w := if name == HMSET then 2 else 1;
    forall i :: 0 <= i < |items| ==> |items[i]| == w
  }

  lemma ExecGrows(d: Keyspace, db: int, cmd: Args)
    requires |cmd| >= 3 && Suits(cmd[0], ValueAt(d, (db, cmd[1]))) && (cmd[0] == HMSET ==> |cmd| % 2 == 0)
    ensures var k := (db, cmd[1]);
            && Grow(cmd[0], ValueAt(d, k), cmd[2..]).Some?
            && Exec(d, db, cmd) == d[k := Entry(Grow(cmd[0], ValueAt(d, k), cmd[2..]).value, ExpireAt(d, k))]
  {
    GrowSuits(cmd[0], ValueAt(d, (db, cmd[1])), cmd[2..]);
    assert |RPUSH| == |HMSET| == 5 && |SADD| == 4 && |SET| == 3 && |PEXPIREAT| == 9;
    hide Grow;
  }

  lemma FlatGood(name: seq<byte>, items: seq<Args>)
    requires GoodItems(name, items)
    ensures |items| <= |Flat(items)| <= 2 * |items| && (name == HMSET ==> |Flat(items)| % 2 == 0)
  {
    FlatLength(items, if name == HMSET then 2 else 1);
    hide Flat;
  }

  lemma ChunkCommandIs(name: seq<byte>, key: seq<byte>, items: seq<Args>)
    requires GoodItems(name, items) && items != []
    ensures var cmd := ChunkCommand(name, key, items);
            && |cmd| >= 3 && cmd[0] == name && cmd[1] == key && cmd[2..] == Flat(items)
            && (name == HMSET ==> |cmd| % 2 == 0)
  {
    FlatGood(name, items);
    hide Flat, GoodItems;
  }

  lemma ChunkRuns(d: Keyspace, db: int, name: seq<byte>, key: seq<byte>, items: seq<Args>)
    requires Suits(name, ValueAt(d, (db, key))) && GoodItems(name, items) && items != []
    ensures var k := (db, key);
            && Grow(name, ValueAt(d, k), Flat(items)).Some?
            && Play(d, db, [ChunkCommand(name, key, items)])
            == (d[k := Entry(Grow(name, ValueAt(d, k), Flat(items)).value, ExpireAt(d, k))], db)
  {
    hide *;
    var cmd := ChunkCommand(name, key, items);
    ChunkCommandIs(name, key, items);
    PlayOne(d, db, cmd);
    ExecGrows(d, db, cmd);
  }

  lemma GoodParts(name: seq<byte>, items: seq<Args>, n: nat)
    requires GoodItems(name, items) && n <= |items|
    ensures GoodItems(name, items[..n]) && GoodItems(name, items[n..])
    ensures Flat(items) == Flat(items[..n]) + Flat(items[n..])
    ensures name == HMSET ==> |Flat(items[..n])| % 2 == 0 && |Flat(items[n..])| % 2 == 0
  {
    FlatAppend(items[..n], items[n..]);
    assert items == items[..n] + items[n..];
    FlatGood(name, items[..n]);
    FlatGood(name, items[n..]);
  }

  /** However many commands the items take, replaying them does what one command with all of them would do. */
  lemma {:induction false} ChunksReplay(d: Keyspace, db: int, name: seq<byte>, key: seq<byte>, items: seq<Args>)
    requires Suits(name, ValueAt(d, (db, key))) && GoodItems(name, items) && items != []
    ensures var k := (db, key);
            && Grow(name, ValueAt(d, k), Flat(items)).Some?
            && Play(d, db, Chunks(name, key, items))
            == (d[k := Entry(Grow(name, ValueAt(d, k), Flat(items)).value, ExpireAt(d, k))], db)
    decreases |items|
  {
    var k := (db, key);
    var n := ChunkSize(|items|);
    var head, tail := items[..n], items[n..];
    GoodParts(name, items, n);
    ChunkRuns(d, db, name, key, head);
    var v1 := Grow(name, ValueAt(d, k), Flat(head));
    var d1 := d[k := Entry(v1.value, ExpireAt(d, k))];
    GrowSuits(name, ValueAt(d, k), Flat(head));
    assert Chunks(name, key, items) == [ChunkCommand(name, key, head)] + Chunks(name, key, tail);
    if tail == [] {
      assert head == items;
      assert Chunks(name, key, items) == [ChunkCommand(name, key, head)];
    } else {
      hide Play, Flat, Grow, Suits, Chunks, ChunkCommand;
      PlayAppend(d, db, [ChunkCommand(name, key, head)], Chunks(name, key, tail));
      ChunksReplay(d1, db, name, key, tail);
      GrowTwice(name, ValueAt(d, k), Flat(head), Flat(tail));
      assert ValueAt(d1, k) == v1 && ExpireAt(d1, k) == ExpireAt(d, k);
      hide ValueAt, ExpireAt;
      var e := Entry(Grow(name, v1, Flat(tail)).value, ExpireAt(d, k));
      assert d1[k := e] == d[k := e];
    }
  }

  lemma {:induction false} FlatSingles(items: seq<Str>)
    ensures Flat(Singles(items)) == Texts(items)
    decreases |items|
  {
    if items != [] {
      assert Singles(items)[1..] == Singles(items[1..]);
      FlatSingles(items[1..]);
    }
  }

  lemma {:induction false} FlatPairs(fields: seq<(Str, Str)>)
    ensures |Flat(Pairs(fields))| == 2 * |fields| && FieldMap(fields) == SetFields(map[], Flat(Pairs(fields)))
    decreases |fields|
  {
    if fields != [] {
      var n := |fields| - 1;
      var last := Pairs(fields)[n];
      FlatPairs(fields[..n]);
      assert Pairs(fields) == Pairs(fields[..n]) + [last];
      FlatAppend(Pairs(fields[..n]), [last]);
      assert Flat([last]) == last;
      hide Pairs;
      var args := Flat(Pairs(fields));
      assert args[..|args| - 2] == Flat(Pairs(fields[..n]));
    }
  }

  lemma SetTexts(members: seq<Str>)
    ensures AddAll({}, Texts(members)) == set m | m in members :: Text(m)
  {
    hide Text;
    forall m | m in members ensures Text(m) in Texts(members) {
      var i :| 0 <= i < |members| && members[i] == m;
      assert Texts(members)[i] == Text(m);
    }
  }

  /** A collection stands for what its command builds when there is no such key yet. */
  lemma CollectionMeaning(o: Obj)
    ensures o.ListObj? && o.items != [] ==> Meaning(o) == Grow(RPUSH, None, Flat(Singles(o.items)))
    ensures o.SetObj? && o.members != [] ==> Meaning(o) == Grow(SADD, None, Flat(Singles(o.members)))
    ensures o.HashObj? && o.fields != [] ==> Meaning(o) == Grow(HMSET, None, Flat(Pairs(o.fields)))
  {
    match o {
      case StringObj(s) =>
      case ListObj(items) => FlatSingles(items);
      case SetObj(members) => FlatSingles(members); SetTexts(members);
      case HashObj(fields) => FlatPairs(fields);
    }
    hide Flat, Singles, Pairs, Text, Texts, FieldMap, SetFields, AddAll;
  }

  lemma ItemsAreGood(o: Obj)
    ensures o.ListObj? ==> GoodItems(RPUSH, Singles(o.items)) && Suits(RPUSH, None)
    ensures o.SetObj? ==> GoodItems(SADD, Singles(o.members)) && Suits(SADD, None)
    ensures o.HashObj? ==> GoodItems(HMSET, Pairs(o.fields)) && Suits(HMSET, None)
  {
  }

  lemma ObjReplay(d: Keyspace, db: int, key: seq<byte>, o: Obj)
    requires (db, key) !in d
    ensures Play(d, db, ObjCommands(key, o))
         == (if Meaning(o).Some? then d[(db, key) := Entry(Meaning(o).value, -1)] else d, db)
  {
    CollectionMeaning(o);
    ItemsAreGood(o);
    hide Play, Flat, Singles, Pairs, Text, Texts, FieldMap, Chunks, Grow, GoodItems, Suits;
    match o
    case StringObj(s) =>
      PlayOne(d, db, [SET, key, Text(s)]);
    case ListObj(items) =>
      CollectionReplays(d, db, RPUSH, key, Singles(items));
    case SetObj(members) =>
      CollectionReplays(d, db, SADD, key, Singles(members));
    case HashObj(fields) =>
      CollectionReplays(d, db, HMSET, key, Pairs(fields));
  }

  lemma CollectionReplays(d: Keyspace, db: int, name: seq<byte>, key: seq<byte>, items: seq<Args>)
    requires (db, key) !in d && Suits(name, None) && GoodItems(name, items)
    ensures items != [] ==> Grow(name, None, Flat(items)).Some?
    ensures Play(d, db, Chunks(name, key, items))
         == (if items == [] then d else d[(db, key) := Entry(Grow(name, None, Flat(items)).value, -1)], db)
  {
    if items == [] {
      assert Chunks(name, key, items) == [];
    } else {
      hide Flat, Suits, Grow, Chunks;
      ChunksReplay(d, db, name, key, items);
    }
  }

  /** Replaying the commands of a key that is not there yet adds it with its value and deadline, if it is kept. */
  lemma RowReplay(d: Keyspace, db: int, r: Row, now: int)
    requires (db, r.key) !in d && LLONG_MIN <= r.expire <= LLONG_MAX
    ensures Play(d, db, RowCommands(r, now))
         == (if Kept(r, now) then d[(db, r.key) := Entry(Meaning(r.obj).value, r.expire)] else d, db)
  {
    ObjReplay(d, db, r.key, r.obj);
    if Expired(r, now) {
    } else if r.expire == -1 {
      assert ObjCommands(r.key, r.obj) + [] == ObjCommands(r.key, r.obj);
      hide ObjCommands, Play;
    } else {
      var cmd := [PEXPIREAT, r.key, Ll2String(r.expire)];
      var d1 := Play(d, db, ObjCommands(r.key, r.obj)).0;
      PlayAppend(d, db, ObjCommands(r.key, r.obj), [cmd]);
      PlayOne(d1, db, cmd);
      String2llIsCanonical(Ll2String(r.expire), r.expire);
      assert Exec(d1, db, cmd)
          == if (db, r.key) in d1 then d1[(db, r.key) := d1[(db, r.key)].(expire := r.expire)] else d1;
      assert RowCommands(r, now) == ObjCommands(r.key, r.obj) + [cmd] && Kept(r, now) == Meaning(r.obj).Some?;
      hide *;
      if Meaning(r.obj).Some? {
        var e := Entry(Meaning(r.obj).value, r.expire);
        assert d1[(db, r.key)].(expire := r.expire) == e;
        assert d1[(db, r.key) := e] == d[(db, r.key) := e];
      }
    }
  }

  // ---- Replaying the whole file ----

  function KeyOf(r: Row): seq<byte> { r.key }

  /** What a row stands for at some time. */
  function LiveEntry(r: Row, now: int): Option<Entry> {
    if Kept(r, now) then Some(Entry(Meaning(r.obj).value, r.expire)) else None
  }

  function LiveAt(now: int): Row -> Option<Entry> {
    (r: Row) => LiveEntry(r, now)
  }

  predicate InRange(r: Row) {
    LLONG_MIN <= r.expire <= LLONG_MAX
  }

  /** Keys are unique in a database, and deadlines are values of a long long. */
  ghost predicate WellFormed(dbs: Databases) {
    UniqueKeys(dbs, KeyOf) && forall j, i :: IsRow(dbs, j, i) ==> InRange(dbs[j][i])
  }

  lemma RowStep(d: Keyspace, dbs: Databases, j: nat, i: nat, now: int)
    requires WellFormed(dbs) && IsRow(dbs, j, i) && Live(d, dbs, j, i, KeyOf, LiveAt(now))
    ensures var r := Play(d, j, RowCommands(dbs[j][i], now));
            r.1 == j && Live(r.0, dbs, j, i + 1, KeyOf, LiveAt(now))
  {
    var r := dbs[j][i];
    hide UniqueKeys, Live, Play, RowCommands, Meaning;
    LiveStep(d, dbs, j, i, KeyOf, LiveAt(now));
    assert KeyOf(r) == r.key;
    RowReplay(d, j, r, now);
  }

  lemma {:induction false} DbReplay(d: Keyspace, dbs: Databases, j: nat, i: nat, now: int)
    requires WellFormed(dbs) && j < |dbs| && i <= |dbs[j]| && Live(d, dbs, j, i, KeyOf, LiveAt(now))
    ensures var r := Play(d, j, DbCommands(dbs[j], i, now)); r.1 == j && Live(r.0, dbs, j, |dbs[j]|, KeyOf, LiveAt(now))
    decreases |dbs[j]| - i
  {
    if i == |dbs[j]| {
      assert Play(d, j, []) == (d, j);
    } else {
      var r := dbs[j][i];
      hide Live, Play, WellFormed, RowCommands;
      RowStep(d, dbs, j, i, now);
      PlayAppend(d, j, RowCommands(r, now), DbCommands(dbs[j], i + 1, now));
      DbReplay(Play(d, j, RowCommands(r, now)).0, dbs, j, i + 1, now);
    }
  }

  lemma SelectPlays(d: Keyspace, db: int, j: AofSpec.DbId)
    ensures Play(d, db, [AofSpec.SelectCommand(j)]) == (d, j)
  {
    var cmd, none: seq<Args> := AofSpec.SelectCommand(j), [];
    AofSpec.SelectSelects(j);
    assert [cmd][..0] == none;
    hide AofSpec.SelectCommand, AofSpec.Selected;
    assert AofSpec.Replay(Exec, d, db, none) == (d, db);
  }

  lemma SelectedReplay(d: Keyspace, db: int, j: AofSpec.DbId, cmds: seq<Args>, rest: seq<Args>)
    requires Play(d, j, cmds).1 == j
    ensures Play(d, db, ([AofSpec.SelectCommand(j)] + cmds) + rest) == Play(Play(d, j, cmds).0, j, rest)
  {
    var sel := [AofSpec.SelectCommand(j)];
    SelectPlays(d, db, j);
    hide *;
    PlayAppend(d, db, sel, cmds);
    PlayAppend(d, db, sel + cmds, rest);
  }

  lemma {:induction false} FileReplay(d: Keyspace, db: int, dbs: Databases, j: nat, now: int)
    requires WellFormed(dbs) && j <= |dbs| && Live(d, dbs, j, 0, KeyOf, LiveAt(now))
    ensures IsLive(Play(d, db, FileCommands(dbs, j, now)).0, dbs, KeyOf, LiveAt(now))
    decreases |dbs| - j
  {
    hide *;
    FileCommandsAre(d, db, dbs, j, now);
    if j < |dbs| {
      var rest := FileCommands(dbs, j + 1, now);
      if dbs[j] == [] {
        LiveNext(d, dbs, j, KeyOf, LiveAt(now));
        FileReplay(d, db, dbs, j + 1, now);
      } else {
        var cmds := DbCommands(dbs[j], 0, now);
        DbReplay(d, dbs, j, 0, now);
        SelectedReplay(d, db, j, cmds, rest);
        LiveNext(Play(d, j, cmds).0, dbs, j, KeyOf, LiveAt(now));
        FileReplay(Play(d, j, cmds).0, j, dbs, j + 1, now);
      }
    } else {
      LiveEnds(d, dbs, now);
    }
  }

  lemma LiveEnds(d: Keyspace, dbs: Databases, now: int)
    requires Live(d, dbs, |dbs|, 0, KeyOf, LiveAt(now))
    ensures IsLive(d, dbs, KeyOf, LiveAt(now))
  {
    hide Live;
  }

  lemma FileCommandsAre(d: Keyspace, db: int, dbs: Databases, j: nat, now: int)
    requires j <= |dbs|
    ensures j == |dbs| ==> Play(d, db, FileCommands(dbs, j, now)) == (d, db)
    ensures j < |dbs| && dbs[j] == [] ==> FileCommands(dbs, j, now) == FileCommands(dbs, j + 1, now)
    ensures j < |dbs| && dbs[j] != [] ==>
              FileCommands(dbs, j, now)
              == ([AofSpec.SelectCommand(j)] + DbCommands(dbs[j], 0, now)) + FileCommands(dbs, j + 1, now)
  {
    hide DbCommands, AofSpec.SelectCommand;
    if j == |dbs| { assert Play(d, db, []) == (d, db); }
  }

  // ---- The file as a log ----

  /** Strings are no longer than the protocol allows. */
  predicate SizeOk(o: Obj) {
    match o
    case StringObj(s) => |Text(s)| <= MAX_BULK
    case ListObj(items) => forall i :: 0 <= i < |items| ==> |Text(items[i])| <= MAX_BULK
    case SetObj(members) => forall i :: 0 <= i < |members| ==> |Text(members[i])| <= MAX_BULK
    case HashObj(fields) =>
      forall i :: 0 <= i < |fields| ==> |Text(fields[i].0)| <= MAX_BULK && |Text(fields[i].1)| <= MAX_BULK
  }

  ghost predicate SizesOk(dbs: Databases) {
    forall j, i :: IsRow(dbs, j, i) ==> |dbs[j][i].key| <= MAX_BULK && SizeOk(dbs[j][i].obj)
  }

  ghost predicate ItemsFit(items: seq<Args>) {
    forall i :: 0 <= i < |items| ==> |items[i]| <= 2 && forall k :: 0 <= k < |items[i]| ==> |items[i][k]| <= MAX_BULK
  }

  lemma {:induction false} FlatFits(items: seq<Args>)
    requires ItemsFit(items)
    ensures |Flat(items)| <= 2 * |items| && forall k :: 0 <= k < |Flat(items)| ==> |Flat(items)[k]| <= MAX_BULK
    decreases |items|
  {
    if items != [] {
      FlatFits(items[1..]);
    }
  }

  lemma GoodConcat(a: seq<Args>, b: seq<Args>)
    requires RespRoundTrip.GoodCommands(a) && RespRoundTrip.GoodCommands(b)
    ensures RespRoundTrip.GoodCommands(a + b)
  {
  }

  lemma {:induction false} ChunksFit(name: seq<byte>, key: seq<byte>, items: seq<Args>)
    requires ItemsFit(items) && |name| <= MAX_BULK && |key| <= MAX_BULK
    ensures RespRoundTrip.GoodCommands(Chunks(name, key, items))
    decreases |items|
  {
    if items != [] {
      var n := ChunkSize(|items|);
      FlatFits(items[..n]);
      ChunksFit(name, key, items[n..]);
      var cmd := ChunkCommand(name, key, items[..n]);
      hide Flat, Chunks;
      assert RespRoundTrip.GoodArgs(cmd);
      hide RespRoundTrip.GoodArgs, ChunkCommand, ItemsFit;
      assert RespRoundTrip.GoodCommands([cmd]);
      GoodConcat([cmd], Chunks(name, key, items[n..]));
      assert Chunks(name, key, items) == [cmd] + Chunks(name, key, items[n..]);
    }
  }

  lemma RowFits(r: Row, now: int)
    requires |r.key| <= MAX_BULK && SizeOk(r.obj) && InRange(r)
    ensures RespRoundTrip.GoodCommands(RowCommands(r, now))
  {
    match r.obj {
      case StringObj(s) =>
      case ListObj(items) => ChunksFit(RPUSH, r.key, Singles(items));
      case SetObj(members) => ChunksFit(SADD, r.key, Singles(members));
      case HashObj(fields) => ChunksFit(HMSET, r.key, Pairs(fields));
    }
    hide Chunks, Singles, Pairs;
    var tail := if r.expire != -1 then [[PEXPIREAT, r.key, Ll2String(r.expire)]] else [];
    TextFits(r.expire);
    hide Ll2String;
    assert RespRoundTrip.GoodCommands(ObjCommands(r.key, r.obj));
    assert RespRoundTrip.GoodCommands(tail);
    GoodConcat(ObjCommands(r.key, r.obj), tail);
  }

  lemma {:induction false} DbFits(dbs: Databases, j: nat, i: nat, now: int)
    requires SizesOk(dbs) && WellFormed(dbs) && j < |dbs| && i <= |dbs[j]|
    ensures RespRoundTrip.GoodCommands(DbCommands(dbs[j], i, now))
    decreases |dbs[j]| - i
  {
    if i < |dbs[j]| {
      assert IsRow(dbs, j, i);
      RowFits(dbs[j][i], now);
      DbFits(dbs, j, i + 1, now);
      hide RowCommands, WellFormed, SizesOk, RespRoundTrip.GoodCommands;
      GoodConcat(RowCommands(dbs[j][i], now), DbCommands(dbs[j], i + 1, now));
    }
  }

  lemma {:induction false} FileFits(dbs: Databases, j: nat, now: int)
    requires SizesOk(dbs) && WellFormed(dbs) && j <= |dbs|
    ensures RespRoundTrip.GoodCommands(FileCommands(dbs, j, now))
    decreases |dbs| - j
  {
    if j < |dbs| {
      DbFits(dbs, j, 0, now);
      AofSpec.SelectSelects(j);
      hide WellFormed, SizesOk, AofSpec.SelectCommand, RespRoundTrip.GoodArgs;
      assert RespRoundTrip.GoodCommands([AofSpec.SelectCommand(j)]);
      GoodConcat([AofSpec.SelectCommand(j)], DbCommands(dbs[j], 0, now));
      FileFits(dbs, j + 1, now);
      hide RespRoundTrip.GoodCommands;
      assert [] + FileCommands(dbs, j + 1, now) == FileCommands(dbs, j + 1, now);
      if dbs[j] != [] {
        GoodConcat([AofSpec.SelectCommand(j)] + DbCommands(dbs[j], 0, now), FileCommands(dbs, j + 1, now));
      }
    }
  }

  // ---- Rewriting in the background ----

  /** A command that a rewrite writes to build a value or to set a deadline. */
  predicate IsBuilding(cmd: Args) {
    |cmd| >= 3 && (cmd[0] == SET || cmd[0] == PEXPIREAT || cmd[0] == RPUSH || cmd[0] == SADD || cmd[0] == HMSET)
  }

  predicate OfRewrite(log: seq<Args>) {
    forall i :: 0 <= i < |log| ==> AofSpec.Selected(log[i]).Some? || IsBuilding(log[i])
  }

  /** The commands of a rewrite do what Exec says; what all other commands do is left open. */
  ghost predicate Builds(apply: AofSpec.Apply<Keyspace>) {
    forall d, db, cmd :: IsBuilding(cmd) ==> apply(d, db, cmd) == Exec(d, db, cmd)
  }

  lemma {:induction false} ReplayAgrees(apply: AofSpec.Apply<Keyspace>, d: Keyspace, db: int, log: seq<Args>)
    requires Builds(apply) && OfRewrite(log)
    ensures AofSpec.Replay(apply, d, db, log) == Play(d, db, log)
    decreases |log|
  {
    if log != [] {
      ReplayAgrees(apply, d, db, log[..|log| - 1]);
      hide Exec, AofSpec.Selected, IsBuilding;
    }
  }

  lemma OfRewriteConcat(a: seq<Args>, b: seq<Args>)
    requires OfRewrite(a) && OfRewrite(b)
    ensures OfRewrite(a + b)
  {
    hide AofSpec.Selected, IsBuilding;
  }

  lemma {:induction false} ChunksOfRewrite(name: seq<byte>, key: seq<byte>, items: seq<Args>)
    requires GoodItems(name, items) && (name == RPUSH || name == SADD || name == HMSET)
    ensures OfRewrite(Chunks(name, key, items))
    decreases |items|
  {
    if items != [] {
      var n := ChunkSize(|items|);
      GoodParts(name, items, n);
      ChunkCommandIs(name, key, items[..n]);
      ChunksOfRewrite(name, key, items[n..]);
      hide AofSpec.Selected, ChunkCommand, GoodItems;
      OfRewriteConcat([ChunkCommand(name, key, items[..n])], Chunks(name, key, items[n..]));
    }
  }

  lemma RowOfRewrite(r: Row, now: int)
    ensures OfRewrite(RowCommands(r, now))
  {
    ItemsAreGood(r.obj);
    match r.obj {
      case StringObj(s) =>
      case ListObj(items) => ChunksOfRewrite(RPUSH, r.key, Singles(items));
      case SetObj(members) => ChunksOfRewrite(SADD, r.key, Singles(members));
      case HashObj(fields) => ChunksOfRewrite(HMSET, r.key, Pairs(fields));
    }
    hide Chunks, Singles, Pairs, AofSpec.Selected, Ll2String;
    var tail := if r.expire != -1 then [[PEXPIREAT, r.key, Ll2String(r.expire)]] else [];
    assert OfRewrite(ObjCommands(r.key, r.obj)) && OfRewrite(tail);
    OfRewriteConcat(ObjCommands(r.key, r.obj), tail);
  }

  lemma {:induction false} DbOfRewrite(rows: seq<Row>, i: nat, now: int)
    requires i <= |rows|
    ensures OfRewrite(DbCommands(rows, i, now))
    decreases |rows| - i
  {
    if i < |rows| {
      RowOfRewrite(rows[i], now);
      DbOfRewrite(rows, i + 1, now);
      hide OfRewrite, RowCommands;
      OfRewriteConcat(RowCommands(rows[i], now), DbCommands(rows, i + 1, now));
    }
  }

  lemma {:induction false} FileOfRewrite(dbs: Databases, j: nat, now: int)
    requires j <= |dbs|
    ensures OfRewrite(FileCommands(dbs, j, now))
    decreases |dbs| - j
  {
    if j < |dbs| {
      var rest := FileCommands(dbs, j + 1, now);
      FileOfRewrite(dbs, j + 1, now);
      DbOfRewrite(dbs[j], 0, now);
      AofSpec.SelectSelects(j);
      hide AofSpec.Selected, AofSpec.SelectCommand, IsBuilding, DbCommands;
      var sel := [AofSpec.SelectCommand(j)];
      OfRewriteConcat(sel, DbCommands(dbs[j], 0, now));
      OfRewriteConcat(sel + DbCommands(dbs[j], 0, now), rest);
      hide OfRewrite;
      assert [] + rest == rest;
    }
  }

  ghost predicate SnapshotOf(dbs: Databases, now: int, data: Keyspace, bytes: seq<byte>) {
    && WellFormed(dbs) && SizesOk(dbs) && IsLive(data, dbs, KeyOf, LiveAt(now))
    && bytes == PrintAll(FileCommands(dbs, 0, now))
  }

  /** What rewriteAppendOnlyFile writes for this data, in whatever order its tables list it. */
  ghost predicate IsSnapshot(data: Keyspace, bytes: seq<byte>) {
    exists dbs: Databases, now: int :: SnapshotOf(dbs, now, data, bytes)
  }

  lemma SnapshotLogged(apply: AofSpec.Apply<Keyspace>, data: Keyspace, bytes: seq<byte>)
    requires Builds(apply) && IsSnapshot(data, bytes)
    ensures AofSpec.Logged(apply, map[], bytes, data, -1)
  {
    var dbs: Databases, now: int :| SnapshotOf(dbs, now, data, bytes);
    var log := FileCommands(dbs, 0, now);
    assert Live(map[], dbs, 0, 0, KeyOf, LiveAt(now));
    FileReplay(map[], 0, dbs, 0, now);
    LiveIsUnique(Play(map[], 0, log).0, data, dbs, KeyOf, LiveAt(now));
    FileFits(dbs, 0, now);
    FileOfRewrite(dbs, 0, now);
    ReplayAgrees(apply, map[], 0, log);
    hide FileCommands, Exec, WellFormed, IsLive, SizesOk, Live, Builds, OfRewrite;
    assert AofSpec.IsLog(apply, map[], log, bytes, data, -1);
  }

  /**
    The bytes of a rewrite are a log of exactly the data that has not expired: loading them rebuilds it, whatever
    lies in how many databases.  So they are the snapshot that a background rewrite installs.
   */
  lemma RewriteRebuildsLive(dbs: Databases, now: int, data: Keyspace)
    requires WellFormed(dbs) && SizesOk(dbs) && IsLive(data, dbs, KeyOf, LiveAt(now))
    ensures AofSpec.Logged(Exec, map[], PrintAll(FileCommands(dbs, 0, now)), data, -1)
    ensures AofSpec.Rebuilds(Exec, map[], PrintAll(FileCommands(dbs, 0, now)), data)
  {
    var bytes := PrintAll(FileCommands(dbs, 0, now));
    assert Builds(Exec);
    assert SnapshotOf(dbs, now, data, bytes);
    hide *;
    SnapshotLogged(Exec, data, bytes);
    AofSpec.LoggedRebuilds(Exec, map[], bytes, data, -1);
  }

  /** Every child writes what rewriteAppendOnlyFile writes for the data it was forked with. */
  ghost predicate Occurs(apply: AofSpec.Apply<Keyspace>, s: AofSpec.Server<Keyspace>, e: AofSpec.Event) {
    match e
    case StartRewrite(_, snapshot) => IsSnapshot(s.data, snapshot)
    case StartAof(_, _, snapshot) => s.state == AofSpec.Off && IsSnapshot(s.data, snapshot)
    case _ => AofSpec.Enabled(apply, map[], s, e)
  }

  lemma OccursEnabled(apply: AofSpec.Apply<Keyspace>, s: AofSpec.Server<Keyspace>, e: AofSpec.Event)
    requires Builds(apply) && Occurs(apply, s, e)
    ensures AofSpec.Enabled(apply, map[], s, e)
  {
    hide Builds, IsSnapshot, AofSpec.Logged;
    match e
    case StartRewrite(_, snapshot) => SnapshotLogged(apply, s.data, snapshot);
    case StartAof(_, _, snapshot) => SnapshotLogged(apply, s.data, snapshot);
    case _ =>
  }

  ghost predicate AllOccur(apply: AofSpec.Apply<Keyspace>, s: AofSpec.Server<Keyspace>, es: seq<AofSpec.Event>)
    requires Builds(apply)
    decreases |es|
  {
    es == [] ||
    (Occurs(apply, s, es[0]) &&
     (OccursEnabled(apply, s, es[0]); AllOccur(apply, AofSpec.Step(apply, map[], s, es[0]), es[1..])))
  }

  lemma {:induction false} AllOccurEnabled(apply: AofSpec.Apply<Keyspace>, s: AofSpec.Server<Keyspace>,
                                           es: seq<AofSpec.Event>)
    requires Builds(apply) && AllOccur(apply, s, es)
    ensures AofSpec.AllEnabled(apply, map[], s, es)
    decreases |es|
  {
    hide Builds, Occurs, AofSpec.Step, AofSpec.Enabled;
    if es != [] {
      OccursEnabled(apply, s, es[0]);
      AllOccurEnabled(apply, AofSpec.Step(apply, map[], s, es[0]), es[1..]);
    }
  }

  /**
    Logging and rewriting together, with nothing left to assume about the child: whatever the other commands do, after
    any run the log rebuilds the data, and so does what the child writes, followed by the rewrite buffer.
   */
  lemma RewritingLogRebuilds(apply: AofSpec.Apply<Keyspace>, s0: AofSpec.Server<Keyspace>, es: seq<AofSpec.Event>)
    requires Builds(apply) && AofSpec.Booted(apply, map[], s0) && AllOccur(apply, s0, es)
    ensures AofSpec.AllEnabled(apply, map[], s0, es)
    ensures var s := AofSpec.Run(apply, map[], s0, es);
            && (s.state == AofSpec.On ==>
                  s.path in s.files && AofSpec.Rebuilds(apply, map[], s.files[s.path] + s.buf, s.data))
            && (s.state != AofSpec.Off && s.child.Some? ==>
                  AofSpec.Rebuilds(apply, map[], s.child.value + s.diff, s.data))
  {
    hide *;
    AllOccurEnabled(apply, s0, es);
    AofSpec.LogAlwaysRebuilds(apply, map[], s0, es);
  }
}
