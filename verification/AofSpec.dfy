/**
  Logging commands to the append only file and rewriting it in the background (redis-stable/src/aof.c), as a state
  machine over bytes.  The class in Aof.dfy takes these steps in place.
 */
module AofSpec {
  import opened Bytes
  import opened Decimal
  import opened RespSpec
  import RespRoundTrip
  import AofLog

  /** "SELECT" */
  const SELECT: seq<byte> := [83, 69, 76, 69, 67, 84]

  /** How a command changes the data when it runs against a database. */
  type Apply<!D> = (D, int, Args) -> D

  /** The number of a database. */
  type DbId = n: int | 0 <= n < 0x8000_0000

  // ---- What a log stands for ----

  /** SELECT with a database number: the only command that changes the database a log runs against. */
  function Selected(cmd: Args): Option<int> {
    if |cmd| == 2 && cmd[0] == SELECT then String2ll(cmd[1]) else None
  }

  function Run1<D>(apply: Apply<D>, d: D, db: int, cmd: Args): (D, int) {
    match Selected(cmd)
    case Some(n) => (d, n)
    case None => (apply(d, db, cmd), db)
  }

  /** The data and the selected database after replaying a log. */
  function Replay<D>(apply: Apply<D>, d: D, db: int, log: seq<Args>): (D, int) {
    if log == [] then (d, db)
    else
      var (d1, db1) := Replay(apply, d, db, log[..|log| - 1]);
      Run1(apply, d1, db1, log[|log| - 1])
  }

  /** The bytes load, as a log that rebuilds data from nothing and, if known, ends in the selected database. */
  ghost predicate Logged<D>(apply: Apply<D>, empty: D, bytes: seq<byte>, data: D, selected: int) {
    exists log :: IsLog(apply, empty, log, bytes, data, selected)
  }

  ghost predicate IsLog<D>(apply: Apply<D>, empty: D, log: seq<Args>, bytes: seq<byte>, data: D, selected: int) {
    && RespRoundTrip.GoodCommands(log) && PrintAll(log) == bytes
    && Replay(apply, empty, 0, log).0 == data
    && (selected != -1 ==> Replay(apply, empty, 0, log).1 == selected)
  }

  lemma {:induction false} PrintAllSnoc(log: seq<Args>, cmd: Args)
    ensures PrintAll(log + [cmd]) == PrintAll(log) + PrintCommand(cmd)
  {
    if log == [] {
      assert log + [cmd] == [cmd];
      assert PrintAll([cmd]) == PrintCommand(cmd) + PrintAll([]);
    } else {
      assert (log + [cmd])[1..] == log[1..] + [cmd];
      PrintAllSnoc(log[1..], cmd);
      hide PrintCommand;
      assert PrintCommand(log[0]) + (PrintAll(log[1..]) + PrintCommand(cmd))
          == (PrintCommand(log[0]) + PrintAll(log[1..])) + PrintCommand(cmd);
    }
  }

  function SelectCommand(db: DbId): Args {
    [SELECT, Ll2String(db)]
  }

  lemma SelectSelects(db: DbId)
    ensures Selected(SelectCommand(db)) == Some(db) && RespRoundTrip.GoodArgs(SelectCommand(db))
  {
    String2llIsCanonical(Ll2String(db), db);
    Pow10Is();
    DigitsLength(db, 10);
  }

  lemma ReplaySnoc<D>(apply: Apply<D>, empty: D, log: seq<Args>, cmd: Args)
    ensures Replay(apply, empty, 0, log + [cmd])
         == Run1(apply, Replay(apply, empty, 0, log).0, Replay(apply, empty, 0, log).1, cmd)
  {
    assert (log + [cmd])[..|log|] == log;
  }

  lemma LogExtends<D>(apply: Apply<D>, empty: D, log: seq<Args>, bytes: seq<byte>, data: D, selected: int,
                      cmd: Args, data': D, db': int)
    requires IsLog(apply, empty, log, bytes, data, selected) && RespRoundTrip.GoodArgs(cmd)
    requires Run1(apply, data, Replay(apply, empty, 0, log).1, cmd) == (data', db')
    ensures Logged(apply, empty, bytes + PrintCommand(cmd), data', db')
  {
    PrintAllSnoc(log, cmd);
    ReplaySnoc(apply, empty, log, cmd);
    hide PrintAll, PrintCommand, Replay, RespRoundTrip.GoodArgs;
    assert IsLog(apply, empty, log + [cmd], bytes + PrintCommand(cmd), data', db');
  }

  /** A SELECT at the end of a log. */
  lemma SelectLogged<D>(apply: Apply<D>, empty: D, bytes: seq<byte>, data: D, selected: int, db: DbId)
    requires Logged(apply, empty, bytes, data, selected)
    ensures Logged(apply, empty, bytes + PrintCommand(SelectCommand(db)), data, db)
  {
    var log :| IsLog(apply, empty, log, bytes, data, selected);
    SelectSelects(db);
    hide IsLog, Replay, PrintCommand, SelectCommand, Selected;
    LogExtends(apply, empty, log, bytes, data, selected, SelectCommand(db), data, db);
  }

  /** A command at the end of a log that ends in its database. */
  lemma CommandLogged<D>(apply: Apply<D>, empty: D, bytes: seq<byte>, data: D, db: DbId, cmd: Args)
    requires Logged(apply, empty, bytes, data, db) && RespRoundTrip.GoodArgs(cmd) && Selected(cmd).None?
    ensures Logged(apply, empty, bytes + PrintCommand(cmd), apply(data, db, cmd), db)
  {
    var log :| IsLog(apply, empty, log, bytes, data, db);
    hide PrintCommand, Selected, Replay;
    LogExtends(apply, empty, log, bytes, data, db, cmd, apply(data, db, cmd), db);
  }

  // ---- The server ----

  datatype AofState = Off | On | WaitRewrite

  /** server.aof_fd: -1, a descriptor of a file, or the number of a descriptor that was closed again. */
  datatype Fd = NoFd | Open(inode: nat) | Stale

  /**
    files holds the contents of the files by inode and path is the one the configured name refers to.  child holds
    what the rewriting child will have written to its temporary file when it succeeds, and diff the contents of the
    rewrite buffer.
   */
  datatype Server<D> = Server(state: AofState, fd: Fd, files: map<nat, seq<byte>>, path: nat, nextInode: nat,
                              buf: seq<byte>, selected: int, child: Option<seq<byte>>, diff: seq<byte>,
                              scheduled: bool, everysec: bool, postponed: int, data: D)

  datatype Event = Write(db: DbId, cmd: Args)
                 | Flush(force: bool, syncing: bool, now: int)
                 | StartRewrite(canFork: bool, snapshot: seq<byte>)
                 | ChildDone(ok: bool)
                 | StartAof(canOpen: bool, canFork: bool, snapshot: seq<byte>)
                 | StopAof

  /** What feedAppendOnlyFile appends. */
  function Fed(selected: int, db: DbId, cmd: Args): seq<byte> {
    (if db != selected then PrintCommand(SelectCommand(db)) else []) + PrintCommand(cmd)
  }

  /** feedAppendOnlyFile. */
  function Feed<D>(s: Server<D>, db: DbId, cmd: Args): Server<D> {
    var out := Fed(s.selected, db, cmd);
    s.(selected := db,
       buf := if s.state == On then s.buf + out else s.buf,
       diff := if s.child.Some? then s.diff + out else s.diff)
  }

  /** A command that changes the data, and its propagation. */
  function DoWrite<D>(apply: Apply<D>, s: Server<D>, db: DbId, cmd: Args): Server<D> {
    var s1 := s.(data := apply(s.data, db, cmd));
    if s.state != Off then Feed(s1, db, cmd) else s1
  }

  /** write(2) of the whole buffer to the open file. */
  function WriteOut<D>(s: Server<D>): Server<D> {
    var s1 := s.(buf := [], postponed := 0);
    if s.fd.Open? && s.fd.inode in s.files then s1.(files := s.files[s.fd.inode := s.files[s.fd.inode] + s.buf]) else s1
  }

  /** flushAppendOnlyFile; the write may be put off while a background fsync runs, but for less than two seconds. */
  function DoFlush<D>(s: Server<D>, force: bool, syncing: bool, now: int): Server<D> {
    if s.buf == [] then s
    else if s.everysec && !force && syncing && s.postponed == 0 then s.(postponed := now)
    else if s.everysec && !force && syncing && now - s.postponed < 2 then s
    else WriteOut(s)
  }

  /** A flush that does not wait for a background fsync, or that has waited for two seconds. */
  predicate Due<D>(s: Server<D>, force: bool, syncing: bool, now: int) {
    !s.everysec || force || !syncing || (s.postponed != 0 && now >= s.postponed + 2)
  }

  /** rewriteAppendOnlyFileBackground; the result says whether a child was started. */
  function DoStartRewrite<D>(s: Server<D>, canFork: bool, snapshot: seq<byte>): (Server<D>, bool) {
    if s.child.Some? || !canFork then (s, false)
    else (s.(child := Some(snapshot), scheduled := false, selected := -1), true)
  }

  /** Lines 1051-1148: the difference is appended to the temporary file, which takes the place of the log. */
  function SwitchFile<D>(s: Server<D>): Server<D>
    requires s.child.Some?
  {
    var n := s.nextInode;
    var s1 := s.(files := s.files[n := s.child.value + s.diff], path := n, nextInode := n + 1);
    var s2 := if s.fd == NoFd then s1 else s1.(fd := Open(n), selected := -1, buf := []);
    if s.state == WaitRewrite then s2.(state := On) else s2
  }

  /** backgroundRewriteDoneHandler; ok when the child succeeded and every file operation of the handler did. */
  function DoChildDone<D>(s: Server<D>, ok: bool): Server<D>
    requires s.child.Some?
  {
    var s1 := if ok then SwitchFile(s) else s;
    s1.(diff := [], child := None, scheduled := s1.scheduled || s1.state == WaitRewrite)
  }

  /** startAppendOnly. */
  function DoStartAof<D>(s: Server<D>, canOpen: bool, canFork: bool, snapshot: seq<byte>): Server<D> {
    if !canOpen then s.(fd := NoFd)
    else
      var (s1, started) := DoStartRewrite(s.(fd := Open(s.path)), canFork, snapshot);
      if started then s1.(state := WaitRewrite) else s1.(fd := Stale)
  }

  /** stopAppendOnly. */
  function DoStopAof<D>(s: Server<D>): Server<D> {
    var s1 := DoFlush(s, true, false, 0).(fd := NoFd, selected := -1, state := Off);
    if s.child.Some? then s1.(diff := [], child := None) else s1
  }

  /** When an event can occur: the assertions of the source, and what its callers guarantee. */
  ghost predicate Enabled<D>(apply: Apply<D>, empty: D, s: Server<D>, e: Event) {
    match e
    case Write(db, cmd) => RespRoundTrip.GoodArgs(cmd) && Selected(cmd).None?
    case Flush(_, _, _) => true
    case StartRewrite(_, snapshot) => Logged(apply, empty, snapshot, s.data, -1)
    case ChildDone(_) => s.child.Some?
    case StartAof(_, _, snapshot) => s.state == Off && Logged(apply, empty, snapshot, s.data, -1)
    case StopAof => s.state != Off
  }

  ghost function Step<D>(apply: Apply<D>, empty: D, s: Server<D>, e: Event): Server<D>
    requires Enabled(apply, empty, s, e)
  {
    match e
    case Write(db, cmd) => DoWrite(apply, s, db, cmd)
    case Flush(force, syncing, now) => DoFlush(s, force, syncing, now)
    case StartRewrite(canFork, snapshot) => DoStartRewrite(s, canFork, snapshot).0
    case ChildDone(ok) => DoChildDone(s, ok)
    case StartAof(canOpen, canFork, snapshot) => DoStartAof(s, canOpen, canFork, snapshot)
    case StopAof => DoStopAof(s)
  }

  // ---- The invariant ----

  /** With logging on, the file and the buffer rebuild the data; so do the snapshot and the difference, if logged. */
  ghost predicate Inv<D>(apply: Apply<D>, empty: D, s: Server<D>) {
    && s.path in s.files && s.nextInode !in s.files && (forall i :: i in s.files ==> i < s.nextInode)
    && (s.state == On ==> s.fd == Open(s.path) && Logged(apply, empty, s.files[s.path] + s.buf, s.data, s.selected))
    && (s.state == WaitRewrite ==> s.fd.Open? && (s.child.Some? || s.scheduled))
    && (s.state != On ==> s.buf == [])
    && (s.child.Some? && s.state != Off ==> Logged(apply, empty, s.child.value + s.diff, s.data, s.selected))
    && (s.child.None? || s.state == Off ==> s.diff == [])
  }

  lemma FedLogged<D>(apply: Apply<D>, empty: D, bytes: seq<byte>, data: D, selected: int, db: DbId, cmd: Args)
    requires Logged(apply, empty, bytes, data, selected) && RespRoundTrip.GoodArgs(cmd) && Selected(cmd).None?
    ensures Logged(apply, empty, bytes + Fed(selected, db, cmd), apply(data, db, cmd), db)
  {
    hide PrintCommand, Logged, SelectCommand;
    if db != selected {
      SelectLogged(apply, empty, bytes, data, selected, db);
      CommandLogged(apply, empty, bytes + PrintCommand(SelectCommand(db)), data, db, cmd);
      assert bytes + Fed(selected, db, cmd) == bytes + PrintCommand(SelectCommand(db)) + PrintCommand(cmd);
    } else {
      CommandLogged(apply, empty, bytes, data, db, cmd);
      assert Fed(selected, db, cmd) == PrintCommand(cmd);
    }
  }

  lemma SelectionForgotten<D>(apply: Apply<D>, empty: D, bytes: seq<byte>, data: D, selected: int)
    requires Logged(apply, empty, bytes, data, selected)
    ensures Logged(apply, empty, bytes, data, -1)
  {
    var log :| IsLog(apply, empty, log, bytes, data, selected);
    assert IsLog(apply, empty, log, bytes, data, -1);
  }

  lemma WriteKeeps<D>(apply: Apply<D>, empty: D, s: Server<D>, db: DbId, cmd: Args)
    requires Inv(apply, empty, s) && RespRoundTrip.GoodArgs(cmd) && Selected(cmd).None?
    ensures Inv(apply, empty, DoWrite(apply, s, db, cmd))
  {
    hide Logged, Fed;
    var out := Fed(s.selected, db, cmd);
    if s.state == On {
      FedLogged(apply, empty, s.files[s.path] + s.buf, s.data, s.selected, db, cmd);
      assert s.files[s.path] + s.buf + out == s.files[s.path] + (s.buf + out);
    }
    if s.child.Some? && s.state != Off {
      FedLogged(apply, empty, s.child.value + s.diff, s.data, s.selected, db, cmd);
      assert s.child.value + s.diff + out == s.child.value + (s.diff + out);
    }
  }

  lemma FlushKeeps<D>(apply: Apply<D>, empty: D, s: Server<D>, force: bool, syncing: bool, now: int)
    requires Inv(apply, empty, s)
    ensures var s' := DoFlush(s, force, syncing, now);
            && Inv(apply, empty, s') && (force ==> s'.buf == []) && s'.state == s.state && s'.child == s.child
            && (s'.buf == [] <==> s.buf == [] || Due(s, force, syncing, now))
  {
    hide Logged;
    if s.state == On {
      assert s.files[s.path] + s.buf + [] == s.files[s.path] + s.buf;
    }
  }

  lemma StartRewriteKeeps<D>(apply: Apply<D>, empty: D, s: Server<D>, canFork: bool, snapshot: seq<byte>)
    requires Inv(apply, empty, s) && Logged(apply, empty, snapshot, s.data, -1)
    ensures Inv(apply, empty, DoStartRewrite(s, canFork, snapshot).0)
  {
    hide Logged;
    assert snapshot + [] == snapshot;
    if s.state == On {
      SelectionForgotten(apply, empty, s.files[s.path] + s.buf, s.data, s.selected);
    }
  }

  lemma ChildDoneKeeps<D>(apply: Apply<D>, empty: D, s: Server<D>, ok: bool)
    requires Inv(apply, empty, s) && s.child.Some?
    ensures Inv(apply, empty, DoChildDone(s, ok))
  {
    hide Logged;
    if ok && s.state != Off {
      SelectionForgotten(apply, empty, s.child.value + s.diff, s.data, s.selected);
      assert s.child.value + s.diff + [] == s.child.value + s.diff;
    }
  }

  lemma StartAofKeeps<D>(apply: Apply<D>, empty: D, s: Server<D>, canOpen: bool, canFork: bool, snapshot: seq<byte>)
    requires Inv(apply, empty, s) && s.state == Off && Logged(apply, empty, snapshot, s.data, -1)
    ensures Inv(apply, empty, DoStartAof(s, canOpen, canFork, snapshot))
  {
    hide Logged;
    assert snapshot + [] == snapshot;
  }

  lemma StopAofKeeps<D>(apply: Apply<D>, empty: D, s: Server<D>)
    requires Inv(apply, empty, s)
    ensures Inv(apply, empty, DoStopAof(s))
  {
    FlushKeeps(apply, empty, s, true, false, 0);
    hide Logged;
  }

  lemma StepKeeps<D>(apply: Apply<D>, empty: D, s: Server<D>, e: Event)
    requires Inv(apply, empty, s) && Enabled(apply, empty, s, e)
    ensures Inv(apply, empty, Step(apply, empty, s, e))
  {
    hide Inv, Logged;
    match e
    case Write(db, cmd) => WriteKeeps(apply, empty, s, db, cmd);
    case Flush(force, syncing, now) => FlushKeeps(apply, empty, s, force, syncing, now);
    case StartRewrite(canFork, snapshot) => StartRewriteKeeps(apply, empty, s, canFork, snapshot);
    case ChildDone(ok) => ChildDoneKeeps(apply, empty, s, ok);
    case StartAof(canOpen, canFork, snapshot) => StartAofKeeps(apply, empty, s, canOpen, canFork, snapshot);
    case StopAof => StopAofKeeps(apply, empty, s);
  }

  // ---- Runs ----

  ghost predicate AllEnabled<D>(apply: Apply<D>, empty: D, s: Server<D>, es: seq<Event>)
    decreases |es|
  {
    es == [] || (Enabled(apply, empty, s, es[0]) && AllEnabled(apply, empty, Step(apply, empty, s, es[0]), es[1..]))
  }

  ghost function Run<D>(apply: Apply<D>, empty: D, s: Server<D>, es: seq<Event>): Server<D>
    requires AllEnabled(apply, empty, s, es)
    decreases |es|
  {
    if es == [] then s else Run(apply, empty, Step(apply, empty, s, es[0]), es[1..])
  }

  lemma {:induction false} RunKeeps<D>(apply: Apply<D>, empty: D, s: Server<D>, es: seq<Event>)
    requires Inv(apply, empty, s) && AllEnabled(apply, empty, s, es)
    ensures Inv(apply, empty, Run(apply, empty, s, es))
    decreases |es|
  {
    hide Inv, Step, Enabled;
    if es != [] {
      StepKeeps(apply, empty, s, es[0]);
      RunKeeps(apply, empty, Step(apply, empty, s, es[0]), es[1..]);
    }
  }

  /** A server started with logging on a file that rebuilds its data. */
  ghost predicate Booted<D>(apply: Apply<D>, empty: D, s: Server<D>) {
    exists bytes, everysec ::
      Logged(apply, empty, bytes, s.data, -1) &&
      s == Server(On, Open(0), map[0 := bytes], 0, 1, [], -1, None, [], false, everysec, 0, s.data)
  }

  /** Loading the file with what is still in the buffer rebuilds the data of the server. */
  ghost predicate Rebuilds<D(!new)>(apply: Apply<D>, empty: D, bytes: seq<byte>, data: D) {
    && AofLog.Load(bytes).Some?
    && Replay(apply, empty, 0, AofLog.Load(bytes).value).0 == data
  }

  lemma LoggedRebuilds<D(!new)>(apply: Apply<D>, empty: D, bytes: seq<byte>, data: D, selected: int)
    requires Logged(apply, empty, bytes, data, selected)
    ensures Rebuilds(apply, empty, bytes, data)
  {
    var log :| IsLog(apply, empty, log, bytes, data, selected);
    AofLog.LoadReadsBackPrinter(log);
  }

  /**
    After any run of writes, flushes, rewrites that succeed or fail, and switches of logging off and on: when logging
    is on, the log file and the buffer rebuild the data; and while a child rewrites, so would its file with the
    rewrite buffer appended, which is what the switch installs.
   */
  lemma LogAlwaysRebuilds<D(!new)>(apply: Apply<D>, empty: D, s0: Server<D>, es: seq<Event>)
    requires Booted(apply, empty, s0) && AllEnabled(apply, empty, s0, es)
    ensures var s := Run(apply, empty, s0, es);
            && (s.state == On ==> s.path in s.files && Rebuilds(apply, empty, s.files[s.path] + s.buf, s.data))
            && (s.state != Off && s.child.Some? ==> Rebuilds(apply, empty, s.child.value + s.diff, s.data))
            && (s.state == WaitRewrite ==> s.child.Some? || s.scheduled)
  {
    assert s0.files[s0.path] + s0.buf == s0.files[0];
    assert Inv(apply, empty, s0);
    RunKeeps(apply, empty, s0, es);
    var s := Run(apply, empty, s0, es);
    hide Logged, Rebuilds, Run, AllEnabled;
    if s.state == On {
      LoggedRebuilds(apply, empty, s.files[s.path] + s.buf, s.data, s.selected);
    }
    if s.state != Off && s.child.Some? {
      LoggedRebuilds(apply, empty, s.child.value + s.diff, s.data, s.selected);
    }
  }

  lemma ForcedFlushRebuilds<D(!new)>(apply: Apply<D>, empty: D, s: Server<D>)
    requires Inv(apply, empty, s) && s.state == On
    ensures var s' := DoFlush(s, true, false, 0);
            s'.path in s'.files && Rebuilds(apply, empty, s'.files[s'.path], s'.data)
  {
    FlushKeeps(apply, empty, s, true, false, 0);
    hide Logged, Rebuilds, DoFlush;
    var s' := DoFlush(s, true, false, 0);
    LoggedRebuilds(apply, empty, s'.files[s'.path] + s'.buf, s'.data, s'.selected);
    assert s'.files[s'.path] + [] == s'.files[s'.path];
  }

  /** A forced flush, and a switch to a rewritten file, leave a file that rebuilds the data by itself. */
  lemma FileAloneRebuilds<D(!new)>(apply: Apply<D>, empty: D, s: Server<D>)
    requires Inv(apply, empty, s)
    ensures s.state == On ==>
              var s' := DoFlush(s, true, false, 0);
              s'.path in s'.files && Rebuilds(apply, empty, s'.files[s'.path], s'.data)
    ensures s.state != Off && s.child.Some? ==>
              var s' := DoChildDone(s, true);
              s'.state == On && s'.path in s'.files && Rebuilds(apply, empty, s'.files[s'.path], s'.data)
  {
    if s.state == On { ForcedFlushRebuilds(apply, empty, s); }
    hide Logged, Rebuilds, DoFlush;
    if s.state != Off && s.child.Some? {
      LoggedRebuilds(apply, empty, s.child.value + s.diff, s.data, s.selected);
    }
  }

  /** The data after the writes among the events, in order. */
  function AfterWrites<D>(apply: Apply<D>, d: D, es: seq<Event>): D {
    if es == [] then d
    else AfterWrites(apply, if es[0].Write? then apply(d, es[0].db, es[0].cmd) else d, es[1..])
  }

  /** The data are what the writes make of them; everything else leaves them alone. */
  lemma {:induction false} DataIsWrites<D>(apply: Apply<D>, empty: D, s: Server<D>, es: seq<Event>)
    requires AllEnabled(apply, empty, s, es)
    ensures Run(apply, empty, s, es).data == AfterWrites(apply, s.data, es)
    decreases |es|
  {
    hide Logged, Fed, RespRoundTrip.GoodArgs, Selected;
    if es != [] {
      DataIsWrites(apply, empty, Step(apply, empty, s, es[0]), es[1..]);
    }
  }

  // ---- How much a crash can lose ----

  /** What a flush does to a buffer that is not empty: a postponed write waits for less than two seconds. */
  lemma FlushWritesUnlessPostponed<D>(s: Server<D>, force: bool, syncing: bool, now: int)
    requires s.buf != [] && s.fd.Open? && s.fd.inode in s.files
    ensures var s' := DoFlush(s, force, syncing, now);
            if Due(s, force, syncing, now) then
              && s'.buf == [] && s'.postponed == 0
              && s'.files == s.files[s.fd.inode := s.files[s.fd.inode] + s.buf]
              && s' == s.(buf := [], postponed := 0, files := s'.files)
            else
              s' == s.(postponed := if s.postponed == 0 then now else s.postponed)
  {
  }

  /** The data after each event of a run. */
  ghost function Moments<D>(apply: Apply<D>, empty: D, s: Server<D>, es: seq<Event>): seq<D>
    requires AllEnabled(apply, empty, s, es)
    decreases |es|
  {
    if es == [] then []
    else
      var s1 := Step(apply, empty, s, es[0]);
      [s1.data] + Moments(apply, empty, s1, es[1..])
  }

  /** The file alone is a log of the data of one of these moments. */
  ghost predicate FileHolds<D>(apply: Apply<D>, empty: D, s: Server<D>, ds: seq<D>) {
    s.path in s.files && exists i :: 0 <= i < |ds| && Logged(apply, empty, s.files[s.path], ds[i], -1)
  }

  /** Either the file is no older than these moments, or a write has been put off since time t at the latest. */
  ghost predicate Recent<D>(apply: Apply<D>, empty: D, s: Server<D>, ds: seq<D>, t: int) {
    FileHolds(apply, empty, s, ds) || (s.buf != [] && s.everysec && s.postponed != 0 && s.postponed <= t)
  }

  lemma MoreMoments<D>(apply: Apply<D>, empty: D, s: Server<D>, s': Server<D>, ds: seq<D>, d: D)
    requires FileHolds(apply, empty, s, ds) && s'.path == s.path && s.path in s'.files
    requires s'.files[s.path] == s.files[s.path]
    ensures FileHolds(apply, empty, s', ds + [d])
  {
    hide Logged;
    var i :| 0 <= i < |ds| && Logged(apply, empty, s.files[s.path], ds[i], -1);
    assert (ds + [d])[i] == ds[i];
  }

  lemma HoldsNow<D>(apply: Apply<D>, empty: D, s: Server<D>, ds: seq<D>, selected: int)
    requires s.path in s.files && Logged(apply, empty, s.files[s.path], s.data, selected)
    ensures FileHolds(apply, empty, s, ds + [s.data])
  {
    SelectionForgotten(apply, empty, s.files[s.path], s.data, selected);
    hide Logged;
    assert (ds + [s.data])[|ds|] == s.data;
  }

  /** A flush: it writes, or it leaves things as they are but for the note that it was put off. */
  lemma FlushRecent<D>(apply: Apply<D>, empty: D, s: Server<D>, ds: seq<D>, force: bool, syncing: bool, now: int,
                       t: int)
    requires Inv(apply, empty, s) && s.state == On
    requires Recent(apply, empty, s, ds, t) || (now != 0 && now <= t && s.postponed <= t)
    ensures Recent(apply, empty, DoFlush(s, force, syncing, now), ds + [s.data], t)
    ensures Recent(apply, empty, s, ds, t) && now >= t + 2 ==>
              FileHolds(apply, empty, DoFlush(s, force, syncing, now), ds + [s.data])
  {
    var s' := DoFlush(s, force, syncing, now);
    FlushKeeps(apply, empty, s, force, syncing, now);
    hide Logged, FileHolds;
    assert s'.path == s.path && s'.data == s.data;
    if s'.buf == [] {
      assert s'.files[s'.path] + [] == s'.files[s'.path];
      HoldsNow(apply, empty, s', ds, s'.selected);
    } else if FileHolds(apply, empty, s, ds) {
      MoreMoments(apply, empty, s, s', ds, s.data);
    }
  }

  /** The end of a child: the file is the new log, or nothing has changed. */
  lemma ChildDoneRecent<D>(apply: Apply<D>, empty: D, s: Server<D>, ds: seq<D>, ok: bool, t: int)
    requires Inv(apply, empty, s) && s.state == On && s.child.Some? && Recent(apply, empty, s, ds, t)
    ensures var s1 := DoChildDone(s, ok); s1.state == On && Recent(apply, empty, s1, ds + [s.data], t)
  {
    var s1 := DoChildDone(s, ok);
    ChildDoneKeeps(apply, empty, s, ok);
    hide Logged, FileHolds;
    if ok {
      assert s1.files[s1.path] + [] == s1.files[s1.path];
      HoldsNow(apply, empty, s1, ds, s1.selected);
    } else if FileHolds(apply, empty, s, ds) {
      MoreMoments(apply, empty, s, s1, ds, s1.data);
    }
  }

  /** An event that leaves the file alone, and does not shorten the buffer. */
  lemma QuietRecent<D>(apply: Apply<D>, empty: D, s: Server<D>, s1: Server<D>, ds: seq<D>, t: int)
    requires Recent(apply, empty, s, ds, t) && s.path in s.files
    requires s1.files == s.files && s1.path == s.path && s1.postponed == s.postponed && s1.everysec == s.everysec
    requires s.buf != [] ==> s1.buf != []
    ensures Recent(apply, empty, s1, ds + [s1.data], t)
  {
    hide Logged, FileHolds;
    if FileHolds(apply, empty, s, ds) { MoreMoments(apply, empty, s, s1, ds, s1.data); }
  }

  lemma StepRecent<D>(apply: Apply<D>, empty: D, s: Server<D>, ds: seq<D>, e: Event, t: int)
    requires Inv(apply, empty, s) && s.state == On && Enabled(apply, empty, s, e) && !e.StopAof?
    requires Recent(apply, empty, s, ds, t)
    ensures var s1 := Step(apply, empty, s, e); s1.state == On && Recent(apply, empty, s1, ds + [s1.data], t)
  {
    var s1 := Step(apply, empty, s, e);
    assert s.path in s.files;
    hide Inv, Logged, Recent, Fed;
    match e {
      case Flush(force, syncing, now) => FlushRecent(apply, empty, s, ds, force, syncing, now, t);
      case ChildDone(ok) => ChildDoneRecent(apply, empty, s, ds, ok, t);
      case _ => QuietRecent(apply, empty, s, s1, ds, t);
    }
  }

  lemma {:induction false} RunRecent<D>(apply: Apply<D>, empty: D, s: Server<D>, ds: seq<D>, es: seq<Event>, t: int)
    requires Inv(apply, empty, s) && s.state == On && AllEnabled(apply, empty, s, es)
    requires forall e :: e in es ==> !e.StopAof?
    requires Recent(apply, empty, s, ds, t)
    ensures var s' := Run(apply, empty, s, es);
            && Inv(apply, empty, s') && s'.state == On
            && Recent(apply, empty, s', ds + Moments(apply, empty, s, es), t)
    decreases |es|
  {
    hide Inv, Step, Enabled, Recent;
    if es == [] {
      assert ds + [] == ds;
    } else {
      var s1 := Step(apply, empty, s, es[0]);
      assert es[0] in es;
      StepKeeps(apply, empty, s, es[0]);
      StepRecent(apply, empty, s, ds, es[0], t);
      RunRecent(apply, empty, s1, ds + [s1.data], es[1..], t);
      assert ds + [s1.data] + Moments(apply, empty, s1, es[1..]) == ds + Moments(apply, empty, s, es);
    }
  }

  /** The bytes rebuild the data of one of these moments. */
  ghost predicate RebuildsOne<D(!new)>(apply: Apply<D>, empty: D, bytes: seq<byte>, ds: seq<D>) {
    exists i :: 0 <= i < |ds| && Rebuilds(apply, empty, bytes, ds[i])
  }

  /**
    As long as logging stays on, a crash loses at most two seconds of writes and what happens until the next flush: a
    flush leaves a file that by itself rebuilds the data of some moment since any flush two seconds or more earlier,
    whatever rewrites, writes and postponed flushes lie between.
   */
  lemma LosesAtMostTwoSeconds<D(!new)>(apply: Apply<D>, empty: D, s: Server<D>, syncing: bool, t: int, es: seq<Event>,
                                       force': bool, syncing': bool, t': int)
    requires Inv(apply, empty, s) && s.state == On && t != 0 && s.postponed <= t && t + 2 <= t'
    requires AllEnabled(apply, empty, DoFlush(s, false, syncing, t), es) && forall e :: e in es ==> !e.StopAof?
    ensures var s1 := DoFlush(s, false, syncing, t);
            var s2 := DoFlush(Run(apply, empty, s1, es), force', syncing', t');
            var ds := [s1.data] + Moments(apply, empty, s1, es);
            s2.path in s2.files && RebuildsOne(apply, empty, s2.files[s2.path], ds)
  {
    var s1 := DoFlush(s, false, syncing, t);
    FlushKeeps(apply, empty, s, false, syncing, t);
    FlushRecent(apply, empty, s, [], false, syncing, t, t);
    assert [] + [s.data] == [s1.data];
    hide Inv, DoFlush, Recent, Run, Moments, AllEnabled, RebuildsOne, FileHolds;
    RunRecent(apply, empty, s1, [s1.data], es, t);
    var s2, ds := Run(apply, empty, s1, es), [s1.data] + Moments(apply, empty, s1, es);
    FlushRecent(apply, empty, s2, ds, force', syncing', t', t);
    LastMoment(apply, empty, s1, es);
    HoldsRebuilds(apply, empty, DoFlush(s2, force', syncing', t'), ds, s2.data);
  }

  lemma HoldsRebuilds<D(!new)>(apply: Apply<D>, empty: D, s: Server<D>, ds: seq<D>, d: D)
    requires FileHolds(apply, empty, s, ds + [d]) && ds != [] && d == ds[|ds| - 1]
    ensures s.path in s.files && RebuildsOne(apply, empty, s.files[s.path], ds)
  {
    hide Logged, Rebuilds;
    var i :| 0 <= i < |ds| + 1 && Logged(apply, empty, s.files[s.path], (ds + [d])[i], -1);
    LoggedRebuilds(apply, empty, s.files[s.path], (ds + [d])[i], -1);
    assert Rebuilds(apply, empty, s.files[s.path], ds[if i < |ds| then i else |ds| - 1]);
  }

  lemma {:induction false} LastMoment<D>(apply: Apply<D>, empty: D, s: Server<D>, es: seq<Event>)
    requires AllEnabled(apply, empty, s, es)
    ensures var ds := [s.data] + Moments(apply, empty, s, es); ds[|ds| - 1] == Run(apply, empty, s, es).data
    decreases |es|
  {
    hide Step, Enabled;
    if es != [] {
      LastMoment(apply, empty, Step(apply, empty, s, es[0]), es[1..]);
    }
  }

  /** Switching logging off leaves a file that rebuilds the data. */
  lemma StopLeavesFile<D(!new)>(apply: Apply<D>, empty: D, s: Server<D>)
    requires Inv(apply, empty, s) && s.state == On
    ensures var s' := DoStopAof(s);
            s'.state == Off && s'.path in s'.files && Rebuilds(apply, empty, s'.files[s'.path], s'.data)
  {
    FileAloneRebuilds(apply, empty, s);
    hide Rebuilds, Logged;
  }

  // ---- What a rewrite achieves ----

  lemma {:induction false} ChildStays<D>(apply: Apply<D>, empty: D, s: Server<D>, es: seq<Event>)
    requires AllEnabled(apply, empty, s, es) && s.state != Off && s.child.Some?
    requires forall e :: e in es ==> !e.StopAof? && !e.ChildDone?
    ensures var s' := Run(apply, empty, s, es); s'.state == s.state && s'.child == s.child && s.diff <= s'.diff
    decreases |es|
  {
    hide Logged, Fed, RespRoundTrip.GoodArgs, Selected;
    if es != [] {
      assert es[0] in es;
      ChildStays(apply, empty, Step(apply, empty, s, es[0]), es[1..]);
    }
  }

  /**
    A rewrite that can fork starts unless one is running, and when its child succeeds the log is what the child wrote
    followed by what was logged in between, and logging is on.
   */
  lemma RewriteReplacesLog<D>(apply: Apply<D>, empty: D, s: Server<D>, snapshot: seq<byte>, es: seq<Event>)
    requires Inv(apply, empty, s) && s.state != Off && s.child.None? && Logged(apply, empty, snapshot, s.data, -1)
    requires AllEnabled(apply, empty, DoStartRewrite(s, true, snapshot).0, es)
    requires forall e :: e in es ==> !e.StopAof? && !e.ChildDone?
    ensures var s1 := Run(apply, empty, DoStartRewrite(s, true, snapshot).0, es);
            && s1.child == Some(snapshot)
            && var s2 := DoChildDone(s1, true);
               && s2.state == On && s2.child.None? && s2.buf == [] && s2.fd == Open(s2.path)
               && s2.path in s2.files && s2.files[s2.path] == snapshot + s1.diff
  {
    var s0 := DoStartRewrite(s, true, snapshot).0;
    StartRewriteKeeps(apply, empty, s, true, snapshot);
    RunKeeps(apply, empty, s0, es);
    ChildStays(apply, empty, s0, es);
    hide Logged, Run, AllEnabled;
  }

  /** A child that fails leaves the log and the data as they are, and another one may start. */
  lemma FailedRewriteChangesNothing<D>(s: Server<D>, canFork: bool, snapshot: seq<byte>)
    requires s.child.Some?
    ensures var s1 := DoChildDone(s, false);
            && s1.child.None? && s1.diff == [] && s1.state == s.state && s1.data == s.data
            && s1.files == s.files && s1.path == s.path && s1.buf == s.buf && s1.fd == s.fd
            && DoStartRewrite(s, canFork, snapshot) == (s, false)
            && (DoStartRewrite(s1, canFork, snapshot).1 <==> canFork)
  {
  }
}
