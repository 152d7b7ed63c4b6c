/** What clients can see of transactions: flags, queues and executed commands, told from the events alone. */
module MultiRuns {
  import opened MultiSpec

  // ---- What is noted ----

  /** What a single effect of a command of client c amounts to. */
  function EffectNotes(c: nat, e: Effect): seq<Note> {
    match e
    case Modify(k, alive) => [Touched(k, alive)]
    case ModifyQuietly(k, alive) => [Quiet(k, alive)]
    case FlushDb(db) => [Flushed(db)]
    case SelectDb(_) => []
    case Unwatch => [Forgot(c)]
  }

  function CommandNotes(c: nat, es: seq<Effect>): seq<Note> {
    if es == [] then [] else EffectNotes(c, es[0]) + CommandNotes(c, es[1..])
  }

  function QueueNotes(c: nat, es: seq<seq<Effect>>): seq<Note> {
    if es == [] then [] else CommandNotes(c, es[0]) + QueueNotes(c, es[1..])
  }

  function WatchNotes(c: nat, db: int, names: seq<seq<char>>): seq<Note> {
    seq(|names|, i requires 0 <= i < |names| => Watched(c, (db, names[i])))
  }

  /** What has happened when an event occurs in a state. */
  ghost function NotesOf<C>(s: State<C>, e: Event<C>): seq<Note>
    requires Enabled(s, e)
  {
    match e
    case Connect(_) => []
    case Disconnect(c) => [Ended(c), Forgot(c)]
    case WatchCmd(c, names) => if s.clients[c].multi then [] else WatchNotes(c, s.clients[c].db, names)
    case MultiCmd(c) => if s.clients[c].multi then [] else [Began(c)]
    case DiscardCmd(c) => if s.clients[c].multi then [Ended(c), Forgot(c)] else []
    case ExecCmd(c, es) =>
      if !s.clients[c].multi then []
      else if s.clients[c].dirtyCas || s.clients[c].dirtyExec then [Ended(c), Forgot(c)]
      else [Forgot(c)] + QueueNotes(c, es) + [Ended(c), Forgot(c)]
    case Command(c, _, es) => if s.clients[c].multi then [] else CommandNotes(c, es)
    case Erroneous(c) => [Failed(c)]
    case KeyExpires(k) => [Quiet(k, false)]
  }

  lemma {:induction false} ApplyAllNotes<C>(s: State<C>, c: nat, es: seq<Effect>)
    requires c in s.clients
    ensures ApplyAll(s, c, es).trace == s.trace + CommandNotes(c, es)
    decreases |es|
  {
    if es != [] {
      assert Apply(s, c, es[0]).trace == s.trace + EffectNotes(c, es[0]);
      hide Apply, EffectNotes;
      ApplyAllNotes(Apply(s, c, es[0]), c, es[1..]);
    }
  }

  lemma CallNotes<C>(s: State<C>, c: nat, cmd: C, es: seq<Effect>)
    requires c in s.clients
    ensures Call(s, c, cmd, es).trace == s.trace + CommandNotes(c, es)
  {
    ApplyAllNotes(s.(log := s.log + [(c, cmd)]), c, es);
    hide ApplyAll, CommandNotes;
  }

  lemma QueueNotesNext(c: nat, es: seq<seq<Effect>>)
    ensures QueueNotes(c, es) == if es == [] then [] else CommandNotes(c, es[0]) + QueueNotes(c, es[1..])
  {
  }

  lemma {:induction false} CallAllNotes<C>(s: State<C>, c: nat, cmds: seq<C>, es: seq<seq<Effect>>)
    requires c in s.clients && |es| == |cmds|
    ensures CallAll(s, c, cmds, es).trace == s.trace + QueueNotes(c, es)
    decreases |cmds|
  {
    hide *;
    CallAllNext(s, c, cmds, es);
    QueueNotesNext(c, es);
    if cmds != [] {
      CallNotes(s, c, cmds[0], es[0]);
      CallAllNotes(Call(s, c, cmds[0], es[0]), c, cmds[1..], es[1..]);
      assert s.trace + CommandNotes(c, es[0]) + QueueNotes(c, es[1..])
          == s.trace + (CommandNotes(c, es[0]) + QueueNotes(c, es[1..]));
    }
  }

  lemma {:induction false} WatchAllNotes<C>(s: State<C>, c: nat, names: seq<seq<char>>)
    requires c in s.clients
    ensures WatchAll(s, c, names).trace == s.trace + WatchNotes(c, s.clients[c].db, names)
    decreases |names|
  {
    if names != [] {
      var s1 := WatchForKey(s, c, (s.clients[c].db, names[0]));
      assert s1.trace == s.trace + [Watched(c, (s.clients[c].db, names[0]))] && s1.clients[c].db == s.clients[c].db;
      hide WatchForKey;
      WatchAllNotes(s1, c, names[1..]);
      assert WatchNotes(c, s.clients[c].db, names)
          == [Watched(c, (s.clients[c].db, names[0]))] + WatchNotes(c, s.clients[c].db, names[1..]);
    }
  }

  lemma DiscardNotes<C>(s: State<C>, c: nat)
    requires c in s.clients
    ensures Discard(s, c).trace == s.trace + [Ended(c), Forgot(c)]
  {
    hide RemoveAll;
  }

  lemma ExecNotes<C>(s: State<C>, c: nat, es: seq<seq<Effect>>)
    requires Enabled(s, ExecCmd(c, es))
    ensures Exec(s, c, es).0.trace == s.trace + NotesOf(s, ExecCmd(c, es))
  {
    var cl := s.clients[c];
    DiscardNotes(s, c);
    var s1 := Forget(s, c);
    assert s1.trace == s.trace + [Forgot(c)] && s1.clients.Keys == s.clients.Keys;
    CallAllNotes(s1, c, cl.queue, es);
    var s2 := CallAll(s1, c, cl.queue, es);
    DiscardNotes(s2, c);
    hide Forget, Discard, CallAll, QueueNotes;
    assert s.trace + [Forgot(c)] + QueueNotes(c, es) + [Ended(c), Forgot(c)]
        == s.trace + ([Forgot(c)] + QueueNotes(c, es) + [Ended(c), Forgot(c)]);
  }

  /** Every event leaves exactly the notes of what it does, whatever flags it finds. */
  lemma StepNotes<C>(s: State<C>, e: Event<C>)
    requires Enabled(s, e)
    ensures Step(s, e).trace == s.trace + NotesOf(s, e)
  {
    hide Exec, Discard, WatchAll, ApplyAll, QueueNotes, CommandNotes, WatchNotes;
    match e
    case Disconnect(c) => DiscardNotes(s, c);
    case WatchCmd(c, names) => WatchAllNotes(s, c, names);
    case DiscardCmd(c) => DiscardNotes(s, c);
    case ExecCmd(c, es) => ExecNotes(s, c, es);
    case Command(c, cmd, es) => ApplyAllNotes(s.(log := s.log + [(c, cmd)]), c, es);
    case _ =>
  }

  ghost function RunNotes<C>(s: State<C>, es: seq<Event<C>>): seq<Note>
    requires AllEnabled(s, es)
    decreases |es|
  {
    if es == [] then [] else NotesOf(s, es[0]) + RunNotes(Step(s, es[0]), es[1..])
  }

  lemma {:induction false} RunTrace<C>(s: State<C>, es: seq<Event<C>>)
    requires AllEnabled(s, es)
    ensures Run(s, es).trace == s.trace + RunNotes(s, es)
    decreases |es|
  {
    hide Step, Enabled, NotesOf;
    if es == [] {
      assert s.trace + [] == s.trace;
    } else {
      StepNotes(s, es[0]);
      RunTrace(Step(s, es[0]), es[1..]);
    }
  }

  /**
    Over every interleaving of clients: the two indexes are inverse to each other and list nothing twice, and the flag
    that makes EXEC fail is set exactly if what happened touched a key while the client watched it.
   */
  lemma WatchIndexesAgree<C(!new)>(es: seq<Event<C>>)
    requires AllEnabled(Empty<C>(), es)
    ensures var s, t := Run(Empty<C>(), es), RunNotes(Empty<C>(), es);
            && (forall k, c :: Indexed(s.watchers, k, c) <==> c in s.clients && k in s.clients[c].watched)
            && ListsOk(s.watchers)
            && (forall c :: c in s.clients ==> NoDup(s.clients[c].watched))
            && (forall c :: c in s.clients ==> (s.clients[c].dirtyCas <==> TouchedSince(t, c)))
  {
    StartsEmpty<C>(es);
    hide *;
    EmptyOk<C>();
    RunKeeps(Empty<C>(), es);
    InvMeans(Run(Empty<C>(), es));
  }

  lemma StartsEmpty<C>(es: seq<Event<C>>)
    requires AllEnabled(Empty<C>(), es)
    ensures Run(Empty<C>(), es).trace == RunNotes(Empty<C>(), es)
  {
    RunTrace(Empty<C>(), es);
    hide AllEnabled, Run, RunNotes;
    assert [] + RunNotes(Empty<C>(), es) == RunNotes(Empty<C>(), es);
  }

  /** EXEC after any run: it executes its whole queue, in order, or nothing, as what happened decides. */
  lemma ExecAfterAnyRun<C(!new)>(es: seq<Event<C>>, c: nat, effects: seq<seq<Effect>>)
    requires AllEnabled(Empty<C>(), es)
    requires var s := Run(Empty<C>(), es); c in s.clients && |effects| == |s.clients[c].queue|
    ensures var s, t := Run(Empty<C>(), es), RunNotes(Empty<C>(), es);
            var clean := s.clients[c].multi && !TouchedSince(t, c) && !FailedSince(t, c);
            Exec(s, c, effects).0.log == s.log + if clean then Entries(c, s.clients[c].queue) else []
  {
    StartsEmpty<C>(es);
    hide *;
    EmptyOk<C>();
    RunKeeps(Empty<C>(), es);
    ExecRunsAllOrNothing(Run(Empty<C>(), es), c, effects);
  }

  // ---- What an effect does to a client ----

  /** A client after an effect of its own command, or of another client's, in a dataset with these keys. */
  function ClientAfter<C>(cl: Client<C>, own: bool, present: set<Key>, e: Effect): Client<C> {
    match e
    case Modify(k, _) => if k in cl.watched then cl.(dirtyCas := true) else cl
    case ModifyQuietly(_, _) => cl
    case FlushDb(db) => if exists k :: k in cl.watched && InDb(k, db) && k in present then cl.(dirtyCas := true) else cl
    case SelectDb(db) => if own then cl.(db := db) else cl
    case Unwatch => if own then cl.(watched := [], dirtyCas := false) else cl
  }

  lemma EffectOnClient<C(!new)>(s: State<C>, c: nat, e: Effect, d: nat)
    requires Inv(s) && c in s.clients && d in s.clients
    ensures Apply(s, c, e).clients[d] == ClientAfter(s.clients[d], d == c, s.present, e)
  {
    InvMeans(s);
    hide Inv, RemoveAll, ListsOk, NoDup, TouchedSince;
  }

  /** Commands leave alone what the client queues, and other clients only become dirty. */
  ghost predicate OnlyDirtied<C>(cl: Client<C>, cl': Client<C>) {
    cl' == cl.(dirtyCas := cl'.dirtyCas) && (cl.dirtyCas ==> cl'.dirtyCas)
  }

  ghost predicate SameTransaction<C>(cl: Client<C>, cl': Client<C>) {
    cl'.queue == cl.queue && cl'.multi == cl.multi && cl'.dirtyExec == cl.dirtyExec
  }

  /** The effect may touch one of these keys. */
  predicate Marks(e: Effect, keys: seq<Key>) {
    (e.Modify? && e.k in keys) || e.FlushDb?
  }

  /** How a client may have changed after some effects of its own command, or of another client's. */
  ghost predicate Affected<C>(cl: Client<C>, cl': Client<C>, own: bool, es: seq<Effect>) {
    && SameTransaction(cl, cl') && (!own ==> OnlyDirtied(cl, cl'))
    && (forall k :: k in cl'.watched ==> k in cl.watched)
    && (cl'.dirtyCas ==> cl.dirtyCas || exists e :: e in es && Marks(e, cl.watched))
    && (Unwatch !in es ==> cl'.watched == cl.watched && (cl.dirtyCas ==> cl'.dirtyCas))
    && (!own ==> forall k, alive :: Modify(k, alive) in es && k in cl.watched ==> cl'.dirtyCas)
  }

  lemma OneAffects<C>(cl: Client<C>, own: bool, present: set<Key>, e: Effect)
    ensures Affected(cl, ClientAfter(cl, own, present, e), own, [e])
  {
    if ClientAfter(cl, own, present, e).dirtyCas && !cl.dirtyCas {
      assert e in [e] && Marks(e, cl.watched);
    }
  }

  lemma AffectedTwice<C>(cl: Client<C>, cl1: Client<C>, cl2: Client<C>, own: bool, es: seq<Effect>)
    requires es != [] && Affected(cl, cl1, own, [es[0]]) && Affected(cl1, cl2, own, es[1..])
    ensures Affected(cl, cl2, own, es)
  {
    assert forall e :: e in es <==> e in [es[0]] || e in es[1..];
    if cl2.dirtyCas && !cl.dirtyCas {
      if cl1.dirtyCas {
        var e :| e in [es[0]] && Marks(e, cl.watched);
        assert e in es;
      } else {
        var e :| e in es[1..] && Marks(e, cl1.watched);
        assert e in es && Marks(e, cl.watched);
      }
    }
  }

  lemma {:induction false} EffectsOnClient<C(!new)>(s: State<C>, c: nat, es: seq<Effect>, d: nat)
    requires Inv(s) && c in s.clients && d in s.clients
    ensures var s' := ApplyAll(s, c, es); d in s'.clients && Affected(s.clients[d], s'.clients[d], d == c, es)
    decreases |es|
  {
    if es != [] {
      EffectOnClient(s, c, es[0], d);
      OneAffects(s.clients[d], d == c, s.present, es[0]);
      ApplyKeeps(s, c, es[0]);
      hide Inv, Apply, Affected;
      var s1 := Apply(s, c, es[0]);
      EffectsOnClient(s1, c, es[1..], d);
      AffectedTwice(s.clients[d], s1.clients[d], ApplyAll(s, c, es).clients[d], d == c, es);
    }
  }

  /** After a command that modifies a key, every other client that watches the key is dirty. */
  lemma ModifiedIsDirty<C(!new)>(s: State<C>, c: nat, cmd: C, es: seq<Effect>, k: Key, alive: bool, d: nat)
    requires Inv(s) && c in s.clients && !s.clients[c].multi && Modify(k, alive) in es
    requires d in s.clients && d != c && k in s.clients[d].watched
    ensures var s' := Step(s, Command(c, cmd, es)); d in s'.clients && s'.clients[d].dirtyCas
  {
    LogKeeps(s, s.log + [(c, cmd)]);
    hide Inv, ApplyAll;
    EffectsOnClient(s.(log := s.log + [(c, cmd)]), c, es, d);
  }

  /** When that is all it does, clients that do not watch the key, or a key that a flush removes, are as before. */
  lemma OthersUntouched<C(!new)>(s: State<C>, c: nat, cmd: C, e: Effect, d: nat)
    requires Inv(s) && c in s.clients && !s.clients[c].multi && d in s.clients && d != c
    ensures var s' := Step(s, Command(c, cmd, [e]));
            d in s'.clients && s'.clients[d] == ClientAfter(s.clients[d], false, s.present, e)
  {
    var s0 := s.(log := s.log + [(c, cmd)]);
    LogKeeps(s, s0.log);
    EffectOnClient(s0, c, e, d);
    hide Inv, Apply;
    assert [e][1..] == [];
    assert ApplyAll(s0, c, [e]) == Apply(s0, c, e);
  }

  /** EXEC of a dirty client runs nothing. */
  lemma DirtyExecFails<C>(s: State<C>, c: nat, es: seq<seq<Effect>>)
    requires c in s.clients && |es| == |s.clients[c].queue| && s.clients[c].dirtyCas
    ensures var (s', r) := Exec(s, c, es); s'.log == s.log && (r == Refused || r == Nil || r == ExecAbort)
  {
    hide RemoveAll;
  }

  predicate MarksAny(es: seq<seq<Effect>>, keys: seq<Key>) {
    exists i, e :: 0 <= i < |es| && e in es[i] && Marks(e, keys)
  }

  lemma MarksFewer(es: seq<seq<Effect>>, keys: seq<Key>, keys': seq<Key>)
    requires es != [] && (forall k :: k in keys' ==> k in keys) && !MarksAny(es, keys)
    ensures !MarksAny(es[1..], keys') && forall e :: e in es[0] ==> !Marks(e, keys)
  {
    if MarksAny(es[1..], keys') {
      var i, e :| 0 <= i < |es[1..]| && e in es[1..][i] && Marks(e, keys');
      assert e in es[i + 1] && Marks(e, keys);
    }
  }

  lemma {:induction false} CallAllOnClient<C(!new)>(s: State<C>, c: nat, cmds: seq<C>, es: seq<seq<Effect>>, d: nat)
    requires Inv(s) && c in s.clients && d in s.clients && |es| == |cmds|
    ensures var s' := CallAll(s, c, cmds, es);
            && d in s'.clients && SameTransaction(s.clients[d], s'.clients[d])
            && (d != c ==> OnlyDirtied(s.clients[d], s'.clients[d]))
            && (forall k :: k in s'.clients[d].watched ==> k in s.clients[d].watched)
            && (!MarksAny(es, s.clients[d].watched) && s'.clients[d].dirtyCas ==> s.clients[d].dirtyCas)
    decreases |cmds|
  {
    CallAllNext(s, c, cmds, es);
    if cmds != [] {
      CallKeeps(s, c, cmds[0], es[0]);
      CallOnClient(s, c, cmds[0], es[0], d);
      var s1 := Call(s, c, cmds[0], es[0]);
      if !MarksAny(es, s.clients[d].watched) {
        MarksFewer(es, s.clients[d].watched, s1.clients[d].watched);
      }
      hide Inv, Call, CallAll, Affected, MarksAny, Marks;
      CallAllOnClient(s1, c, cmds[1..], es[1..], d);
    }
    hide CallAll;
  }

  lemma CallOnClient<C(!new)>(s: State<C>, c: nat, cmd: C, es: seq<Effect>, d: nat)
    requires Inv(s) && c in s.clients && d in s.clients
    ensures var s' := Call(s, c, cmd, es);
            && d in s'.clients && Affected(s.clients[d], s'.clients[d], d == c, es)
            && SameTransaction(s.clients[d], s'.clients[d]) && (d != c ==> OnlyDirtied(s.clients[d], s'.clients[d]))
            && (forall k :: k in s'.clients[d].watched ==> k in s.clients[d].watched)
            && (s'.clients[d].dirtyCas ==>
                  s.clients[d].dirtyCas || exists e :: e in es && Marks(e, s.clients[d].watched))
  {
    LogKeeps(s, s.log + [(c, cmd)]);
    hide Inv, ApplyAll;
    EffectsOnClient(s.(log := s.log + [(c, cmd)]), c, es, d);
  }

  // ---- What an event does to a client ----

  /** The commands that the client has queued, after an event. */
  function QueueAfter<C>(cl: Client<C>, e: Event<C>, d: nat): seq<C> {
    match e
    case Command(c, cmd, _) => if c == d && cl.multi then cl.queue + [cmd] else cl.queue
    case ExecCmd(c, _) => if c == d then [] else cl.queue
    case DiscardCmd(c) => if c == d then [] else cl.queue
    case _ => cl.queue
  }

  /** Whether it is in a transaction. */
  function MultiAfter<C>(cl: Client<C>, e: Event<C>, d: nat): bool {
    match e
    case MultiCmd(c) => cl.multi || c == d
    case ExecCmd(c, _) => cl.multi && c != d
    case DiscardCmd(c) => cl.multi && c != d
    case _ => cl.multi
  }

  /** The commands that an event executes. */
  ghost function RunBy<C>(s: State<C>, e: Event<C>): seq<(nat, C)>
    requires Enabled(s, e)
  {
    match e
    case Command(c, cmd, _) => if s.clients[c].multi then [] else [(c, cmd)]
    case ExecCmd(c, _) => ExecLog(s.clients[c], c)
    case _ => []
  }

  function ExecLog<C>(cl: Client<C>, c: nat): seq<(nat, C)> {
    if cl.multi && !cl.dirtyCas && !cl.dirtyExec then Entries(c, cl.queue) else []
  }

  /** The client gives up what it watches. */
  predicate Forgets<C>(e: Event<C>, d: nat) {
    match e
    case Disconnect(c) => c == d
    case DiscardCmd(c) => c == d
    case ExecCmd(c, _) => c == d
    case Command(c, _, es) => c == d && Unwatch in es
    case _ => false
  }

  /** The event may touch one of the keys, or concerns what the client watches or queues otherwise. */
  predicate Disturbs<C>(e: Event<C>, d: nat, keys: seq<Key>) {
    match e
    case WatchCmd(c, _) => c == d
    case Erroneous(c) => c == d
    case Command(_, _, es) => exists x :: x in es && Marks(x, keys)
    case ExecCmd(_, es) => MarksAny(es, keys)
    case _ => false
  }

  /** What an event leaves of the transaction and of the watched keys of a client. */
  ghost predicate Goes<C>(cl: Client<C>, cl': Client<C>, e: Event<C>, d: nat) {
    && cl'.queue == QueueAfter(cl, e, d) && cl'.multi == MultiAfter(cl, e, d)
    && (!Forgets(e, d) ==> (forall k :: k in cl.watched ==> k in cl'.watched) && (cl.dirtyCas ==> cl'.dirtyCas))
    && (!Disturbs(e, d, cl.watched) ==>
          && (forall k :: k in cl'.watched ==> k in cl.watched)
          && (cl'.dirtyCas ==> cl.dirtyCas) && (cl'.dirtyExec ==> cl.dirtyExec))
  }

  lemma {:induction false} WatchAllOnClient<C>(s: State<C>, c: nat, names: seq<seq<char>>, d: nat)
    requires c in s.clients && d in s.clients
    ensures var s' := WatchAll(s, c, names);
            && d in s'.clients && s'.log == s.log && s'.clients[d] == s.clients[d].(watched := s'.clients[d].watched)
            && (forall k :: k in s.clients[d].watched ==> k in s'.clients[d].watched)
            && (d != c ==> s'.clients[d].watched == s.clients[d].watched)
            && (d == c ==> forall n :: n in names ==> (s.clients[d].db, n) in s'.clients[d].watched)
    decreases |names|
  {
    if names != [] {
      var k := (s.clients[c].db, names[0]);
      var s1 := WatchForKey(s, c, k);
      assert d in s1.clients && s1.clients[d] == s.clients[d].(watched := s1.clients[d].watched) && s1.log == s.log;
      assert forall x :: x in s.clients[d].watched ==> x in s1.clients[d].watched;
      assert if d == c then k in s1.clients[d].watched else s1.clients[d].watched == s.clients[d].watched;
      assert forall n :: n in names ==> n == names[0] || n in names[1..];
      hide WatchForKey;
      WatchAllOnClient(s1, c, names[1..], d);
    }
  }

  lemma ExecIs<C>(s: State<C>, c: nat, es: seq<seq<Effect>>)
    requires c in s.clients && |es| == |s.clients[c].queue|
    ensures var cl := s.clients[c];
            Exec(s, c, es).0 == if !cl.multi then s
                                else if cl.dirtyCas || cl.dirtyExec then Discard(s, c)
                                else Discard(CallAll(Forget(s, c), c, cl.queue, es), c)
  {
    hide Discard, CallAll, Forget;
  }

  lemma GoesOn<C>(cl: Client<C>, cl': Client<C>, own: bool, c: nat, es: seq<seq<Effect>>, d: nat)
    requires own == (d == c)
    requires own ==> cl' == Fresh().(db := cl'.db) || (cl' == cl && !cl.multi && cl.queue == [])
    requires !own ==> OnlyDirtied(cl, cl') && (!MarksAny(es, cl.watched) && cl'.dirtyCas ==> cl.dirtyCas)
    ensures Goes(cl, cl', ExecCmd(c, es), d)
  {
    hide MarksAny;
  }

  /** The queue of a clean transaction has run. */
  lemma RunsOnClient<C(!new)>(s: State<C>, c: nat, es: seq<seq<Effect>>, d: nat)
    requires Inv(s) && c in s.clients && |es| == |s.clients[c].queue| && d in s.clients
    ensures var cl, s' := s.clients[d], Discard(CallAll(Forget(s, c), c, s.clients[c].queue, es), c);
            && d in s'.clients && s'.log == s.log + Entries(c, s.clients[c].queue)
            && (d == c ==> s'.clients[d] == Fresh().(db := s'.clients[d].db))
            && (d != c ==> OnlyDirtied(cl, s'.clients[d])
                           && (!MarksAny(es, cl.watched) && s'.clients[d].dirtyCas ==> cl.dirtyCas))
  {
    hide *;
    var s1 := Forget(s, c);
    ForgetKeeps(s, c);
    ForgetOnClient(s, c, d);
    ForgetOnClient(s, c, c);
    CallAllOnClient(s1, c, s.clients[c].queue, es, d);
    CallAllKeeps(s1, c, s.clients[c].queue, es);
    DiscardOnClient(CallAll(s1, c, s.clients[c].queue, es), c, d);
  }

  lemma StaysSame<C>(cl: Client<C>)
    ensures OnlyDirtied(cl, cl)
  {
  }

  lemma ExecOnClient<C(!new)>(s: State<C>, c: nat, es: seq<seq<Effect>>, d: nat)
    requires Inv(s) && c in s.clients && |es| == |s.clients[c].queue| && d in s.clients
    ensures var s' := Exec(s, c, es).0;
            && d in s'.clients && Goes(s.clients[d], s'.clients[d], ExecCmd(c, es), d)
            && s'.log == s.log + ExecLog(s.clients[c], c)
  {
    ExecIs(s, c, es);
    QueueOutside(s, c);
    StaysSame(s.clients[d]);
    DiscardOnClient(s, c, d);
    RunsOnClient(s, c, es, d);
    hide Inv, Exec, Goes, OnlyDirtied, MarksAny, Discard, CallAll, Forget, Entries;
    GoesOn(s.clients[d], Exec(s, c, es).0.clients[d], d == c, c, es, d);
  }

  lemma QueueOutside<C(!new)>(s: State<C>, c: nat)
    requires Inv(s) && c in s.clients
    ensures !s.clients[c].multi ==> s.clients[c].queue == []
  {
    hide WatchedSince, TouchedSince, BeganSince, FailedSince, Present, NoDup, ListsOk;
    assert ClientOk(ClientOf(s, c), s.trace, c);
  }

  lemma ForgetOnClient<C>(s: State<C>, c: nat, d: nat)
    requires c in s.clients && d in s.clients
    ensures var s' := Forget(s, c);
            && d in s'.clients && s'.log == s.log
            && s'.clients[d] == if d == c then s.clients[d].(watched := [], dirtyCas := false) else s.clients[d]
  {
    hide RemoveAll;
  }

  lemma DiscardOnClient<C>(s: State<C>, c: nat, d: nat)
    requires c in s.clients && d in s.clients
    ensures var s' := Discard(s, c);
            && d in s'.clients && s'.log == s.log
            && s'.clients[d] == if d == c then Fresh().(db := s.clients[d].db) else s.clients[d]
  {
    hide RemoveAll;
  }

  /** Every event, seen from any client that is connected before and after it. */
  lemma StepOnClient<C(!new)>(s: State<C>, e: Event<C>, d: nat)
    requires Inv(s) && Enabled(s, e) && d in s.clients && e != Disconnect(d)
    ensures var s' := Step(s, e);
            && d in s'.clients && Goes(s.clients[d], s'.clients[d], e, d) && s'.log == s.log + RunBy(s, e)
  {
    if e.Command? {
      CommandOnClient(s, e.c, e.cmd, e.effect, d);
      hide *;
    } else if e.ExecCmd? {
      ExecOnClient(s, e.c, e.effects, d);
      ExecStep(s, e);
      hide *;
    } else {
      if e.Disconnect? || e.DiscardCmd? {
        DiscardOnClient(s, e.c, d);
        QueueOutside(s, e.c);
      } else if e.WatchCmd? {
        WatchAllOnClient(s, e.c, e.names, d);
      }
      hide Inv, Exec, Discard, WatchAll, Call, Affected, Entries, MarksAny, Marks;
    }
  }

  lemma ExecStep<C>(s: State<C>, e: Event<C>)
    requires Enabled(s, e) && e.ExecCmd?
    ensures Step(s, e) == Exec(s, e.c, e.effects).0
  {
    hide Exec;
  }

  lemma CommandOnClient<C(!new)>(s: State<C>, c: nat, cmd: C, es: seq<Effect>, d: nat)
    requires Inv(s) && c in s.clients && d in s.clients
    ensures var s', e := Step(s, Command(c, cmd, es)), Command(c, cmd, es);
            && d in s'.clients && Goes(s.clients[d], s'.clients[d], e, d) && s'.log == s.log + RunBy(s, e)
  {
    CallOnClient(s, c, cmd, es, d);
    hide Inv, Call, Affected, Marks;
  }

  /** Clients come and go with their own events alone. */
  lemma WhoIsConnected<C>(s: State<C>, e: Event<C>)
    requires Enabled(s, e)
    ensures Step(s, e).clients.Keys == match e
                                       case Connect(c) => s.clients.Keys + {c}
                                       case Disconnect(c) => s.clients.Keys - {c}
                                       case _ => s.clients.Keys
    ensures e.Connect? ==> Step(s, e).clients == s.clients[e.c := Fresh()]
  {
    match e {
      case Disconnect(c) => DiscardKeys(s, c);
      case DiscardCmd(c) => DiscardKeys(s, c);
      case ExecCmd(c, es) =>
        DiscardKeys(s, c);
        DiscardKeys(CallAll(Forget(s, c), c, s.clients[c].queue, es), c);
      case WatchCmd(c, names) => WatchAllKeys(s, c, names);
      case _ =>
    }
    hide Discard, CallAll, WatchAll, ApplyAll;
  }

  lemma DiscardKeys<C>(s: State<C>, c: nat)
    requires c in s.clients
    ensures Discard(s, c).clients.Keys == s.clients.Keys
  {
    hide RemoveAll;
  }

  lemma {:induction false} WatchAllKeys<C>(s: State<C>, c: nat, names: seq<seq<char>>)
    requires c in s.clients
    ensures WatchAll(s, c, names).clients.Keys == s.clients.Keys
    decreases |names|
  {
    if names != [] {
      var s1 := WatchForKey(s, c, (s.clients[c].db, names[0]));
      assert s1.clients.Keys == s.clients.Keys;
      hide WatchForKey;
      WatchAllKeys(s1, c, names[1..]);
    }
  }

  // ---- Runs, seen from a client ----

  /** The commands of client d among the events. */
  function CommandsOf<C>(es: seq<Event<C>>, d: nat): seq<C> {
    if es == [] then []
    else OneCommand(es[0], d) + CommandsOf(es[1..], d)
  }

  function OneCommand<C>(e: Event<C>, d: nat): seq<C> {
    if e.Command? && e.c == d then [e.cmd] else []
  }

  predicate EndsTransaction<C>(e: Event<C>, d: nat) {
    match e
    case Disconnect(c) => c == d
    case DiscardCmd(c) => c == d
    case ExecCmd(c, _) => c == d
    case _ => false
  }

  lemma QueueNext<C>(cl: Client<C>, cl': Client<C>, e: Event<C>, d: nat)
    requires Goes(cl, cl', e, d) && cl.multi && !EndsTransaction(e, d)
    ensures cl'.multi && cl'.queue == cl.queue + OneCommand(e, d)
  {
    hide Disturbs, Forgets;
  }

  lemma RunNext<C>(s: State<C>, es: seq<Event<C>>)
    requires AllEnabled(s, es)
    ensures es == [] ==> Run(s, es) == s
    ensures es != [] ==> Enabled(s, es[0]) && AllEnabled(Step(s, es[0]), es[1..])
    ensures es != [] ==> Run(s, es) == Run(Step(s, es[0]), es[1..])
  {
    hide Step, Enabled;
  }

  lemma CommandsNext<C>(es: seq<Event<C>>, d: nat)
    ensures es == [] ==> CommandsOf(es, d) == []
    ensures es != [] ==>
              CommandsOf(es, d) == OneCommand(es[0], d) + CommandsOf(es[1..], d)
  {
  }

  lemma Append3<C>(a: seq<C>, b: seq<C>, c: seq<C>)
    ensures a + b + c == a + (b + c)
  {
  }

  lemma QueueStep<C(!new)>(s: State<C>, e: Event<C>, d: nat)
    requires Inv(s) && Enabled(s, e) && d in s.clients && s.clients[d].multi && !EndsTransaction(e, d)
    ensures var s1 := Step(s, e);
            && Inv(s1) && d in s1.clients && s1.clients[d].multi
            && s1.clients[d].queue == s.clients[d].queue + OneCommand(e, d)
  {
    assert EndsTransaction<C>(Disconnect(d), d);
    hide *;
    StepKeeps(s, e);
    StepOnClient(s, e, d);
    QueueNext(s.clients[d], Step(s, e).clients[d], e, d);
  }

  lemma {:induction false} QueueOverRun<C(!new)>(s: State<C>, es: seq<Event<C>>, d: nat)
    requires Inv(s) && AllEnabled(s, es) && d in s.clients && s.clients[d].multi
    requires forall e :: e in es ==> !EndsTransaction(e, d)
    ensures var s' := Run(s, es);
            && Inv(s') && d in s'.clients && s'.clients[d].multi
            && s'.clients[d].queue == s.clients[d].queue + CommandsOf(es, d)
    decreases |es|
  {
    RunNext(s, es);
    CommandsNext(es, d);
    hide *;
    if es != [] {
      assert es[0] in es && forall e :: e in es[1..] ==> e in es;
      QueueStep(s, es[0], d);
      QueueOverRun(Step(s, es[0]), es[1..], d);
      Append3(s.clients[d].queue, OneCommand(es[0], d), CommandsOf(es[1..], d));
    }
  }

  /**
    A transaction as a whole: from MULTI on, whatever other clients do in between, EXEC executes the commands that the
    client has sent, all of them, in order and with nothing in between, or none of them.
   */
  lemma TransactionIsABlock<C(!new)>(s: State<C>, es: seq<Event<C>>, d: nat, effects: seq<seq<Effect>>)
    requires Inv(s) && d in s.clients && !s.clients[d].multi && AllEnabled(Step(s, MultiCmd(d)), es)
    requires forall e :: e in es ==> !EndsTransaction(e, d)
    requires |effects| == |CommandsOf(es, d)|
    ensures var s1 := Run(Step(s, MultiCmd(d)), es);
            && Enabled(s1, ExecCmd(d, effects))
            && Step(s1, ExecCmd(d, effects)).log
               == s1.log + if s1.clients[d].dirtyCas || s1.clients[d].dirtyExec then []
                           else Entries(d, CommandsOf(es, d))
  {
    BeginKeeps(s, d);
    QueueOutside(s, d);
    var s0 := Step(s, MultiCmd(d));
    assert s0.clients[d].queue == [] && s0.clients[d].multi;
    QueueOverRun(s0, es, d);
    var s1 := Run(s0, es);
    assert [] + CommandsOf(es, d) == CommandsOf(es, d);
    hide Inv, Run, Step, AllEnabled, CommandsOf, EndsTransaction;
    StepOnClient(s1, ExecCmd(d, effects), d);
    hide Entries;
  }

  lemma {:induction false} WatchOverRun<C(!new)>(s: State<C>, es: seq<Event<C>>, d: nat)
    requires Inv(s) && AllEnabled(s, es) && d in s.clients && forall e :: e in es ==> !Forgets(e, d)
    ensures var s' := Run(s, es);
            && Inv(s') && d in s'.clients && (forall k :: k in s.clients[d].watched ==> k in s'.clients[d].watched)
            && (s.clients[d].dirtyCas ==> s'.clients[d].dirtyCas)
    decreases |es|
  {
    if es != [] {
      assert es[0] in es && forall e :: e in es[1..] ==> e in es;
      assert Forgets<C>(Disconnect(d), d);
      hide Inv, Step, Enabled, Forgets, Disturbs, RunBy, QueueAfter, MultiAfter;
      StepKeeps(s, es[0]);
      StepOnClient(s, es[0], d);
      WatchOverRun(Step(s, es[0]), es[1..], d);
    }
  }

  /**
    Optimistic locking, told by events alone: a client watches a key, another client's command modifies it, and the
    client has not given up watching in between or afterwards; then its EXEC runs nothing, whatever else happens.
   */
  lemma StaleTransactionFails<C(!new)>(s: State<C>, d: nat, names: seq<seq<char>>, name: seq<char>,
                                       es1: seq<Event<C>>, c: nat, cmd: C, effects: seq<Effect>, alive: bool,
                                       es2: seq<Event<C>>, queued: seq<seq<Effect>>)
    requires Inv(s) && d in s.clients && !s.clients[d].multi && name in names
    requires var s1 := Step(s, WatchCmd(d, names));
             AllEnabled(s1, es1)
             && var s2 := Run(s1, es1);
                && c in s2.clients && c != d && !s2.clients[c].multi
                && Modify((s.clients[d].db, name), alive) in effects
                && var s3 := Step(s2, Command(c, cmd, effects));
                   AllEnabled(s3, es2) && Enabled(Run(s3, es2), ExecCmd(d, queued))
    requires forall e :: e in es1 || e in es2 ==> !Forgets(e, d)
    ensures var s1 := Step(s, WatchCmd(d, names));
            var s4 := Run(Step(Run(s1, es1), Command(c, cmd, effects)), es2);
            var (s5, r) := Exec(s4, d, queued);
            s5.log == s4.log && (r == Refused || r == Nil || r == ExecAbort)
  {
    var k := (s.clients[d].db, name);
    var s1 := Step(s, WatchCmd(d, names));
    WatchAllOnClient(s, d, names, d);
    assert d in s1.clients && k in s1.clients[d].watched;
    StepKeeps(s, WatchCmd(d, names));
    hide Inv, Step, WatchAll, Forgets;
    WatchOverRun(s1, es1, d);
    var s2 := Run(s1, es1);
    ModifiedIsDirty(s2, c, cmd, effects, k, alive, d);
    StepKeeps(s2, Command(c, cmd, effects));
    var s3 := Step(s2, Command(c, cmd, effects));
    WatchOverRun(s3, es2, d);
    DirtyExecFails(Run(s3, es2), d, queued);
  }

  lemma {:induction false} CleanOverRun<C(!new)>(s: State<C>, es: seq<Event<C>>, d: nat, keys: seq<Key>)
    requires Inv(s) && AllEnabled(s, es) && d in s.clients && (forall k :: k in s.clients[d].watched ==> k in keys)
    requires forall e :: e in es ==> !Disturbs(e, d, keys) && e != Disconnect(d)
    ensures var s' := Run(s, es);
            && Inv(s') && d in s'.clients
            && (s'.clients[d].dirtyCas ==> s.clients[d].dirtyCas)
            && (s'.clients[d].dirtyExec ==> s.clients[d].dirtyExec)
    decreases |es|
  {
    if es != [] {
      assert es[0] in es && forall e :: e in es[1..] ==> e in es;
      DisturbsFewer(es[0], d, keys, s.clients[d].watched);
      hide Inv, Step, Enabled, Disturbs, Forgets, RunBy, QueueAfter, MultiAfter;
      StepKeeps(s, es[0]);
      StepOnClient(s, es[0], d);
      CleanOverRun(Step(s, es[0]), es[1..], d, keys);
    }
  }

  lemma DisturbsFewer<C>(e: Event<C>, d: nat, keys: seq<Key>, keys': seq<Key>)
    requires !Disturbs(e, d, keys) && forall k :: k in keys' ==> k in keys
    ensures !Disturbs(e, d, keys')
  {
    if e.Command? && (exists x :: x in e.effect && Marks(x, keys')) {
      var x :| x in e.effect && Marks(x, keys');
      assert Marks(x, keys);
    }
    if e.ExecCmd? && MarksAny(e.effects, keys') {
      var i, x :| 0 <= i < |e.effects| && x in e.effects[i] && Marks(x, keys');
      assert Marks(x, keys);
    }
  }

  /** Conversely, a transaction that nobody disturbs is executed: no command touches a watched key or flushes. */
  lemma UndisturbedTransactionRuns<C(!new)>(s: State<C>, es: seq<Event<C>>, d: nat, effects: seq<seq<Effect>>)
    requires Inv(s) && d in s.clients && !s.clients[d].multi && AllEnabled(Step(s, MultiCmd(d)), es)
    requires !s.clients[d].dirtyCas
    requires forall e :: e in es ==> !EndsTransaction(e, d) && !Disturbs(e, d, s.clients[d].watched)
    requires |effects| == |CommandsOf(es, d)|
    ensures var s1 := Run(Step(s, MultiCmd(d)), es);
            && Enabled(s1, ExecCmd(d, effects))
            && Step(s1, ExecCmd(d, effects)).log == s1.log + Entries(d, CommandsOf(es, d))
  {
    TransactionIsABlock(s, es, d, effects);
    BeginKeeps(s, d);
    NoErrorOutside(s, d);
    var s0 := Step(s, MultiCmd(d));
    assert s0.clients[d].watched == s.clients[d].watched && !s0.clients[d].dirtyExec && !s0.clients[d].dirtyCas;
    assert EndsTransaction<C>(Disconnect(d), d);
    hide Inv, Step, Run, Disturbs, EndsTransaction, Entries;
    CleanOverRun(s0, es, d, s.clients[d].watched);
  }

  lemma NoErrorOutside<C(!new)>(s: State<C>, c: nat)
    requires Inv(s) && c in s.clients && !s.clients[c].multi
    ensures !s.clients[c].dirtyExec
  {
    hide WatchedSince, TouchedSince, Present, NoDup, ListsOk;
    assert ClientOk(ClientOf(s, c), s.trace, c);
  }
}
