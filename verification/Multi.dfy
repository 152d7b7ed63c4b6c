/** The transaction part of the server and client structures, updated in place as in redis-stable/src/multi.c. */
module Multi {
  import opened MultiSpec

  function Marked<C>(clients: map<nat, Client<C>>, l: seq<nat>, n: nat): map<nat, Client<C>>
    requires n <= |l|
  {
    map c | c in clients :: if c in l[..n] then clients[c].(dirtyCas := true) else clients[c]
  }

  lemma MarkedNext<C>(clients: map<nat, Client<C>>, l: seq<nat>, n: nat)
    requires n < |l| && l[n] in clients
    ensures Marked(clients, l, n + 1) == Marked(clients, l, n)[l[n] := clients[l[n]].(dirtyCas := true)]
    ensures Marked(clients, l, 0) == clients
    ensures l[n] in Marked(clients, l, n)
    ensures Marked(clients, l, n)[l[n]].(dirtyCas := true) == clients[l[n]].(dirtyCas := true)
  {
    assert forall c :: c in l[..n + 1] <==> c in l[..n] || c == l[n];
  }

  lemma MarkedAll<C>(clients: map<nat, Client<C>>, l: seq<nat>)
    ensures Marked(clients, l, 0) == clients
    ensures Marked(clients, l, |l|)
         == map c | c in clients :: if c in l then clients[c].(dirtyCas := true) else clients[c]
  {
    assert l[..|l|] == l;
  }

  /** The clients of todo are still to be looked at. */
  function Flushing<C>(clients: map<nat, Client<C>>, present: set<Key>, db: int, todo: set<nat>): map<nat, Client<C>> {
    map c | c in clients ::
      if c !in todo && LosesKey(clients[c].watched, present, db) then clients[c].(dirtyCas := true) else clients[c]
  }

  class Server<C(!new)> {
    var clients: map<nat, Client<C>>
    var watchers: map<Key, seq<nat>>
    var present: set<Key>
    ghost var trace: seq<Note>
    var log: seq<(nat, C)>

    ghost function Abs(): State<C>
      reads this
    {
      State(clients, watchers, present, trace, log)
    }

    constructor ()
      ensures Abs() == Empty()
    {
      clients, watchers, present, trace, log := map[], map[], {}, [], [];
    }

    /** watchForKey. */
    method WatchForKey(c: nat, k: Key)
      requires c in clients
      modifies this
      ensures Abs() == MultiSpec.WatchForKey(old(Abs()), c, k)
    {
      trace := trace + [Watched(c, k)];
      var keys := clients[c].watched;
      var i := 0;
      while i < |keys|
        invariant i <= |keys| && forall m :: 0 <= m < i ==> keys[m] != k
      {
        if keys[i] == k { return; }
        i := i + 1;
      }
      var list := if k in watchers then watchers[k] else [];
      watchers := watchers[k := list + [c]];
      clients := clients[c := clients[c].(watched := keys + [k])];
    }

    /** The client is listed under each of its keys. */
    lemma WatchedAreListed(c: nat)
      requires Inv(Abs()) && c in clients
      ensures ListsOk(watchers) && NoDup(clients[c].watched)
      ensures forall k :: k in clients[c].watched ==> Indexed(watchers, k, c)
    {
      hide ListsOk, Present, Indexed, NoDup, WatchedSince, TouchedSince, BeganSince, FailedSince;
      assert ClientOk(ClientOf(Abs(), c), trace, c);
    }

    /** unwatchAllKeys, and clearing the flag.  The list of a watched key is there, as the source asserts. */
    method UnwatchAllKeys(c: nat)
      requires c in clients && Inv(Abs())
      modifies this
      ensures Abs() == Forget(old(Abs()), c)
    {
      ghost var keys := clients[c].watched;
      ghost var goal := RemoveAll(watchers, keys, c);
      WatchedAreListed(c);
      trace := trace + [Forgot(c)];
      var left := clients[c].watched;
      hide Inv, Without, ListsOk, NoDup;
      while left != []
        invariant clients == old(clients) && present == old(present) && log == old(log)
        invariant trace == old(trace) + [Forgot(c)]
        invariant RemoveAll(watchers, left, c) == goal
        invariant ListsOk(watchers) && NoDup(left) && forall k :: k in left ==> Indexed(watchers, k, c)
        decreases |left|
      {
        var k := left[0];
        assert k in left;
        assert Indexed(watchers, k, c);
        RemoveKeeps(watchers, k, c);
        Distinct(left);
        var list := Without(watchers[k], c);
        watchers := if list == [] then watchers - {k} else watchers[k := list];
        left := left[1..];
      }
      clients := clients[c := clients[c].(watched := [], dirtyCas := false)];
    }

    lemma Distinct(l: seq<Key>)
      requires NoDup(l) && l != []
      ensures NoDup(l[1..]) && l[0] !in l[1..]
    {
    }

    /** discardTransaction. */
    method DiscardTransaction(c: nat)
      requires c in clients && Inv(Abs())
      modifies this
      ensures Abs() == Discard(old(Abs()), c)
    {
      EndTransactionKeeps(Abs(), c);
      hide Inv;
      trace := trace + [Ended(c)];
      clients := clients[c := clients[c].(multi := false, dirtyExec := false, queue := [])];
      assert Abs() == EndTransaction(old(Abs()), c);
      hide EndTransaction, Forget;
      UnwatchAllKeys(c);
    }

    lemma ListedAreConnected(k: Key)
      requires Inv(Abs()) && k in watchers
      ensures forall i :: 0 <= i < |watchers[k]| ==> watchers[k][i] in clients
    {
      hide ListsOk, Present, ClientOk;
      forall i | 0 <= i < |watchers[k]| ensures watchers[k][i] in clients {
        assert Indexed(watchers, k, watchers[k][i]);
      }
    }

    /** touchWatchedKey. */
    method TouchWatchedKey(k: Key)
      requires Inv(Abs())
      modifies this`clients
      ensures clients == if k in watchers then Marked(old(clients), watchers[k], |watchers[k]|) else old(clients)
    {
      if k !in watchers {
        MarkedAll(clients, []);
        return;
      }
      ListedAreConnected(k);
      hide *;
      var list := watchers[k];
      var i := 0;
      MarkedAll(clients, list);
      while i < |list|
        invariant i <= |list| && clients == Marked(old(clients), list, i)
      {
        MarkedNext(old(clients), list, i);
        var c := list[i];
        clients := clients[c := clients[c].(dirtyCas := true)];
        i := i + 1;
      }
    }

    /** signalModifiedKey, and the change to the key. */
    method ModifyKey(k: Key, alive: bool)
      requires Inv(Abs())
      modifies this
      ensures Abs() == Touch(old(Abs()), k, alive)
    {
      TouchWatchedKey(k);
      present := if alive then present + {k} else present - {k};
      trace := trace + [Touched(k, alive)];
      hide Inv;
      MarkedAll(old(clients), if k in watchers then watchers[k] else []);
    }

    /** The inner loop of touchWatchedKeysOnFlush: whether a watched key of the client is there and gets flushed. */
    method Loses(c: nat, db: int) returns (lost: bool)
      requires c in clients
      ensures lost == LosesKey(clients[c].watched, present, db)
    {
      var keys := clients[c].watched;
      var i := 0;
      lost := false;
      while i < |keys|
        invariant i <= |keys| && (lost <==> exists m :: 0 <= m < i && InDb(keys[m], db) && keys[m] in present)
      {
        if (db == -1 || keys[i].0 == db) && keys[i] in present { lost := true; }
        i := i + 1;
      }
      assert LosesKey(keys, present, db) <==> exists m :: 0 <= m < |keys| && InDb(keys[m], db) && keys[m] in present;
    }

    lemma FlushingNext(before: map<nat, Client<C>>, gone: set<Key>, db: int, todo: set<nat>, c: nat)
      requires c in todo && c in before
      ensures c in Flushing(before, gone, db, todo) && Flushing(before, gone, db, todo)[c] == before[c]
      ensures Flushing(before, gone, db, todo - {c})
           == if LosesKey(before[c].watched, gone, db)
              then Flushing(before, gone, db, todo)[c := before[c].(dirtyCas := true)]
              else Flushing(before, gone, db, todo)
    {
      hide LosesKey;
    }

    /** touchWatchedKeysOnFlush, and the flush. */
    method FlushDatabase(db: int)
      modifies this
      ensures Abs() == Flush(old(Abs()), db)
    {
      hide LosesKey;
      ghost var before := clients;
      var todo := clients.Keys;
      assert Flushing(before, present, db, todo) == before;
      while todo != {}
        invariant todo <= before.Keys && clients == Flushing(before, present, db, todo)
        invariant watchers == old(watchers) && present == old(present) && trace == old(trace) && log == old(log)
        decreases |todo|
      {
        var c :| c in todo;
        FlushingNext(before, present, db, todo, c);
        var lost := Loses(c, db);
        if lost {
          clients := clients[c := clients[c].(dirtyCas := true)];
        }
        todo := todo - {c};
      }
      present := set k | k in present && !InDb(k, db);
      trace := trace + [Flushed(db)];
    }

    /** A key comes or goes without a call of signalModifiedKey. */
    method ModifyKeyQuietly(k: Key, alive: bool)
      modifies this
      ensures Abs() == ChangeQuietly(old(Abs()), k, alive)
    {
      present := if alive then present + {k} else present - {k};
      trace := trace + [Quiet(k, alive)];
    }

    /** queueMultiCommand. */
    method QueueMultiCommand(c: nat, cmd: C)
      requires c in clients && clients[c].multi
      modifies this`clients
      ensures Abs() == Process(old(Abs()), c, cmd, [])
    {
      clients := clients[c := clients[c].(queue := clients[c].queue + [cmd])];
    }

    /** What one command does. */
    method ApplyEffects(c: nat, es: seq<Effect>)
      requires c in clients && Inv(Abs())
      modifies this
      ensures Abs() == ApplyAll(old(Abs()), c, es)
    {
      hide Inv, Apply;
      ghost var goal := ApplyAll(Abs(), c, es);
      var i := 0;
      assert es[0..] == es;
      while i < |es|
        invariant i <= |es| && c in clients && Inv(Abs()) && ApplyAll(Abs(), c, es[i..]) == goal
      {
        ghost var s := Abs();
        ApplyKeeps(s, c, es[i]);
        ApplyEffect(c, es[i]);
        assert es[i..][1..] == es[i + 1..];
        i := i + 1;
      }
    }

    method ApplyEffect(c: nat, e: Effect)
      requires c in clients && Inv(Abs())
      modifies this
      ensures Abs() == Apply(old(Abs()), c, e)
    {
      hide Inv, Touch, Flush, ChangeQuietly, Forget;
      match e
      case Modify(k, alive) => ModifyKey(k, alive);
      case FlushDb(db) => FlushDatabase(db);
      case ModifyQuietly(k, alive) => ModifyKeyQuietly(k, alive);
      case SelectDb(db) => clients := clients[c := clients[c].(db := db)];
      case Unwatch => UnwatchAllKeys(c);
    }

    /** call(). */
    method CallCommand(c: nat, cmd: C, es: seq<Effect>)
      requires c in clients && Inv(Abs())
      modifies this
      ensures Abs() == Call(old(Abs()), c, cmd, es)
    {
      LogKeeps(Abs(), log + [(c, cmd)]);
      hide Inv, ApplyAll;
      log := log + [(c, cmd)];
      assert Abs() == old(Abs()).(log := log);
      ApplyEffects(c, es);
    }

    /** The loop of execCommand. */
    method CallQueued(c: nat, cmds: seq<C>, es: seq<seq<Effect>>)
      requires c in clients && Inv(Abs()) && |es| == |cmds|
      modifies this
      ensures c in clients && Inv(Abs()) && Abs() == CallAll(old(Abs()), c, cmds, es)
    {
      hide Inv, Call, CallAll;
      ghost var goal := CallAll(Abs(), c, cmds, es);
      var j := 0;
      assert cmds[0..] == cmds && es[0..] == es;
      while j < |cmds|
        invariant j <= |cmds| && c in clients && Inv(Abs()) && CallAll(Abs(), c, cmds[j..], es[j..]) == goal
      {
        ghost var s := Abs();
        CallKeeps(s, c, cmds[j], es[j]);
        CallAllNext(s, c, cmds[j..], es[j..]);
        CallCommand(c, cmds[j], es[j]);
        assert cmds[j..][1..] == cmds[j + 1..] && es[j..][1..] == es[j + 1..];
        j := j + 1;
      }
      CallAllNext(Abs(), c, cmds[j..], es[j..]);
    }

    /** execCommand; es holds what the queued commands do. */
    method ExecCommand(c: nat, es: seq<seq<Effect>>) returns (r: Reply)
      requires c in clients && Inv(Abs()) && |es| == |clients[c].queue|
      modifies this
      ensures (Abs(), r) == Exec(old(Abs()), c, es)
    {
      ghost var s := Abs();
      ForgetKeeps(s, c);
      hide Inv, Forget, Discard, CallAll;
      var cl := clients[c];
      if !cl.multi { return Refused; }
      if cl.dirtyCas || cl.dirtyExec {
        r := if cl.dirtyExec then ExecAbort else Nil;
        DiscardTransaction(c);
        return;
      }
      ForgetLeaves(s, c);
      UnwatchAllKeys(c);
      var queue := clients[c].queue;
      CallQueued(c, queue, es);
      DiscardTransaction(c);
      r := Results(|queue|);
    }

    lemma ForgetLeaves(s: State<C>, c: nat)
      requires c in s.clients
      ensures c in Forget(s, c).clients && Forget(s, c).clients[c].queue == s.clients[c].queue
    {
    }
  }
}
