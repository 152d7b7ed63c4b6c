/**
  Transactions with optimistic locking (redis-stable/src/multi.c): the steps that clients cause, and what the flags and
  the two indexes of watched keys mean in terms of what happened before.
 */
module MultiSpec {

  /** A key: the number of its database and its name. */
  type Key = (int, seq<char>)

  /** redisClient: the flags that concern transactions, the queued commands and the watched keys. */
  datatype Client<C> = Client(db: int, multi: bool, dirtyCas: bool, dirtyExec: bool, queue: seq<C>, watched: seq<Key>)

  /** What happened so far, as far as transactions depend on it. */
  datatype Note = Watched(c: nat, k: Key)
                | Forgot(c: nat)
                | Touched(k: Key, alive: bool)
                | Flushed(db: int)
                | Quiet(k: Key, alive: bool)
                | Began(c: nat)
                | Failed(c: nat)
                | Ended(c: nat)

  /**
    watchers is the watched_keys table of all databases, and present holds the keys of the dataset.  trace and log
    record what happened and which commands ran.
   */
  datatype State<C> = State(clients: map<nat, Client<C>>, watchers: map<Key, seq<nat>>, present: set<Key>,
                            trace: seq<Note>, log: seq<(nat, C)>)

  // ---- The past ----

  /** The client has watched the key, and has not forgotten its keys since. */
  ghost predicate WatchedSince(t: seq<Note>, c: nat, k: Key) {
    exists i :: 0 <= i < |t| && t[i] == Watched(c, k) && NotSince(t, i, Forgot(c))
  }

  /** It did not happen after i. */
  predicate NotSince(t: seq<Note>, i: int, n: Note)
    requires 0 <= i < |t|
  {
    forall m :: i < m < |t| ==> t[m] != n
  }

  function PresentIf(p: set<Key>, k: Key, alive: bool): set<Key> {
    if alive then p + {k} else p - {k}
  }

  /** The keys that exist after something happened. */
  function PresentAfter(p: set<Key>, n: Note): set<Key> {
    match n
    case Touched(k, alive) => PresentIf(p, k, alive)
    case Flushed(db) => set k | k in p && !InDb(k, db)
    case Quiet(k, alive) => PresentIf(p, k, alive)
    case _ => p
  }

  /** The keys that exist. */
  function Present(t: seq<Note>): set<Key> {
    if t == [] then {} else PresentAfter(Present(t[..|t| - 1]), t[|t| - 1])
  }

  /** -1 stands for all databases. */
  predicate InDb(k: Key, db: int) {
    db == -1 || k.0 == db
  }

  /** What happened at j changed the key: a command modified it, or a flush removed it; quiet changes do not count. */
  predicate Hit(t: seq<Note>, j: int, k: Key)
    requires 0 <= j < |t|
  {
    match t[j]
    case Touched(k', _) => k' == k
    case Flushed(db) => InDb(k, db) && k in Present(t[..j])
    case _ => false
  }

  /** Some key that the client watches was changed after it was watched. */
  ghost predicate TouchedSince(t: seq<Note>, c: nat) {
    exists i, j, k :: WatchedThenHit(t, c, i, j, k)
  }

  predicate WatchedThenHit(t: seq<Note>, c: nat, i: int, j: int, k: Key) {
    0 <= i < j < |t| && t[i] == Watched(c, k) && Hit(t, j, k) && NotSince(t, i, Forgot(c))
  }

  /** There was an error while the client queued the commands of its transaction. */
  ghost predicate FailedSince(t: seq<Note>, c: nat) {
    exists i, j :: 0 <= i < j < |t| && t[i] == Began(c) && t[j] == Failed(c) && NotSince(t, i, Ended(c))
  }

  lemma WatchedNext(t: seq<Note>, n: Note, c: nat, k: Key)
    ensures WatchedSince(t + [n], c, k) <==> n == Watched(c, k) || (n != Forgot(c) && WatchedSince(t, c, k))
  {
    var u := t + [n];
    if WatchedSince(u, c, k) {
      var i :| 0 <= i < |u| && u[i] == Watched(c, k) && NotSince(u, i, Forgot(c));
      if i < |t| {
        assert u[|t|] == n;
        assert NotSince(t, i, Forgot(c)) by {
          forall m | i < m < |t| ensures t[m] != Forgot(c) { assert u[m] == t[m]; }
        }
      }
    }
    if n == Watched(c, k) {
      assert u[|t|] == n && NotSince(u, |t|, Forgot(c));
    } else if n != Forgot(c) && WatchedSince(t, c, k) {
      var i :| 0 <= i < |t| && t[i] == Watched(c, k) && NotSince(t, i, Forgot(c));
      assert u[i] == t[i] && NotSince(u, i, Forgot(c));
    }
  }

  /** What happens next changes the key. */
  predicate HitNow(t: seq<Note>, n: Note, k: Key) {
    match n
    case Touched(k', _) => k' == k
    case Flushed(db) => InDb(k, db) && k in Present(t)
    case _ => false
  }

  lemma HitNext(t: seq<Note>, n: Note, j: nat, k: Key)
    requires j <= |t|
    ensures Hit(t + [n], j, k) <==> if j < |t| then Hit(t, j, k) else HitNow(t, n, k)
  {
    assert (t + [n])[..j] == if j < |t| then t[..j] else t;
  }

  lemma StillNotSince(t: seq<Note>, n: Note, i: nat, stop: Note)
    requires i < |t|
    ensures NotSince(t + [n], i, stop) <==> n != stop && NotSince(t, i, stop)
  {
    var u := t + [n];
    assert u[|t|] == n;
    assert forall m :: i < m < |t| ==> u[m] == t[m];
  }

  lemma TouchedBefore(t: seq<Note>, n: Note, c: nat)
    requires n != Forgot(c)
    ensures TouchedSince(t, c) ==> TouchedSince(t + [n], c)
    ensures (exists k :: WatchedSince(t, c, k) && HitNow(t, n, k)) ==> TouchedSince(t + [n], c)
  {
    var u := t + [n];
    if TouchedSince(t, c) {
      var i, j, k :| WatchedThenHit(t, c, i, j, k);
      HitNext(t, n, j, k);
      StillNotSince(t, n, i, Forgot(c));
      assert WatchedThenHit(u, c, i, j, k);
    }
    if k :| WatchedSince(t, c, k) && HitNow(t, n, k) {
      var i :| 0 <= i < |t| && t[i] == Watched(c, k) && NotSince(t, i, Forgot(c));
      HitNext(t, n, |t|, k);
      StillNotSince(t, n, i, Forgot(c));
      assert WatchedThenHit(u, c, i, |t|, k);
    }
  }

  lemma TouchedAfter(t: seq<Note>, n: Note, c: nat)
    requires TouchedSince(t + [n], c)
    ensures n != Forgot(c)
    ensures TouchedSince(t, c) || exists k :: WatchedSince(t, c, k) && HitNow(t, n, k)
  {
    var i, j, k :| WatchedThenHit(t + [n], c, i, j, k);
    HitNext(t, n, j, k);
    StillNotSince(t, n, i, Forgot(c));
    if j < |t| {
      assert WatchedThenHit(t, c, i, j, k);
    } else {
      assert WatchedSince(t, c, k);
    }
  }

  lemma TouchedNext(t: seq<Note>, n: Note, c: nat)
    ensures TouchedSince(t + [n], c) <==>
            n != Forgot(c) && (TouchedSince(t, c) || exists k :: WatchedSince(t, c, k) && HitNow(t, n, k))
  {
    hide TouchedSince, WatchedSince, HitNow;
    if n != Forgot(c) { TouchedBefore(t, n, c); }
    if TouchedSince(t + [n], c) { TouchedAfter(t, n, c); }
  }

  /** A transaction began and has not ended. */
  ghost predicate BeganSince(t: seq<Note>, c: nat) {
    exists i :: 0 <= i < |t| && t[i] == Began(c) && NotSince(t, i, Ended(c))
  }

  lemma BeganNext(t: seq<Note>, n: Note, c: nat)
    ensures BeganSince(t + [n], c) <==> n == Began(c) || (n != Ended(c) && BeganSince(t, c))
  {
    var u := t + [n];
    if BeganSince(u, c) {
      var i :| 0 <= i < |u| && u[i] == Began(c) && NotSince(u, i, Ended(c));
      if i < |t| { StillNotSince(t, n, i, Ended(c)); }
    }
    if n == Began(c) {
      assert u[|t|] == n && NotSince(u, |t|, Ended(c));
    } else if n != Ended(c) && BeganSince(t, c) {
      var i :| 0 <= i < |t| && t[i] == Began(c) && NotSince(t, i, Ended(c));
      StillNotSince(t, n, i, Ended(c));
      assert u[i] == t[i];
    }
  }

  lemma FailedNext(t: seq<Note>, n: Note, c: nat)
    ensures FailedSince(t + [n], c) <==> n != Ended(c) && (FailedSince(t, c) || (n == Failed(c) && BeganSince(t, c)))
  {
    var u := t + [n];
    if FailedSince(u, c) {
      var i, j :| 0 <= i < j < |u| && u[i] == Began(c) && u[j] == Failed(c) && NotSince(u, i, Ended(c));
      StillNotSince(t, n, i, Ended(c));
      assert j < |t| ==> t[j] == u[j];
    }
    if n != Ended(c) && FailedSince(t, c) {
      var i, j :| 0 <= i < j < |t| && t[i] == Began(c) && t[j] == Failed(c) && NotSince(t, i, Ended(c));
      StillNotSince(t, n, i, Ended(c));
      assert u[i] == t[i] && u[j] == t[j];
    }
    if n == Failed(c) && BeganSince(t, c) {
      var i :| 0 <= i < |t| && t[i] == Began(c) && NotSince(t, i, Ended(c));
      StillNotSince(t, n, i, Ended(c));
      assert u[i] == t[i] && u[|t|] == n;
    }
  }

  // ---- The two indexes ----

  predicate NoDup<T(==)>(s: seq<T>) {
    forall i, j :: 0 <= i < j < |s| ==> s[i] != s[j]
  }

  predicate Indexed(w: map<Key, seq<nat>>, k: Key, c: nat) {
    k in w && c in w[k]
  }

  /** No client is listed twice, and a key that nobody watches has no list. */
  ghost predicate ListsOk(w: map<Key, seq<nat>>) {
    forall k :: k in w ==> w[k] != [] && NoDup(w[k])
  }

  function Add(w: map<Key, seq<nat>>, k: Key, c: nat): map<Key, seq<nat>> {
    w[k := (if k in w then w[k] else []) + [c]]
  }

  /** listDelNode(clients, listSearchKey(clients, c)). */
  function Without(l: seq<nat>, c: nat): seq<nat> {
    if l == [] then [] else if l[0] == c then l[1..] else [l[0]] + Without(l[1..], c)
  }

  function Remove(w: map<Key, seq<nat>>, k: Key, c: nat): map<Key, seq<nat>> {
    if k !in w then w
    else
      var l := Without(w[k], c);
      if l == [] then w - {k} else w[k := l]
  }

  /** The loop of unwatchAllKeys. */
  function RemoveAll(w: map<Key, seq<nat>>, keys: seq<Key>, c: nat): map<Key, seq<nat>>
    decreases |keys|
  {
    if keys == [] then w else RemoveAll(Remove(w, keys[0], c), keys[1..], c)
  }

  lemma HeadOnce(l: seq<nat>)
    requires NoDup(l) && l != []
    ensures l[0] !in l[1..] && NoDup(l[1..])
  {
  }

  lemma {:induction false} WithoutMembers(l: seq<nat>, c: nat, x: nat)
    requires NoDup(l)
    ensures x in Without(l, c) <==> x in l && x != c
    decreases |l|
  {
    if l != [] {
      assert NoDup(l[1..]);
      assert x in l <==> x == l[0] || x in l[1..];
      if l[0] == c {
        HeadOnce(l);
      } else {
        WithoutMembers(l[1..], c, x);
      }
    }
  }

  lemma {:induction false} WithoutNoDup(l: seq<nat>, c: nat)
    requires NoDup(l)
    ensures NoDup(Without(l, c))
    decreases |l|
  {
    if l != [] {
      assert NoDup(l[1..]);
      if l[0] != c {
        WithoutNoDup(l[1..], c);
        WithoutMembers(l[1..], c, l[0]);
        assert l[0] !in l[1..];
        var r := Without(l[1..], c);
        assert l[0] !in r;
        hide Without;
        assert NoDup([l[0]] + r);
      }
    }
  }

  lemma RemoveKeeps(w: map<Key, seq<nat>>, k: Key, c: nat)
    requires ListsOk(w)
    ensures ListsOk(Remove(w, k, c))
    ensures forall k', c' :: Indexed(Remove(w, k, c), k', c') <==> Indexed(w, k', c') && !(k' == k && c' == c)
  {
    if k in w {
      WithoutNoDup(w[k], c);
      forall x ensures x in Without(w[k], c) <==> x in w[k] && x != c { WithoutMembers(w[k], c, x); }
      hide NoDup, Without;
    }
  }

  lemma {:induction false} RemoveAllKeeps(w: map<Key, seq<nat>>, keys: seq<Key>, c: nat)
    requires ListsOk(w)
    ensures ListsOk(RemoveAll(w, keys, c))
    ensures forall k', c' :: Indexed(RemoveAll(w, keys, c), k', c') <==> Indexed(w, k', c') && !(k' in keys && c' == c)
    decreases |keys|
  {
    if keys != [] {
      hide ListsOk, Indexed, Remove;
      RemoveKeeps(w, keys[0], c);
      RemoveAllKeeps(Remove(w, keys[0], c), keys[1..], c);
      assert forall k :: k in keys <==> k == keys[0] || k in keys[1..];
    }
  }

  lemma AddKeeps(w: map<Key, seq<nat>>, k: Key, c: nat)
    requires ListsOk(w) && !Indexed(w, k, c)
    ensures ListsOk(Add(w, k, c))
    ensures forall k', c' :: Indexed(Add(w, k, c), k', c') <==> Indexed(w, k', c') || (k' == k && c' == c)
  {
  }

  // ---- The steps ----

  /** A new client; also what the record of a client that is not connected counts as. */
  function Fresh<C>(): Client<C> {
    Client(0, false, false, false, [], [])
  }

  function ClientOf<C>(s: State<C>, c: nat): Client<C> {
    if c in s.clients then s.clients[c] else Fresh()
  }

  function With<C>(s: State<C>, c: nat, cl: Client<C>): State<C> {
    s.(clients := s.clients[c := cl])
  }

  function Noted<C>(s: State<C>, n: Note): State<C> {
    s.(trace := s.trace + [n])
  }

  /** watchForKey. */
  function WatchForKey<C>(s: State<C>, c: nat, k: Key): State<C>
    requires c in s.clients
  {
    var cl := s.clients[c];
    Noted(if k in cl.watched then s
          else With(s, c, cl.(watched := cl.watched + [k])).(watchers := Add(s.watchers, k, c)),
          Watched(c, k))
  }

  function WatchAll<C>(s: State<C>, c: nat, names: seq<seq<char>>): State<C>
    requires c in s.clients
    decreases |names|
  {
    if names == [] then s else WatchAll(WatchForKey(s, c, (s.clients[c].db, names[0])), c, names[1..])
  }

  /** unwatchAllKeys, with the flag cleared as its callers do. */
  function Forget<C>(s: State<C>, c: nat): State<C>
    requires c in s.clients
  {
    var cl := s.clients[c];
    var s1 := With(s, c, cl.(watched := [], dirtyCas := false));
    Noted(s1.(watchers := RemoveAll(s.watchers, cl.watched, c)), Forgot(c))
  }

  /** The part of discardTransaction that concerns the queue. */
  function EndTransaction<C>(s: State<C>, c: nat): State<C>
    requires c in s.clients
  {
    Noted(With(s, c, s.clients[c].(multi := false, dirtyExec := false, queue := [])), Ended(c))
  }

  /** discardTransaction. */
  function Discard<C>(s: State<C>, c: nat): State<C>
    requires c in s.clients
  {
    Forget(EndTransaction(s, c), c)
  }

  /** touchWatchedKey, and the change to the key that caused it. */
  function Touch<C>(s: State<C>, k: Key, alive: bool): State<C> {
    Noted(s.(clients := map c | c in s.clients ::
                          if Indexed(s.watchers, k, c) then s.clients[c].(dirtyCas := true) else s.clients[c],
             present := PresentIf(s.present, k, alive)),
          Touched(k, alive))
  }

  /** A client watches a key that exists and that the flush removes. */
  predicate LosesKey(watched: seq<Key>, present: set<Key>, db: int) {
    exists k :: k in watched && InDb(k, db) && k in present
  }

  /** touchWatchedKeysOnFlush, and the flush. */
  function Flush<C>(s: State<C>, db: int): State<C> {
    Noted(s.(clients := map c | c in s.clients ::
                          if LosesKey(s.clients[c].watched, s.present, db) then s.clients[c].(dirtyCas := true)
                          else s.clients[c],
             present := set k | k in s.present && !InDb(k, db)),
          Flushed(db))
  }

  /** A key comes or goes and touchWatchedKey is not called: it expires, is evicted, or is one of MOVE's two keys. */
  function ChangeQuietly<C>(s: State<C>, k: Key, alive: bool): State<C> {
    Noted(s.(present := PresentIf(s.present, k, alive)), Quiet(k, alive))
  }

  /** What a command does that matters here; UNWATCH may be part of a transaction. */
  datatype Effect = Modify(k: Key, alive: bool)
                  | ModifyQuietly(k: Key, alive: bool)
                  | FlushDb(db: int)
                  | SelectDb(db: int)
                  | Unwatch

  function Apply<C>(s: State<C>, c: nat, e: Effect): (r: State<C>)
    requires c in s.clients
    ensures r.clients.Keys == s.clients.Keys && r.log == s.log
  {
    match e
    case Modify(k, alive) => Touch(s, k, alive)
    case FlushDb(db) => Flush(s, db)
    case ModifyQuietly(k, alive) => ChangeQuietly(s, k, alive)
    case SelectDb(db) => With(s, c, s.clients[c].(db := db))
    case Unwatch => Forget(s, c)
  }

  function ApplyAll<C>(s: State<C>, c: nat, es: seq<Effect>): (r: State<C>)
    requires c in s.clients
    ensures r.clients.Keys == s.clients.Keys && r.log == s.log
    decreases |es|
  {
    if es == [] then s else ApplyAll(Apply(s, c, es[0]), c, es[1..])
  }

  /** call(): the command runs. */
  function Call<C>(s: State<C>, c: nat, cmd: C, es: seq<Effect>): (r: State<C>)
    requires c in s.clients
    ensures r.clients.Keys == s.clients.Keys && r.log == s.log + [(c, cmd)]
  {
    ApplyAll(s.(log := s.log + [(c, cmd)]), c, es)
  }

  /** The loop of execCommand; es holds what each command does. */
  function CallAll<C>(s: State<C>, c: nat, cmds: seq<C>, es: seq<seq<Effect>>): (r: State<C>)
    requires c in s.clients && |es| == |cmds|
    ensures r.clients.Keys == s.clients.Keys
    decreases |cmds|
  {
    if cmds == [] then s else CallAll(Call(s, c, cmds[0], es[0]), c, cmds[1..], es[1..])
  }

  datatype Reply = Results(n: nat) | Nil | ExecAbort | Refused

  /** execCommand. */
  function Exec<C>(s: State<C>, c: nat, es: seq<seq<Effect>>): (State<C>, Reply)
    requires c in s.clients && |es| == |s.clients[c].queue|
  {
    var cl := s.clients[c];
    if !cl.multi then (s, Refused)
    else if cl.dirtyCas || cl.dirtyExec then (Discard(s, c), if cl.dirtyExec then ExecAbort else Nil)
    else (Discard(CallAll(Forget(s, c), c, cl.queue, es), c), Results(|cl.queue|))
  }

  datatype Event<C> = Connect(c: nat)
                    | Disconnect(c: nat)
                    | WatchCmd(c: nat, names: seq<seq<char>>)
                    | MultiCmd(c: nat)
                    | DiscardCmd(c: nat)
                    | ExecCmd(c: nat, effects: seq<seq<Effect>>)
                    | Command(c: nat, cmd: C, effect: seq<Effect>)
                    | Erroneous(c: nat)
                    | KeyExpires(k: Key)

  ghost predicate Enabled<C>(s: State<C>, e: Event<C>) {
    match e
    case Connect(c) => c !in s.clients
    case KeyExpires(_) => true
    case ExecCmd(c, es) => c in s.clients && |es| == |s.clients[c].queue|
    case _ => e.c in s.clients
  }

  /** freeClient. */
  function Free<C>(s: State<C>, c: nat): State<C>
    requires c in s.clients
  {
    var s1 := Discard(s, c);
    s1.(clients := s1.clients - {c})
  }

  /** flagTransaction. */
  function Flag<C>(s: State<C>, c: nat): State<C>
    requires c in s.clients
  {
    Noted(if s.clients[c].multi then With(s, c, s.clients[c].(dirtyExec := true)) else s, Failed(c))
  }

  /** multiCommand. */
  function Begin<C>(s: State<C>, c: nat): State<C>
    requires c in s.clients
  {
    if s.clients[c].multi then s else Noted(With(s, c, s.clients[c].(multi := true)), Began(c))
  }

  /** The last lines of processCommand: inside a transaction the command is queued, otherwise it runs. */
  function Process<C>(s: State<C>, c: nat, cmd: C, es: seq<Effect>): State<C>
    requires c in s.clients
  {
    var cl := s.clients[c];
    if cl.multi then With(s, c, cl.(queue := cl.queue + [cmd])) else Call(s, c, cmd, es)
  }

  function Step<C>(s: State<C>, e: Event<C>): State<C>
    requires Enabled(s, e)
  {
    match e
    case Connect(c) => With(s, c, Fresh())
    case Disconnect(c) => Free(s, c)
    case WatchCmd(c, names) => if s.clients[c].multi then s else WatchAll(s, c, names)
    case MultiCmd(c) => Begin(s, c)
    case DiscardCmd(c) => if s.clients[c].multi then Discard(s, c) else s
    case ExecCmd(c, es) => Exec(s, c, es).0
    case Command(c, cmd, es) => Process(s, c, cmd, es)
    case Erroneous(c) => Flag(s, c)
    case KeyExpires(k) => ChangeQuietly(s, k, false)
  }

  // ---- The invariant ----

  /** The flags and the watched keys of a client are what the past says. */
  ghost predicate ClientOk<C>(cl: Client<C>, t: seq<Note>, c: nat) {
    && (forall k :: k in cl.watched <==> WatchedSince(t, c, k))
    && (cl.dirtyCas <==> TouchedSince(t, c))
    && (cl.multi <==> BeganSince(t, c))
    && (cl.dirtyExec <==> FailedSince(t, c))
    && (!cl.multi ==> cl.queue == [])
    && NoDup(cl.watched)
  }

  /** The table of a database lists a client under a key exactly if the client lists the key. */
  ghost predicate Inverse<C>(s: State<C>) {
    forall k, c :: Indexed(s.watchers, k, c) <==> k in ClientOf(s, c).watched
  }

  ghost predicate Inv<C(!new)>(s: State<C>) {
    && ListsOk(s.watchers) && Inverse(s)
    && s.present == Present(s.trace)
    && forall c :: ClientOk(ClientOf(s, c), s.trace, c)
  }

  /** How a client changes when something happens. */
  ghost predicate Follows<C>(cl: Client<C>, t: seq<Note>, c: nat, n: Note, cl': Client<C>) {
    && (forall k :: k in cl'.watched <==> n == Watched(c, k) || (n != Forgot(c) && k in cl.watched))
    && (cl'.dirtyCas <==> n != Forgot(c) && (cl.dirtyCas || exists k :: k in cl.watched && HitNow(t, n, k)))
    && (cl'.multi <==> n == Began(c) || (n != Ended(c) && cl.multi))
    && (cl'.dirtyExec <==> n != Ended(c) && (cl.dirtyExec || (n == Failed(c) && cl.multi)))
    && (!cl'.multi ==> cl'.queue == [])
    && NoDup(cl'.watched)
  }

  lemma NoteKeeps<C>(cl: Client<C>, t: seq<Note>, c: nat, n: Note, cl': Client<C>)
    requires ClientOk(cl, t, c) && Follows(cl, t, c, n, cl')
    ensures ClientOk(cl', t + [n], c)
  {
    hide WatchedSince, TouchedSince, BeganSince, FailedSince, HitNow, NoDup;
    forall k ensures k in cl'.watched <==> WatchedSince(t + [n], c, k) {
      WatchedNext(t, n, c, k);
    }
    TouchedNext(t, n, c);
    BeganNext(t, n, c);
    FailedNext(t, n, c);
  }

  lemma PresentNext(t: seq<Note>, n: Note)
    ensures Present(t + [n]) == PresentAfter(Present(t), n)
  {
    assert (t + [n])[..|t|] == t;
  }

  /** A step that notes one thing keeps the invariant if every client follows it and the index is maintained. */
  lemma NotedKeeps<C(!new)>(s: State<C>, n: Note, s': State<C>)
    requires Inv(s) && s'.trace == s.trace + [n] && ListsOk(s'.watchers) && Inverse(s')
    requires s'.present == Present(s.trace + [n])
    requires forall c :: Follows(ClientOf(s, c), s.trace, c, n, ClientOf(s', c))
    ensures Inv(s')
  {
    hide ListsOk, Inverse, Present, ClientOk, Follows, ClientOf;
    forall c ensures ClientOk(ClientOf(s', c), s'.trace, c) {
      NoteKeeps(ClientOf(s, c), s.trace, c, n, ClientOf(s', c));
    }
  }

  lemma OthersFollow<C>(cl: Client<C>, t: seq<Note>, c: nat, n: Note)
    requires ClientOk(cl, t, c)
    requires forall k :: n != Watched(c, k)
    requires n != Forgot(c) && n != Began(c) && n != Ended(c) && n != Failed(c) && !n.Touched? && !n.Flushed?
    ensures Follows(cl, t, c, n, cl)
  {
    hide WatchedSince, TouchedSince, BeganSince, FailedSince, NoDup;
  }

  lemma WatchFollows<C>(cl: Client<C>, t: seq<Note>, c: nat, k: Key)
    requires ClientOk(cl, t, c)
    ensures Follows(cl, t, c, Watched(c, k), if k in cl.watched then cl else cl.(watched := cl.watched + [k]))
  {
    hide WatchedSince, TouchedSince, BeganSince, FailedSince;
  }

  lemma WatchForKeyKeeps<C(!new)>(s: State<C>, c: nat, k: Key)
    requires Inv(s) && c in s.clients
    ensures Inv(WatchForKey(s, c, k))
  {
    var s', n := WatchForKey(s, c, k), Watched(c, k);
    PresentNext(s.trace, n);
    hide WatchedSince, TouchedSince, BeganSince, FailedSince, Present, ListsOk;
    if k !in s.clients[c].watched {
      AddKeeps(s.watchers, k, c);
    }
    hide Add, Indexed, Follows;
    assert ClientOk(ClientOf(s, c), s.trace, c);
    WatchFollows(ClientOf(s, c), s.trace, c, k);
    forall c' ensures Follows(ClientOf(s, c'), s.trace, c', n, ClientOf(s', c')) {
      if c' != c { OthersFollow(ClientOf(s, c'), s.trace, c', n); }
    }
    NotedKeeps(s, n, s');
  }

  lemma ForgetKeeps<C(!new)>(s: State<C>, c: nat)
    requires Inv(s) && c in s.clients
    ensures Inv(Forget(s, c))
  {
    var s', n := Forget(s, c), Forgot(c);
    PresentNext(s.trace, n);
    RemoveAllKeeps(s.watchers, s.clients[c].watched, c);
    hide WatchedSince, TouchedSince, BeganSince, FailedSince, Present, ListsOk, RemoveAll, Indexed;
    forall c' ensures Follows(ClientOf(s, c'), s.trace, c', n, ClientOf(s', c')) {
      if c' != c { OthersFollow(ClientOf(s, c'), s.trace, c', n); }
    }
    NotedKeeps(s, n, s');
  }

  /** A step that leaves the watched keys of all clients and the keys of the dataset alone. */
  lemma FlagsKeep<C(!new)>(s: State<C>, c: nat, n: Note, cl': Client<C>)
    requires Inv(s) && c in s.clients && (n == Began(c) || n == Failed(c) || n == Ended(c))
    requires cl'.watched == s.clients[c].watched && Follows(s.clients[c], s.trace, c, n, cl')
    ensures Inv(Noted(With(s, c, cl'), n))
  {
    var s' := Noted(With(s, c, cl'), n);
    PresentNext(s.trace, n);
    hide WatchedSince, TouchedSince, BeganSince, FailedSince, Present, ListsOk, Indexed;
    forall c' ensures Follows(ClientOf(s, c'), s.trace, c', n, ClientOf(s', c')) {
      if c' != c { OthersFollow(ClientOf(s, c'), s.trace, c', n); }
    }
    hide Follows;
    NotedKeeps(s, n, s');
  }

  lemma EndTransactionKeeps<C(!new)>(s: State<C>, c: nat)
    requires Inv(s) && c in s.clients
    ensures Inv(EndTransaction(s, c))
  {
    var cl := s.clients[c];
    assert ClientOk(ClientOf(s, c), s.trace, c);
    FlagsKeep(s, c, Ended(c), cl.(multi := false, dirtyExec := false, queue := []));
    hide Inv;
  }

  lemma BeginKeeps<C(!new)>(s: State<C>, c: nat)
    requires Inv(s) && c in s.clients
    ensures Inv(Begin(s, c))
  {
    var cl := s.clients[c];
    assert ClientOk(ClientOf(s, c), s.trace, c);
    if !cl.multi {
      FlagsKeep(s, c, Began(c), cl.(multi := true));
    }
    hide Inv;
  }

  lemma FlagKeeps<C(!new)>(s: State<C>, c: nat)
    requires Inv(s) && c in s.clients
    ensures Inv(Flag(s, c))
  {
    var cl := s.clients[c];
    assert ClientOk(ClientOf(s, c), s.trace, c);
    FlagsKeep(s, c, Failed(c), if cl.multi then cl.(dirtyExec := true) else cl);
    hide Inv;
    assert With(s, c, cl) == s;
  }

  lemma TouchFollows<C>(cl: Client<C>, t: seq<Note>, c: nat, k: Key, alive: bool)
    requires ClientOk(cl, t, c)
    ensures Follows(cl, t, c, Touched(k, alive), if k in cl.watched then cl.(dirtyCas := true) else cl)
  {
    hide WatchedSince, TouchedSince, BeganSince, FailedSince, NoDup;
    assert HitNow(t, Touched(k, alive), k);
  }

  lemma TouchMarks<C(!new)>(s: State<C>, k: Key, alive: bool)
    requires Inv(s)
    ensures forall d :: d in s.clients ==>
              Touch(s, k, alive).clients[d]
              == if k in s.clients[d].watched then s.clients[d].(dirtyCas := true) else s.clients[d]
  {
    hide ListsOk, Present, ClientOk, Indexed;
    forall d | d in s.clients ensures Indexed(s.watchers, k, d) <==> k in s.clients[d].watched {
      assert Indexed(s.watchers, k, d) <==> k in ClientOf(s, d).watched;
    }
  }

  lemma TouchKeeps<C(!new)>(s: State<C>, k: Key, alive: bool)
    requires Inv(s)
    ensures Inv(Touch(s, k, alive))
    ensures forall d :: d in s.clients ==>
              Touch(s, k, alive).clients[d]
              == if k in s.clients[d].watched then s.clients[d].(dirtyCas := true) else s.clients[d]
  {
    TouchMarks(s, k, alive);
    var s', n := Touch(s, k, alive), Touched(k, alive);
    PresentNext(s.trace, n);
    hide WatchedSince, TouchedSince, BeganSince, FailedSince, Present, ListsOk, Indexed;
    forall c ensures Follows(ClientOf(s, c), s.trace, c, n, ClientOf(s', c)) {
      TouchFollows(ClientOf(s, c), s.trace, c, k, alive);
      assert Indexed(s.watchers, k, c) <==> k in ClientOf(s, c).watched;
    }
    hide Follows;
    assert forall c :: ClientOf(s', c).watched == ClientOf(s, c).watched;
    NotedKeeps(s, n, s');
  }

  lemma FlushFollows<C>(cl: Client<C>, t: seq<Note>, c: nat, db: int)
    requires ClientOk(cl, t, c)
    ensures Follows(cl, t, c, Flushed(db), if LosesKey(cl.watched, Present(t), db) then cl.(dirtyCas := true) else cl)
  {
    hide WatchedSince, TouchedSince, BeganSince, FailedSince, NoDup, Present;
    assert LosesKey(cl.watched, Present(t), db) <==> exists k :: k in cl.watched && HitNow(t, Flushed(db), k);
  }

  lemma FlushKeeps<C(!new)>(s: State<C>, db: int)
    requires Inv(s)
    ensures Inv(Flush(s, db))
  {
    var s', n := Flush(s, db), Flushed(db);
    PresentNext(s.trace, n);
    hide WatchedSince, TouchedSince, BeganSince, FailedSince, Present, ListsOk, Indexed, LosesKey;
    forall c ensures Follows(ClientOf(s, c), s.trace, c, n, ClientOf(s', c)) {
      FlushFollows(ClientOf(s, c), s.trace, c, db);
      NothingToLose(s.present, db);
    }
    hide Follows;
    assert forall c :: ClientOf(s', c).watched == ClientOf(s, c).watched;
    NotedKeeps(s, n, s');
  }

  lemma ChangeQuietlyKeeps<C(!new)>(s: State<C>, k: Key, alive: bool)
    requires Inv(s)
    ensures var s' := ChangeQuietly(s, k, alive);
            && Inv(s') && s'.clients == s.clients
            && (forall c :: TouchedSince(s'.trace, c) <==> TouchedSince(s.trace, c))
            && (forall c :: FailedSince(s'.trace, c) <==> FailedSince(s.trace, c))
  {
    var s', n := ChangeQuietly(s, k, alive), Quiet(k, alive);
    PresentNext(s.trace, n);
    forall c
      ensures TouchedSince(s'.trace, c) <==> TouchedSince(s.trace, c)
      ensures FailedSince(s'.trace, c) <==> FailedSince(s.trace, c)
    {
      TouchedNext(s.trace, n, c);
      FailedNext(s.trace, n, c);
    }
    hide WatchedSince, TouchedSince, BeganSince, FailedSince, Present, ListsOk, Indexed;
    forall c ensures Follows(ClientOf(s, c), s.trace, c, n, ClientOf(s', c)) {
      OthersFollow(ClientOf(s, c), s.trace, c, n);
    }
    hide Follows;
    NotedKeeps(s, n, s');
  }

  lemma NothingToLose(present: set<Key>, db: int)
    ensures !LosesKey([], present, db)
  {
  }

  /** Changing the database, the queue or the log keeps the invariant. */
  lemma SilentKeeps<C(!new)>(s: State<C>, c: nat, cl': Client<C>, log: seq<(nat, C)>)
    requires Inv(s) && c in s.clients
    requires cl' == s.clients[c].(db := cl'.db, queue := cl'.queue) && (!cl'.multi ==> cl'.queue == [])
    ensures Inv(With(s, c, cl').(log := log))
  {
    var s' := With(s, c, cl').(log := log);
    hide WatchedSince, TouchedSince, BeganSince, FailedSince, Present, ListsOk, Indexed, NoDup;
    assert forall c' :: ClientOf(s', c').watched == ClientOf(s, c').watched;
    forall c' ensures ClientOk(ClientOf(s', c'), s'.trace, c') {
      assert ClientOk(ClientOf(s, c'), s.trace, c');
    }
  }

  lemma ApplyKeeps<C(!new)>(s: State<C>, c: nat, e: Effect)
    requires Inv(s) && c in s.clients
    ensures Inv(Apply(s, c, e))
  {
    assert ClientOk(ClientOf(s, c), s.trace, c);
    assert s.clients[c].multi || s.clients[c].queue == [];
    hide Inv, ClientOk;
    match e
    case Modify(k, alive) => TouchKeeps(s, k, alive);
    case FlushDb(db) => FlushKeeps(s, db);
    case ModifyQuietly(k, alive) => ChangeQuietlyKeeps(s, k, alive);
    case SelectDb(db) =>
      SilentKeeps(s, c, s.clients[c].(db := db), s.log);
    case Unwatch => ForgetKeeps(s, c);
  }

  lemma {:induction false} ApplyAllKeeps<C(!new)>(s: State<C>, c: nat, es: seq<Effect>)
    requires Inv(s) && c in s.clients
    ensures Inv(ApplyAll(s, c, es))
    decreases |es|
  {
    if es != [] {
      hide Inv, Apply;
      ApplyKeeps(s, c, es[0]);
      ApplyAllKeeps(Apply(s, c, es[0]), c, es[1..]);
    }
  }

  lemma LogKeeps<C(!new)>(s: State<C>, log: seq<(nat, C)>)
    requires Inv(s)
    ensures Inv(s.(log := log))
  {
    hide ListsOk, Present, ClientOk;
    assert forall c :: ClientOf(s.(log := log), c) == ClientOf(s, c);
  }

  lemma CallKeeps<C(!new)>(s: State<C>, c: nat, cmd: C, es: seq<Effect>)
    requires Inv(s) && c in s.clients
    ensures Inv(Call(s, c, cmd, es))
  {
    hide Inv, ApplyAll;
    LogKeeps(s, s.log + [(c, cmd)]);
    ApplyAllKeeps(s.(log := s.log + [(c, cmd)]), c, es);
  }

  /** The commands of a client, as entries of the log. */
  function Entries<C>(c: nat, cmds: seq<C>): seq<(nat, C)> {
    seq(|cmds|, i requires 0 <= i < |cmds| => (c, cmds[i]))
  }

  lemma CallAllNext<C>(s: State<C>, c: nat, cmds: seq<C>, es: seq<seq<Effect>>)
    requires c in s.clients && |es| == |cmds|
    ensures cmds == [] ==> CallAll(s, c, cmds, es) == s
    ensures cmds != [] ==> CallAll(s, c, cmds, es) == CallAll(Call(s, c, cmds[0], es[0]), c, cmds[1..], es[1..])
  {
    hide Call;
  }

  lemma EntriesNext<C>(log: seq<(nat, C)>, c: nat, cmds: seq<C>)
    ensures cmds == [] ==> log + Entries(c, cmds) == log
    ensures cmds != [] ==> (log + [(c, cmds[0])]) + Entries(c, cmds[1..]) == log + Entries(c, cmds)
  {
  }

  lemma {:induction false} CallAllKeeps<C(!new)>(s: State<C>, c: nat, cmds: seq<C>, es: seq<seq<Effect>>)
    requires Inv(s) && c in s.clients && |es| == |cmds|
    ensures Inv(CallAll(s, c, cmds, es)) && CallAll(s, c, cmds, es).log == s.log + Entries(c, cmds)
    decreases |cmds|
  {
    hide *;
    CallAllNext(s, c, cmds, es);
    EntriesNext(s.log, c, cmds);
    if cmds != [] {
      CallKeeps(s, c, cmds[0], es[0]);
      CallAllKeeps(Call(s, c, cmds[0], es[0]), c, cmds[1..], es[1..]);
    }
  }

  lemma DiscardKeeps<C(!new)>(s: State<C>, c: nat)
    requires Inv(s) && c in s.clients
    ensures var s' := Discard(s, c);
            && Inv(s') && s'.clients.Keys == s.clients.Keys && s'.log == s.log
            && s'.clients[c] == Fresh().(db := s.clients[c].db)
  {
    hide Inv, RemoveAll;
    EndTransactionKeeps(s, c);
    ForgetKeeps(EndTransaction(s, c), c);
  }

  lemma {:induction false} WatchAllKeeps<C(!new)>(s: State<C>, c: nat, names: seq<seq<char>>)
    requires Inv(s) && c in s.clients
    ensures Inv(WatchAll(s, c, names))
    decreases |names|
  {
    if names != [] {
      hide Inv, Add;
      WatchForKeyKeeps(s, c, (s.clients[c].db, names[0]));
      WatchAllKeeps(WatchForKey(s, c, (s.clients[c].db, names[0])), c, names[1..]);
    }
  }

  lemma ConnectKeeps<C(!new)>(s: State<C>, c: nat)
    requires Inv(s) && c !in s.clients
    ensures Inv(With(s, c, Fresh()))
  {
    hide ListsOk, Present, ClientOk;
    assert forall c' :: ClientOf(With(s, c, Fresh()), c') == ClientOf(s, c');
  }

  lemma FreshOk<C>(t: seq<Note>, c: nat, cl: Client<C>)
    requires ClientOk(cl, t, c) && cl == Fresh().(db := cl.db)
    ensures ClientOk(Fresh<C>(), t, c)
  {
    hide WatchedSince, TouchedSince, BeganSince, FailedSince;
  }

  lemma FreeKeeps<C(!new)>(s: State<C>, c: nat)
    requires Inv(s) && c in s.clients
    ensures Inv(Free(s, c))
  {
    DiscardKeeps(s, c);
    var s1 := Discard(s, c);
    var s2 := Free(s, c);
    assert ClientOk(ClientOf(s1, c), s1.trace, c);
    FreshOk(s1.trace, c, s1.clients[c]);
    hide ListsOk, Present, ClientOk, Discard;
    assert forall c' :: c' != c ==> ClientOf(s2, c') == ClientOf(s1, c');
    assert forall c' :: ClientOf(s2, c').watched == ClientOf(s1, c').watched;
  }

  /**
    EXEC runs the queued commands, all of them and in order, exactly if no key that the client watches was changed
    after it was watched and no error was flagged while queueing; otherwise it runs none.  Either way the transaction
    is over and nothing is watched any more.
   */
  lemma ExecRunsAllOrNothing<C(!new)>(s: State<C>, c: nat, es: seq<seq<Effect>>)
    requires Inv(s) && c in s.clients && |es| == |s.clients[c].queue|
    ensures var cl := s.clients[c];
            var (s', r) := Exec(s, c, es);
            && Inv(s')
            && (!cl.multi ==> s' == s && r == Refused)
            && (cl.multi && !TouchedSince(s.trace, c) && !FailedSince(s.trace, c) ==>
                  s'.log == s.log + Entries(c, cl.queue) && r == Results(|cl.queue|))
            && (cl.multi && FailedSince(s.trace, c) ==> s'.log == s.log && r == ExecAbort)
            && (cl.multi && !FailedSince(s.trace, c) && TouchedSince(s.trace, c) ==> s'.log == s.log && r == Nil)
            && (cl.multi ==> c in s'.clients && s'.clients[c] == Fresh().(db := s'.clients[c].db))
  {
    assert ClientOk(ClientOf(s, c), s.trace, c);
    var cl := s.clients[c];
    ForgetKeeps(s, c);
    assert Forget(s, c).log == s.log;
    hide Inv, WatchedSince, TouchedSince, BeganSince, FailedSince, Forget, Discard, CallAll;
    if cl.multi {
      if cl.dirtyCas || cl.dirtyExec {
        DiscardKeeps(s, c);
      } else {
        CallAllKeeps(Forget(s, c), c, cl.queue, es);
        DiscardKeeps(CallAll(Forget(s, c), c, cl.queue, es), c);
      }
    }
  }

  /**
    Watching does not notice a quiet change: a transaction that would be executed before it is executed after it, also
    when the client watches the key.
   */
  lemma QuietChangeStillExecs<C(!new)>(s: State<C>, k: Key, alive: bool, c: nat, es: seq<seq<Effect>>)
    requires Inv(s) && c in s.clients && s.clients[c].multi && |es| == |s.clients[c].queue|
    requires !TouchedSince(s.trace, c) && !FailedSince(s.trace, c)
    ensures var (s', r) := Exec(ChangeQuietly(s, k, alive), c, es);
            s'.log == s.log + Entries(c, s.clients[c].queue) && r == Results(|s.clients[c].queue|)
  {
    ChangeQuietlyKeeps(s, k, alive);
    assert ChangeQuietly(s, k, alive).log == s.log;
    hide Exec, Inv, ChangeQuietly, TouchedSince, FailedSince;
    ExecRunsAllOrNothing(ChangeQuietly(s, k, alive), c, es);
  }

  lemma ProcessKeeps<C(!new)>(s: State<C>, c: nat, cmd: C, es: seq<Effect>)
    requires Inv(s) && c in s.clients
    ensures Inv(Process(s, c, cmd, es))
  {
    hide Inv, Call;
    var cl := s.clients[c];
    if cl.multi {
      SilentKeeps(s, c, cl.(queue := cl.queue + [cmd]), s.log);
    } else {
      CallKeeps(s, c, cmd, es);
    }
  }

  lemma StepKeeps<C(!new)>(s: State<C>, e: Event<C>)
    requires Inv(s) && Enabled(s, e)
    ensures Inv(Step(s, e))
  {
    hide Inv, Free, WatchAll, Begin, Discard, Exec, Process, Flag, TouchedSince, FailedSince;
    match e
    case Connect(c) => ConnectKeeps(s, c);
    case Disconnect(c) => FreeKeeps(s, c);
    case WatchCmd(c, names) => WatchAllKeeps(s, c, names);
    case MultiCmd(c) => BeginKeeps(s, c);
    case DiscardCmd(c) => DiscardKeeps(s, c);
    case ExecCmd(c, es) => ExecRunsAllOrNothing(s, c, es);
    case Command(c, cmd, es) => ProcessKeeps(s, c, cmd, es);
    case Erroneous(c) => FlagKeeps(s, c);
    case KeyExpires(k) => ChangeQuietlyKeeps(s, k, false);
  }

  // ---- Runs ----

  ghost predicate AllEnabled<C>(s: State<C>, es: seq<Event<C>>)
    decreases |es|
  {
    es == [] || (Enabled(s, es[0]) && AllEnabled(Step(s, es[0]), es[1..]))
  }

  ghost function Run<C>(s: State<C>, es: seq<Event<C>>): State<C>
    requires AllEnabled(s, es)
    decreases |es|
  {
    if es == [] then s else Run(Step(s, es[0]), es[1..])
  }

  function Empty<C>(): State<C> {
    State(map[], map[], {}, [], [])
  }

  lemma EmptyOk<C(!new)>()
    ensures Inv(Empty<C>())
  {
  }

  lemma {:induction false} RunKeeps<C(!new)>(s: State<C>, es: seq<Event<C>>)
    requires Inv(s) && AllEnabled(s, es)
    ensures Inv(Run(s, es))
    decreases |es|
  {
    hide Inv, Step, Enabled;
    if es != [] {
      StepKeeps(s, es[0]);
      RunKeeps(Step(s, es[0]), es[1..]);
    }
  }

  lemma InvMeans<C(!new)>(s: State<C>)
    requires Inv(s)
    ensures forall k, c :: Indexed(s.watchers, k, c) <==> c in s.clients && k in s.clients[c].watched
    ensures ListsOk(s.watchers)
    ensures forall c :: c in s.clients ==> NoDup(s.clients[c].watched)
    ensures forall c :: c in s.clients ==> (s.clients[c].dirtyCas <==> TouchedSince(s.trace, c))
  {
    hide WatchedSince, TouchedSince, BeganSince, FailedSince, Present, NoDup, Indexed, ListsOk;
    forall c | c in s.clients
      ensures NoDup(s.clients[c].watched) && (s.clients[c].dirtyCas <==> TouchedSince(s.trace, c))
    {
      assert ClientOk(ClientOf(s, c), s.trace, c);
    }
  }
}
