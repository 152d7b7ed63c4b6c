/** Whole passes of safe iterators: what they return of the keys that stay, that they end, and how many are counted. */
module DictPasses {
  import opened Bytes
  import opened DictSpec
  import opened DictIter

  // ---- The count of iterators ----

  lemma HappenCounts<K(!new), V>(hash: K -> Hash, w: World<K, V>, e: Event<K, V>)
    requires WorldOk(hash, w) && Allowed(w, e)
    ensures var w' := Happen(hash, w, e);
            w'.s.iterators - CountStarted(w'.passes) == w.s.iterators - CountStarted(w.passes)
  {
    hide WorldOk, Happen, Allowed, CountStarted;
    match e
    case EvOpen => OpenCounts(hash, w);
    case EvNext(i) => AdvanceCounts(hash, w, i);
    case EvRelease(i) => ReleaseCounts(hash, w, i);
    case _ => ChangeCounts(hash, w, e);
  }

  lemma ChangeCounts<K(!new), V>(hash: K -> Hash, w: World<K, V>, e: Event<K, V>)
    requires WorldOk(hash, w) && IsChange(e) && Allowed(w, e)
    ensures var w' := Happen(hash, w, e);
            w'.s.iterators == w.s.iterators && CountStarted(w'.passes) == CountStarted(w.passes)
  {
    IsExec(hash, w, e);
    if e.EvDelete? { WithoutStarted(w.passes, e.k); }
    assert Represents(hash, w.s, w.m);
    hide *;
    CountSame(w.passes, Happen(hash, w, e).passes);
    ExecCounts(hash, w.s, w.m, OpOf(e));
  }

  lemma OpenCounts<K(!new), V>(hash: K -> Hash, w: World<K, V>)
    ensures var w' := Happen(hash, w, EvOpen);
            w'.s.iterators == w.s.iterators && CountStarted(w'.passes) == CountStarted(w.passes)
  {
    var p := Pass(Start(), w.m.Keys, [], false, false);
    CountSnoc(w.passes, p);
    hide CountStarted;
  }

  lemma AdvanceCounts<K(!new), V>(hash: K -> Hash, w: World<K, V>, i: nat)
    requires WorldOk(hash, w) && Allowed(w, EvNext(i))
    ensures var w' := Happen(hash, w, EvNext(i));
            w'.s.iterators - CountStarted(w'.passes) == w.s.iterators - CountStarted(w.passes)
  {
    var p := w.passes[i];
    var (s', it', r) := Next(w.s, p.it);
    assert AnyPassOk(hash, w.s, w.m, p);
    NextCounts(hash, w.s, w.m, p.it);
    NextReturns(hash, w.s, p.it);
    CountUpdate(w.passes, i, Returned(p, it', r));
    hide Represents, IterOk, Next, CountStarted, AnyPassOk, Pending;
  }

  lemma ReleaseCounts<K(!new), V>(hash: K -> Hash, w: World<K, V>, i: nat)
    requires WorldOk(hash, w) && Allowed(w, EvRelease(i))
    ensures var w' := Happen(hash, w, EvRelease(i));
            w'.s.iterators - CountStarted(w'.passes) == w.s.iterators - CountStarted(w.passes)
  {
    var p := w.passes[i];
    assert AnyPassOk(hash, w.s, w.m, p);
    IterBounds(hash, w.s, p.it);
    CountUpdate(w.passes, i, p.(released := true));
    if Started(p) { CountPositive(w.passes, i); }
    hide Represents, IterOk, CountStarted, AnyPassOk;
  }

  /**
    Over any run the dictionary counts exactly the iterators that were started and not released, besides those that it
    counted before: so rehashing goes on as soon as the last one is released.
   */
  lemma {:induction false} CountIsExact<K(!new), V>(hash: K -> Hash, w: World<K, V>, es: seq<Event<K, V>>)
    requires WorldOk(hash, w) && AllAllowed(hash, w, es)
    ensures var w' := HappenAll(hash, w, es);
            w'.s.iterators - CountStarted(w'.passes) == w.s.iterators - CountStarted(w.passes)
    decreases |es|
  {
    hide WorldOk, Happen, Allowed, CountStarted;
    if es != [] {
      HappenKeeps(hash, w, es[0]);
      HappenCounts(hash, w, es[0]);
      CountIsExact(hash, Happen(hash, w, es[0]), es[1..]);
    }
  }

  // ---- Which keys are live ----

  lemma LiveStep<K(!new), V>(hash: K -> Hash, w: World<K, V>, e: Event<K, V>, i: nat, k: K)
    requires Allowed(w, e) && i < |w.passes| && k in w.passes[i].live && e != EvDelete(k)
    ensures var w' := Happen(hash, w, e); i < |w'.passes| && k in w'.passes[i].live
  {
    hide Next, Release, Add, Replace, Find, Delete, Expand, Resize;
  }

  lemma {:induction false} LiveStays<K(!new), V>(hash: K -> Hash, w: World<K, V>, es: seq<Event<K, V>>, i: nat, k: K)
    requires AllAllowed(hash, w, es) && i < |w.passes| && k in w.passes[i].live
    requires forall e :: e in es ==> e != EvDelete(k)
    ensures var w' := HappenAll(hash, w, es); i < |w'.passes| && k in w'.passes[i].live
    decreases |es|
  {
    hide Happen, Allowed;
    if es != [] {
      assert es[0] in es;
      LiveStep(hash, w, es[0], i, k);
      assert forall e :: e in es[1..] ==> e in es;
      LiveStays(hash, Happen(hash, w, es[0]), es[1..], i, k);
    }
  }

  /**
    A key that is there when an iterator is opened, and is not deleted after that, has been returned by it exactly once
    when it reports the end, whatever else happens in between.
   */
  lemma StayingKeyReturnedOnce<K(!new), V>(hash: K -> Hash, w: World<K, V>, es: seq<Event<K, V>>, k: K)
    requires WorldOk(hash, w) && AllAllowed(hash, Happen(hash, w, EvOpen), es)
    requires k in w.m && forall e :: e in es ==> e != EvDelete(k)
    ensures var w' := HappenAll(hash, Happen(hash, w, EvOpen), es);
            var i := |w.passes|;
            i < |w'.passes| && (w'.passes[i].ended ==> multiset(w'.passes[i].out)[k] == 1)
  {
    var i, w1 := |w.passes|, Happen(hash, w, EvOpen);
    HappenKeeps(hash, w, EvOpen);
    assert w1.passes[i].live == w.m.Keys;
    LiveStays(hash, w1, es, i, k);
    HappenAllKeeps(hash, w1, es);
    var w' := HappenAll(hash, w1, es);
    EndedExact(hash, w', i);
    hide HappenAll, Happen, WorldOk, Exact;
    if w'.passes[i].ended { OutOnce(w'.passes[i], k); }
  }

  lemma OutOnce<K(!new)>(p: Pass<K>, k: K)
    requires Exact(p) && p.ended && k in p.live
    ensures multiset(p.out)[k] == 1
  {
  }

  lemma EndedExact<K(!new), V>(hash: K -> Hash, w: World<K, V>, i: nat)
    requires WorldOk(hash, w) && i < |w.passes|
    ensures Exact(w.passes[i])
  {
    assert AnyPassOk(hash, w.s, w.m, w.passes[i]);
    hide Represents, PassOk, Exact;
    if !w.passes[i].released { EndedIsExact(hash, w.s, w.m, w.passes[i]); }
  }

  // ---- A pass comes to its end ----

  ghost function PendingKeys<K(!new), V>(hash: K -> Hash, w: World<K, V>, i: nat): set<K>
    requires i < |w.passes|
  {
    set k | k in w.m.Keys && Pending(hash, w.s, w.passes[i].it, k)
  }

  function Calls<K, V>(i: nat, n: nat): seq<Event<K, V>> {
    seq(n, _ => EvNext(i))
  }

  lemma AdvanceUses<K(!new), V>(hash: K -> Hash, w: World<K, V>, i: nat)
    requires WorldOk(hash, w) && Open(w, i) && !w.passes[i].ended
    ensures Allowed(w, EvNext(i))
    ensures var w' := Happen(hash, w, EvNext(i));
            && Open(w', i)
            && (w'.passes[i].ended || |PendingKeys(hash, w', i)| < |PendingKeys(hash, w, i)|)
  {
    var p := w.passes[i];
    assert AnyPassOk(hash, w.s, w.m, p);
    IterBounds(hash, w.s, p.it);
    NextReturns(hash, w.s, p.it);
    var (s', it', r) := Next(w.s, p.it);
    var w' := Happen(hash, w, EvNext(i));
    if r.Some? {
      PendingIsThere(hash, w.s, w.m, p.it, r.value);
      hide IterOk, Represents, Next, Pending, AnyPassOk;
      assert PendingKeys(hash, w', i) == PendingKeys(hash, w, i) - {r.value};
    }
    hide IterOk, Represents, Next, Pending, AnyPassOk;
  }

  lemma PendingIsThere<K(!new), V>(hash: K -> Hash, s: State<K, V>, m: map<K, V>, it: Iter<K>, k: K)
    requires Represents(hash, s, m) && Pending(hash, s, it, k)
    ensures k in m
  {
    LookupNone(hash, s, m, k);
    hide Represents, Lookup;
  }

  lemma {:induction false} EndedStays<K(!new), V>(hash: K -> Hash, w: World<K, V>, i: nat, n: nat)
    requires WorldOk(hash, w) && Open(w, i) && (w.passes[i].ended || |PendingKeys(hash, w, i)| < n)
    ensures AllAllowed(hash, w, Calls(i, n))
    ensures var w' := HappenAll(hash, w, Calls(i, n)); Open(w', i) && w'.passes[i].ended
    decreases n
  {
    hide WorldOk, Happen, Allowed, PendingKeys;
    if n > 0 {
      assert Calls<K, V>(i, n)[0] == EvNext(i) && Calls<K, V>(i, n)[1..] == Calls(i, n - 1);
      AdvanceAgain(hash, w, i);
      HappenKeeps(hash, w, EvNext(i));
      if !w.passes[i].ended { AdvanceUses(hash, w, i); }
      EndedStays(hash, Happen(hash, w, EvNext(i)), i, n - 1);
    }
  }

  lemma AdvanceAgain<K(!new), V>(hash: K -> Hash, w: World<K, V>, i: nat)
    requires WorldOk(hash, w) && Open(w, i)
    ensures Allowed(w, EvNext(i))
    ensures var w' := Happen(hash, w, EvNext(i)); Open(w', i) && (w.passes[i].ended ==> w'.passes[i].ended)
  {
    assert AnyPassOk(hash, w.s, w.m, w.passes[i]);
    IterBounds(hash, w.s, w.passes[i].it);
    hide IterOk, Represents, Next, AnyPassOk;
  }

  /** Calling dictNext once more than there are keys ends the pass. */
  lemma PassEnds<K(!new), V>(hash: K -> Hash, w: World<K, V>, i: nat)
    requires WorldOk(hash, w) && Open(w, i)
    ensures AllAllowed(hash, w, Calls(i, |w.m| + 1))
    ensures var w' := HappenAll(hash, w, Calls(i, |w.m| + 1)); Open(w', i) && w'.passes[i].ended
  {
    Subset(PendingKeys(hash, w, i), w.m.Keys);
    hide WorldOk, AllAllowed, HappenAll;
    EndedStays(hash, w, i, |w.m| + 1);
  }

  lemma {:induction false} Subset<K>(a: set<K>, b: set<K>)
    requires a <= b
    ensures |a| <= |b|
    decreases a
  {
    if k :| k in a {
      Subset(a - {k}, b - {k});
    }
  }
}
