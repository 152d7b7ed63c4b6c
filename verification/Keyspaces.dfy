/** The keys of all databases as one table, and when it holds just what the rows of the databases stand for. */
module Keyspaces {
  import opened Bytes

  type Table<E> = map<(int, seq<byte>), E>

  predicate IsRow<R>(dbs: seq<seq<R>>, j: int, i: int) {
    0 <= j < |dbs| && 0 <= i < |dbs[j]|
  }

  /** Row (j, i) comes before row (j', i') when databases are visited in order. */
  predicate Before(j: int, i: int, j': int, i': int) {
    j < j' || (j == j' && i < i')
  }

  ghost predicate UniqueKeys<R(!new)>(dbs: seq<seq<R>>, key: R -> seq<byte>) {
    forall j, i :: IsRow(dbs, j, i) ==> forall i' :: 0 <= i' < i ==> key(dbs[j][i']) != key(dbs[j][i])
  }

  /** d holds the entries of the rows before (j, i) that stand for one, and nothing else. */
  ghost predicate Live<R(!new), E(!new)>(d: Table<E>, dbs: seq<seq<R>>, j: nat, i: nat,
                                        key: R -> seq<byte>, entry: R -> Option<E>)
  {
    && (forall a, b :: IsRow(dbs, a, b) && Before(a, b, j, i) && entry(dbs[a][b]).Some? ==>
          (a, key(dbs[a][b])) in d && d[(a, key(dbs[a][b]))] == entry(dbs[a][b]).value)
    && (forall k :: k in d ==>
          exists b :: IsRow(dbs, k.0, b) && Before(k.0, b, j, i) && entry(dbs[k.0][b]).Some? && key(dbs[k.0][b]) == k.1)
  }

  /** d holds the entries of all rows that stand for one, and nothing else. */
  ghost predicate IsLive<R(!new), E(!new)>(d: Table<E>, dbs: seq<seq<R>>, key: R -> seq<byte>, entry: R -> Option<E>) {
    Live(d, dbs, |dbs|, 0, key, entry)
  }

  function WithRow<R, E>(d: Table<E>, j: int, r: R, key: R -> seq<byte>, entry: R -> Option<E>): Table<E> {
    if entry(r).Some? then d[(j, key(r)) := entry(r).value] else d
  }

  lemma LiveStep<R(!new), E(!new)>(d: Table<E>, dbs: seq<seq<R>>, j: nat, i: nat, key: R -> seq<byte>,
                                   entry: R -> Option<E>)
    requires UniqueKeys(dbs, key) && IsRow(dbs, j, i) && Live(d, dbs, j, i, key, entry)
    ensures (j, key(dbs[j][i])) !in d
    ensures Live(WithRow(d, j, dbs[j][i], key, entry), dbs, j, i + 1, key, entry)
  {
    var d' := WithRow(d, j, dbs[j][i], key, entry);
    forall k | k in d'
      ensures exists b :: IsRow(dbs, k.0, b) && Before(k.0, b, j, i + 1)
                       && entry(dbs[k.0][b]).Some? && key(dbs[k.0][b]) == k.1
    {
      if k in d {
        var b :| IsRow(dbs, k.0, b) && Before(k.0, b, j, i) && entry(dbs[k.0][b]).Some? && key(dbs[k.0][b]) == k.1;
        assert Before(k.0, b, j, i + 1);
      } else {
        assert Before(j, i, j, i + 1);
      }
    }
  }

  lemma LiveNext<R(!new), E(!new)>(d: Table<E>, dbs: seq<seq<R>>, j: nat, key: R -> seq<byte>, entry: R -> Option<E>)
    requires j < |dbs| && Live(d, dbs, j, |dbs[j]|, key, entry)
    ensures Live(d, dbs, j + 1, 0, key, entry)
  {
    forall a, b | IsRow(dbs, a, b)
      ensures Before(a, b, j, |dbs[j]|) <==> Before(a, b, j + 1, 0)
    {
    }
  }

  /** Only one table holds just the entries of the rows. */
  lemma LiveIsUnique<R(!new), E(!new)>(d1: Table<E>, d2: Table<E>, dbs: seq<seq<R>>, key: R -> seq<byte>,
                                       entry: R -> Option<E>)
    requires IsLive(d1, dbs, key, entry) && IsLive(d2, dbs, key, entry)
    ensures d1 == d2
  {
    forall k
      ensures k in d1 <==> k in d2
      ensures k in d1 && k in d2 ==> d1[k] == d2[k]
    {
      assert (k.0, k.1) == k;
    }
  }
}
