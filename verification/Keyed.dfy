// A dictionary that indexes the items of a list by a key of each item.
module Keyed {

  ghost predicate DistinctKeys<K, V>(es: seq<V>, key: V -> K) {
    forall i, j | 0 <= i < |es| && 0 <= j < |es| && i != j :: key(es[i]) != key(es[j])
  }

  ghost predicate Indexed<K, V>(m: map<K, V>, es: seq<V>, key: V -> K) {
    && (forall i | 0 <= i < |es| :: key(es[i]) in m && m[key(es[i])] == es[i])
    && (forall k <- m :: m[k] in es && key(m[k]) == k)
  }

  lemma IndexNothing<K, V>(key: V -> K)
    ensures Indexed(map[], [], key)
  {
  }

  lemma DistinctCons<K, V>(es: seq<V>, key: V -> K, e: V)
    ensures DistinctKeys(es + [e], key)
       <==> DistinctKeys(es, key) && forall i | 0 <= i < |es| :: key(es[i]) != key(e)
  {
    var all := es + [e];
    assert forall i | 0 <= i < |es| :: all[i] == es[i];
    assert all[|es|] == e;
    if DistinctKeys(all, key) {
      forall i, j | 0 <= i < |es| && 0 <= j < |es| && i != j
        ensures key(es[i]) != key(es[j])
      {
        assert key(all[i]) != key(all[j]);
      }
      forall i | 0 <= i < |es|
        ensures key(es[i]) != key(e)
      {
        assert key(all[i]) != key(all[|es|]);
      }
    }
  }

  lemma BagSwap<V>(bag: multiset<V>, d: V, e: V)
    ensures bag + multiset{d} + multiset{e} == bag + multiset{e} + multiset{d}
  {
  }

  ghost function RemoveAt<V>(es: seq<V>, i: nat): (rest: seq<V>)
    requires i < |es|
    ensures |rest| == |es| - 1
    ensures forall j | 0 <= j < |rest| :: rest[j] == es[if j < i then j else j + 1]
  {
    es[..i] + es[i + 1..]
  }

  lemma RemoveAtMultiset<V>(es: seq<V>, i: nat)
    requires i < |es|
    ensures multiset(es) == multiset(RemoveAt(es, i)) + multiset{es[i]}
  {
    assert es == es[..i] + [es[i]] + es[i + 1..];
  }

  lemma RemoveAtKeeps<V>(es: seq<V>, i: nat, e: V)
    requires i < |es| && e in es && e != es[i]
    ensures e in RemoveAt(es, i)
  {
    var j :| 0 <= j < |es| && es[j] == e;
    assert RemoveAt(es, i)[if j < i then j else j - 1] == e;
  }

  /** Removing one key removes the one item that carries it. */
  lemma Unindex<K, V>(m: map<K, V>, es: seq<V>, key: V -> K, k: K) returns (rest: seq<V>)
    requires Indexed(m, es, key) && DistinctKeys(es, key) && k in m
    ensures forall e <- rest :: e in es
    ensures Indexed(m - {k}, rest, key) && DistinctKeys(rest, key)
    ensures multiset(es) == multiset(rest) + multiset{m[k]}
  {
    var i :| 0 <= i < |es| && es[i] == m[k];
    rest := RemoveAt(es, i);
    RemoveAtMultiset(es, i);
    forall g | g in m - {k}
      ensures m[g] in rest
    {
      RemoveAtKeeps(es, i, m[g]);
    }
    forall j | 0 <= j < |rest|
      ensures key(rest[j]) in m - {k}
    {
      assert key(es[if j < i then j else j + 1]) != key(es[i]);
    }
    assert DistinctKeys(rest, key);
  }
}
