/**
 Merging a list by key into a map that remembers the order of its keys: the
 first entry of a key starts a record and every later one is added to it.
 */
module Merging {
  import opened Options
  import opened Sequences

  /** What the entries of this key merge to. */
  function MergedAt<T, K(==), M>(ds: seq<T>, key: T -> K, start: T -> M, add: (M, T) -> M, k: K): Option<M> {
    if ds == [] then None
    else
      var init, last := ds[..|ds| - 1], ds[|ds| - 1];
      var before := MergedAt(init, key, start, add, k);
      if key(last) != k then before
      else if before.None? then Some(start(last))
      else Some(add(before.value, last))
  }

  function KeysOf<T, K>(ds: seq<T>, key: T -> K): (r: seq<K>)
    ensures |r| == |ds|
  {
    seq(|ds|, i requires 0 <= i < |ds| => key(ds[i]))
  }

  lemma {:induction false} MergedHas<T, K, M>(ds: seq<T>, key: T -> K, start: T -> M, add: (M, T) -> M, k: K)
    ensures MergedAt(ds, key, start, add, k).Some? <==> k in KeysOf(ds, key)
  {
    if ds != [] {
      MergedHas(ds[..|ds| - 1], key, start, add, k);
      assert KeysOf(ds, key) == KeysOf(ds[..|ds| - 1], key) + [key(ds[|ds| - 1])];
    }
  }

  function MergedTo<T, K(==), M>(ds: seq<T>, key: T -> K, start: T -> M, add: (M, T) -> M, k: K): (m: M)
    requires k in KeysOf(ds, key)
    ensures MergedAt(ds, key, start, add, k) == Some(m)
  {
    MergedHas(ds, key, start, add, k);
    MergedAt(ds, key, start, add, k).value
  }

  /** The merged records in the order in which their keys came up. */
  function Records<T, K(==), M>(ds: seq<T>, key: T -> K, start: T -> M, add: (M, T) -> M): (r: seq<M>)
    ensures |r| == |Unique(KeysOf(ds, key))|
    ensures forall i | 0 <= i < |r| :: MergedAt(ds, key, start, add, Unique(KeysOf(ds, key))[i]) == Some(r[i])
  {
    var ks := Unique(KeysOf(ds, key));
    seq(|ks|, i requires 0 <= i < |ks| =>
      UniqueHas(KeysOf(ds, key), ks[i]);
      MergedTo(ds, key, start, add, ks[i]))
  }

  method Merge<T, K(==), M>(ds: seq<T>, key: T -> K, start: T -> M, add: (M, T) -> M) returns (r: seq<M>)
    ensures r == Records(ds, key, start, add)
  {
    var ks: seq<K>, found: map<K, M> := [], map[];
    for n := 0 to |ds|
      invariant ks == Unique(KeysOf(ds[..n], key))
      invariant forall k :: k in found <==> k in ks
      invariant forall k | k in found :: Some(found[k]) == MergedAt(ds[..n], key, start, add, k)
    {
      var k := key(ds[n]);
      MergedHas(ds[..n], key, start, add, k);
      UniqueHas(KeysOf(ds[..n], key), k);
      assert ds[..n + 1][..n] == ds[..n];
      assert KeysOf(ds[..n + 1], key)[..n] == KeysOf(ds[..n], key);
      if k in found {
        found := found[k := add(found[k], ds[n])];
      } else {
        found := found[k := start(ds[n])];
        ks := ks + [k];
      }
    }
    assert ds[..|ds|] == ds;
    r := seq(|ks|, i requires 0 <= i < |ks| && ks[i] in found => found[ks[i]]);
  }

  /** Some entry of the key sets the flag. */
  predicate SomeSets<T, K(==)>(ds: seq<T>, key: T -> K, k: K, sets: T -> bool) {
    exists i | 0 <= i < |ds| :: key(ds[i]) == k && sets(ds[i])
  }

  lemma SomeSetsNext<T, K>(ds: seq<T>, key: T -> K, k: K, sets: T -> bool)
    requires ds != []
    ensures var last := ds[|ds| - 1];
      SomeSets(ds, key, k, sets) <==> SomeSets(ds[..|ds| - 1], key, k, sets) || (key(last) == k && sets(last))
  {
    var init, last := ds[..|ds| - 1], ds[|ds| - 1];
    if SomeSets(ds, key, k, sets) {
      var i :| 0 <= i < |ds| && key(ds[i]) == k && sets(ds[i]);
      assert i < |init| ==> init[i] == ds[i];
    }
    if SomeSets(init, key, k, sets) {
      var i :| 0 <= i < |init| && key(init[i]) == k && sets(init[i]);
      assert ds[i] == init[i];
    }
  }

  /** A flag that every entry can set is set exactly when some entry of the key sets it. */
  lemma {:induction false} MergedAny<T(!new), K, M(!new)>(
      ds: seq<T>, key: T -> K, start: T -> M, add: (M, T) -> M, k: K, sets: T -> bool, flag: M -> bool)
    requires forall t :: flag(start(t)) <==> sets(t)
    requires forall m, t :: flag(add(m, t)) <==> flag(m) || sets(t)
    ensures match MergedAt(ds, key, start, add, k)
            case None => !SomeSets(ds, key, k, sets)
            case Some(m) => flag(m) <==> SomeSets(ds, key, k, sets)
  {
    if ds != [] {
      MergedAny(ds[..|ds| - 1], key, start, add, k, sets, flag);
      SomeSetsNext(ds, key, k, sets);
    }
  }

  /** What starting establishes and adding keeps holds of the merged record. */
  lemma {:induction false} MergedHolds<T(!new), K, M(!new)>(
      ds: seq<T>, key: T -> K, start: T -> M, add: (M, T) -> M, k: K, holds: (K, M) -> bool)
    requires forall t :: holds(key(t), start(t))
    requires forall m, t :: holds(k, m) ==> holds(k, add(m, t))
    ensures var m := MergedAt(ds, key, start, add, k); m.Some? ==> holds(k, m.value)
  {
    if ds != [] {
      MergedHolds(ds[..|ds| - 1], key, start, add, k, holds);
    }
  }

  /** Records that carry their key have distinct keys, and every key that came up is one of them. */
  lemma RecordsPartition<T(!new), K, M(!new)>(
      ds: seq<T>, key: T -> K, start: T -> M, add: (M, T) -> M, own: M -> K)
    requires forall t :: own(start(t)) == key(t)
    requires forall m, t :: own(add(m, t)) == own(m)
    ensures var r := Records(ds, key, start, add);
      && KeysOf(r, own) == Unique(KeysOf(ds, key))
      && DistinctBy(r, own)
      && forall k :: k in KeysOf(r, own) <==> k in KeysOf(ds, key)
  {
    var r, ks := Records(ds, key, start, add), Unique(KeysOf(ds, key));
    forall i | 0 <= i < |r| ensures own(r[i]) == ks[i] {
      MergedHolds(ds, key, start, add, ks[i], (k, m) => own(m) == k);
    }
    UniqueIsDistinct(KeysOf(ds, key));
    forall k ensures k in ks <==> k in KeysOf(ds, key) {
      UniqueHas(KeysOf(ds, key), k);
    }
  }
}
