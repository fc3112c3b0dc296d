/** Python dictionaries as insertion-ordered lists of (key, value) entries.
    Iterating a dict (`for k in d`, `d.items()`, `enumerate(d)`) walks this list. */
module PyDict {
  import opened Base

  type Dict<K, V> = seq<(K, V)>

  function Keys<K, V>(d: Dict<K, V>): (ks: seq<K>)
    ensures |ks| == |d|
    ensures forall i :: 0 <= i < |d| ==> ks[i] == d[i].0
  {
    seq(|d|, i requires 0 <= i < |d| => d[i].0)
  }

  function Values<K, V>(d: Dict<K, V>): (vs: seq<V>)
    ensures |vs| == |d|
    ensures forall i :: 0 <= i < |d| ==> vs[i] == d[i].1
  {
    seq(|d|, i requires 0 <= i < |d| => d[i].1)
  }

  /** No key is listed twice, as in every Python dict. */
  ghost predicate DistinctKeys<K, V>(d: Dict<K, V>) {
    forall i, j :: 0 <= i < j < |d| ==> d[i].0 != d[j].0
  }

  /** `d.get(k)`: the value stored under `k`, if any. */
  function Get<K(==), V>(d: Dict<K, V>, k: K): (r: Option<V>)
    ensures r.None? <==> forall i :: 0 <= i < |d| ==> d[i].0 != k
  {
    if |d| == 0 then None
    else if d[0].0 == k then Some(d[0].1)
    else Get(d[1..], k)
  }

  /** A value found by `Get` is stored under its key. */
  lemma {:induction false} GetFound<K, V>(d: Dict<K, V>, k: K)
    requires Get(d, k).Some?
    ensures exists i :: 0 <= i < |d| && d[i] == (k, Get(d, k).value)
  {
    if d[0].0 != k {
      GetFound(d[1..], k);
      var i :| 0 <= i < |d[1..]| && d[1..][i] == (k, Get(d, k).value);
      assert d[i + 1] == d[1..][i];
    }
  }

  /** In a dict every listed entry is what a lookup of its key yields. */
  lemma {:induction false} GetEntry<K, V>(d: Dict<K, V>, i: nat)
    requires DistinctKeys(d)
    requires i < |d|
    ensures Get(d, d[i].0) == Some(d[i].1)
  {
    if i > 0 {
      assert d[0].0 != d[i].0;
      assert d[1..][i - 1] == d[i];
      GetEntry(d[1..], i - 1);
    }
  }

  /** `d[k] = v`: overwrite in place when `k` is present, append otherwise. */
  function Put<K(==,!new), V>(d: Dict<K, V>, k: K, v: V): (r: Dict<K, V>)
    ensures Get(r, k) == Some(v)
    ensures forall k' :: k' != k ==> Get(r, k') == Get(d, k')
    ensures Get(d, k).Some? ==> Keys(r) == Keys(d)
    ensures Get(d, k).None? ==> r == d + [(k, v)]
  {
    if |d| == 0 then [(k, v)]
    else if d[0].0 == k then [(k, v)] + d[1..]
    else
      var r := [d[0]] + Put(d[1..], k, v);
      assert r[1..] == Put(d[1..], k, v);
      r
  }

  /** Storing under a key keeps the keys distinct. */
  lemma PutDistinct<K(!new), V>(d: Dict<K, V>, k: K, v: V)
    requires DistinctKeys(d)
    ensures DistinctKeys(Put(d, k, v))
  {
    var r := Put(d, k, v);
    if Get(d, k).Some? {
      assert forall i :: 0 <= i < |r| ==> r[i].0 == Keys(r)[i] == Keys(d)[i] == d[i].0;
    }
  }

  /** `{k: v for k, v in ps}`: later pairs overwrite earlier ones with the same key. */
  function FromPairs<K(==,!new), V>(ps: seq<(K, V)>): (d: Dict<K, V>)
    ensures DistinctKeys(d)
    ensures |d| <= |ps|
    ensures |ps| > 0 ==> |d| > 0
    decreases |ps|
  {
    if |ps| == 0 then []
    else
      var init := FromPairs(ps[..|ps| - 1]);
      var last := ps[|ps| - 1];
      PutDistinct(init, last.0, last.1);
      Put(init, last.0, last.1)
  }

  /** The keys of the dict are exactly the keys that occur in `ps`: a key is
      missing from the dict iff no pair carries it. */
  lemma {:induction false} FromPairsKeys<K(!new), V>(ps: seq<(K, V)>, k: K)
    ensures Get(FromPairs(ps), k).None? <==> forall i :: 0 <= i < |ps| ==> ps[i].0 != k
    decreases |ps|
  {
    if |ps| > 0 {
      var init, last := ps[..|ps| - 1], ps[|ps| - 1];
      var d := FromPairs(init);
      FromPairsKeys(init, k);
      assert FromPairs(ps) == Put(d, last.0, last.1);
      PutAbsent(d, last.0, last.1, k);
      NoKeyInit(ps, init, k);
    }
  }

  lemma PutAbsent<K(!new), V>(d: Dict<K, V>, k: K, v: V, k': K)
    ensures Get(Put(d, k, v), k').None? <==> k' != k && Get(d, k').None?
  {
    if k' != k {
      assert Get(Put(d, k, v), k') == Get(d, k');
    }
  }

  /** No pair carries `k` iff the last one does not and no earlier one does. */
  lemma NoKeyInit<K, V>(ps: seq<(K, V)>, init: seq<(K, V)>, k: K)
    requires |ps| > 0 && init == ps[..|ps| - 1]
    ensures (forall i :: 0 <= i < |ps| ==> ps[i].0 != k)
      <==> ps[|ps| - 1].0 != k && forall i :: 0 <= i < |init| ==> init[i].0 != k
  {
    assert forall i :: 0 <= i < |init| ==> init[i] == ps[i];
  }

  /** Storing never moves an existing key: the old keys are a prefix of the new. */
  lemma PutKeysPrefix<K(!new), V>(d: Dict<K, V>, k: K, v: V)
    ensures |d| <= |Put(d, k, v)| && Keys(Put(d, k, v))[..|d|] == Keys(d)
  {
    var r := Put(d, k, v);
    if Get(d, k).None? {
      assert forall i :: 0 <= i < |d| ==> r[i] == d[i];
    }
  }

  /** Extending the pairs never moves a key already in the dict, so every key
      keeps the place of its first occurrence in `ps`; only its value changes. */
  lemma {:induction false} FromPairsPrefix<K(!new), V>(ps: seq<(K, V)>, m: nat)
    requires m <= |ps|
    ensures |FromPairs(ps[..m])| <= |FromPairs(ps)|
    ensures Keys(FromPairs(ps))[..|FromPairs(ps[..m])|] == Keys(FromPairs(ps[..m]))
    decreases |ps|
  {
    if m < |ps| {
      var init, last := ps[..|ps| - 1], ps[|ps| - 1];
      var d := FromPairs(init);
      assert FromPairs(ps) == Put(d, last.0, last.1);
      PutKeysPrefix(d, last.0, last.1);
      FromPairsPrefix(init, m);
      assert init[..m] == ps[..m];
    } else {
      assert ps[..m] == ps;
    }
  }

  /** `{k: v for k, v in [("A", 1), ("B", 2), ("A", 3)]}` is `{"A": 3, "B": 2}`:
      the repeated name keeps its first place and takes its last value. */
  lemma RepeatedKeyKeepsFirstPlace()
    ensures FromPairs([("A", 1), ("B", 2), ("A", 3)]) == [("A", 3), ("B", 2)]
  {
    var ps := [("A", 1), ("B", 2), ("A", 3)];
    var one, two := [("A", 1)], [("A", 1), ("B", 2)];
    assert ps[..2] == two && two[..1] == one && one[..0] == [];
    assert FromPairs(one) == Put([], "A", 1) == one;
    assert Put(one, "B", 2) == [("A", 1)] + Put([], "B", 2) == two;
    assert FromPairs(two) == two;
    assert FromPairs(ps) == Put(two, "A", 3) == [("A", 3), ("B", 2)];
  }

  /** A key maps to the value of its LAST pair in `ps`. */
  lemma {:induction false} FromPairsLast<K(!new), V>(ps: seq<(K, V)>, i: nat)
    requires i < |ps|
    requires forall j :: i < j < |ps| ==> ps[j].0 != ps[i].0
    ensures Get(FromPairs(ps), ps[i].0) == Some(ps[i].1)
    decreases |ps|
  {
    var init, last := ps[..|ps| - 1], ps[|ps| - 1];
    var d := FromPairs(init);
    assert FromPairs(ps) == Put(d, last.0, last.1);
    if i < |ps| - 1 {
      assert init[i] == ps[i];
      assert forall j :: i < j < |init| ==> init[j] == ps[j];
      FromPairsLast(init, i);
      assert Get(Put(d, last.0, last.1), ps[i].0) == Get(d, ps[i].0);
    }
  }

  /** With no repeated key, building the dict keeps every pair, in order. */
  lemma {:induction false} FromPairsDistinct<K(!new), V>(ps: seq<(K, V)>)
    requires DistinctKeys(ps)
    ensures FromPairs(ps) == ps
    decreases |ps|
  {
    if |ps| > 0 {
      var init := ps[..|ps| - 1];
      var last := ps[|ps| - 1];
      assert DistinctKeys(init) by {
        forall i, j | 0 <= i < j < |init| ensures init[i].0 != init[j].0 {
          assert init[i] == ps[i] && init[j] == ps[j];
        }
      }
      FromPairsDistinct(init);
      assert Get(init, last.0).None? by {
        forall i | 0 <= i < |init| ensures init[i].0 != last.0 {
          assert init[i] == ps[i];
        }
      }
      assert init + [last] == ps;
    }
  }
}
