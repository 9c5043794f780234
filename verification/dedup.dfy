/**
 The "skip what has been seen" fold shared by every deduplicating loop of the
 seed reconciler: walk the keys in order, keep an item whose key is not yet in
 the seen set, and add its key to the set so that a later item with the same
 key is skipped.
 */
module Dedup {

  datatype Scan<K> = Scan(seen: set<K>, kept: seq<nat>)

  /** Item `i` is the first occurrence of a key that was not seen at the start. */
  predicate FirstNew<K(==,!new)>(seen0: set<K>, keys: seq<K>, i: int)
    requires 0 <= i < |keys|
  {
    keys[i] !in seen0 && forall j :: 0 <= j < i ==> keys[j] != keys[i]
  }

  /** The indices of the kept items, in order, and the final seen set. */
  function Filter<K(==,!new)>(seen0: set<K>, keys: seq<K>): (r: Scan<K>)
    ensures forall j :: 0 <= j < |r.kept| ==> r.kept[j] < |keys|
    ensures forall j1, j2 :: 0 <= j1 < j2 < |r.kept| ==> r.kept[j1] < r.kept[j2]
    ensures forall k :: k in r.seen <==> k in seen0 || k in keys
    decreases |keys|
  {
    if |keys| == 0 then Scan(seen0, [])
    else
      var n := |keys| - 1;
      var r := Filter(seen0, keys[..n]);
      assert keys == keys[..n] + [keys[n]];
      if keys[n] in r.seen then r
      else Scan(r.seen + {keys[n]}, r.kept + [n])
  }

  /** An item is kept exactly when it is the first occurrence of an unseen key. */
  lemma {:induction false} KeptIffFirstNew<K(!new)>(seen0: set<K>, keys: seq<K>)
    ensures forall i :: 0 <= i < |keys| ==> (i in Filter(seen0, keys).kept <==> FirstNew(seen0, keys, i))
    decreases |keys|
  {
    if |keys| > 0 {
      var n := |keys| - 1;
      KeptIffFirstNew(seen0, keys[..n]);
      var r := Filter(seen0, keys[..n]);
      assert keys == keys[..n] + [keys[n]];
      forall i | 0 <= i < n
        ensures FirstNew(seen0, keys, i) == FirstNew(seen0, keys[..n], i)
      {
        assert forall j :: 0 <= j <= i ==> keys[j] == keys[..n][j];
      }
      if keys[n] !in r.seen {
        assert FirstNew(seen0, keys, n);
      } else if keys[n] !in seen0 {
        var j :| 0 <= j < n && keys[..n][j] == keys[n];
        assert keys[j] == keys[n];
      }
    }
  }

  /** The seen set is the starting set plus the keys of the kept items. */
  lemma {:induction false} SeenIsKeptKeys<K(!new)>(seen0: set<K>, keys: seq<K>)
    ensures forall k :: k in Filter(seen0, keys).seen <==>
      k in seen0 || exists j :: 0 <= j < |Filter(seen0, keys).kept| && keys[Filter(seen0, keys).kept[j]] == k
    decreases |keys|
  {
    if |keys| > 0 {
      var n := |keys| - 1;
      SeenIsKeptKeys(seen0, keys[..n]);
      var r := Filter(seen0, keys[..n]);
      assert forall j :: 0 <= j < |r.kept| ==> keys[..n][r.kept[j]] == keys[r.kept[j]];
      if keys[n] !in r.seen {
        var grown := Filter(seen0, keys);
        assert grown.kept == r.kept + [n];
        assert grown.kept[|r.kept|] == n;
        assert forall j :: 0 <= j < |r.kept| ==> grown.kept[j] == r.kept[j];
      }
    }
  }

  /** When every key was seen at the start, nothing is kept. */
  lemma {:induction false} AllSeenKeepsNothing<K(!new)>(seen0: set<K>, keys: seq<K>)
    requires forall i :: 0 <= i < |keys| ==> keys[i] in seen0
    ensures Filter(seen0, keys).kept == []
    decreases |keys|
  {
    if |keys| > 0 {
      var n := |keys| - 1;
      assert forall i :: 0 <= i < n ==> keys[..n][i] == keys[i];
      AllSeenKeepsNothing(seen0, keys[..n]);
    }
  }

  /** The kept items carry pairwise distinct keys, none of them seen at the start. */
  lemma {:induction false} KeptKeysAreNewAndDistinct<K(!new)>(seen0: set<K>, keys: seq<K>)
    ensures forall j :: 0 <= j < |Filter(seen0, keys).kept| ==> keys[Filter(seen0, keys).kept[j]] !in seen0
    ensures forall j1, j2 :: 0 <= j1 < j2 < |Filter(seen0, keys).kept| ==>
      keys[Filter(seen0, keys).kept[j1]] != keys[Filter(seen0, keys).kept[j2]]
  {
    var r := Filter(seen0, keys);
    KeptIffFirstNew(seen0, keys);
    forall j1, j2 | 0 <= j1 < j2 < |r.kept|
      ensures keys[r.kept[j1]] != keys[r.kept[j2]]
    {
      assert r.kept[j2] in r.kept;
      assert FirstNew(seen0, keys, r.kept[j2]);
    }
    forall j | 0 <= j < |r.kept|
      ensures keys[r.kept[j]] !in seen0
    {
      assert r.kept[j] in r.kept;
      assert FirstNew(seen0, keys, r.kept[j]);
    }
  }
}
