/**
 Reconciliation of payload records that are identified by a natural key (an
 entrega's name, an album's title) against the rows already stored.

 The store's rows enter as `(id, key)` pairs. The payload's records enter as
 their keys, in payload order; the record at index `i` is referred to by the
 rest of the payload as position `i + 1`. The fold assigns every position an
 id: the id already indexed under its key, or a fresh id when the key is new,
 in which case the record is inserted and its key indexed, so that a later
 record with the same key resolves to it.
 */
module NaturalKey {
  import Dedup

  /** No two rows share a key. */
  predicate DistinctKeys(rows: seq<(int, string)>) {
    forall i, j :: 0 <= i < j < |rows| ==> rows[i].1 != rows[j].1
  }

  /** The key -> id index loaded from the store; a later row overrides an earlier one. */
  function BuildIndex(rows: seq<(int, string)>): (m: map<string, int>)
    ensures forall k :: k in m <==> exists i :: 0 <= i < |rows| && rows[i].1 == k
    ensures forall k :: k in m ==> (m[k], k) in rows
    decreases |rows|
  {
    if |rows| == 0 then map[]
    else
      var n := |rows| - 1;
      var m := BuildIndex(rows[..n]);
      assert rows == rows[..n] + [rows[n]];
      m[rows[n].1 := rows[n].0]
  }

  /** With distinct keys the index finds, for each key, the one row carrying it. */
  lemma {:induction false} IndexOfDistinct(rows: seq<(int, string)>, i: int)
    requires DistinctKeys(rows)
    requires 0 <= i < |rows|
    ensures rows[i].1 in BuildIndex(rows)
    ensures BuildIndex(rows)[rows[i].1] == rows[i].0
  {
    var m := BuildIndex(rows);
    var k := rows[i].1;
    assert k in m;
    var j :| 0 <= j < |rows| && rows[j] == (m[k], k);
    assert j == i;
  }

  /** The state threaded through the fold. `inserted` lists, in order, the
      payload indices of the records that were inserted. */
  datatype Pass = Pass(index: map<string, int>, positions: map<int, int>, inserted: seq<nat>, nextId: int)

  /** One payload record, at index `i` (position `i + 1`), with key `key`. */
  function Step(p: Pass, key: string, i: nat): (r: Pass)
    ensures key in r.index && i + 1 in r.positions && r.positions[i + 1] == r.index[key]
    ensures forall k :: k in p.index ==> k in r.index && r.index[k] == p.index[k]
    ensures key in p.index <==> r.inserted == p.inserted
    ensures r.nextId - |r.inserted| == p.nextId - |p.inserted|
  {
    if key in p.index then
      p.(positions := p.positions[i + 1 := p.index[key]])
    else
      Pass(p.index[key := p.nextId], p.positions[i + 1 := p.nextId], p.inserted + [i], p.nextId + 1)
  }

  /** The fold over the payload's keys, starting from the store's index and the
      store's next fresh id. */
  function Run(index0: map<string, int>, nextId0: int, keys: seq<string>): (r: Pass)
    ensures r.nextId == nextId0 + |r.inserted|
    ensures forall j :: 0 <= j < |r.inserted| ==> r.inserted[j] < |keys|
    ensures forall pos :: pos in r.positions <==> 1 <= pos <= |keys|
    decreases |keys|
  {
    if |keys| == 0 then Pass(index0, map[], [], nextId0)
    else
      var n := |keys| - 1;
      var r := Run(index0, nextId0, keys[..n]);
      assert keys == keys[..n] + [keys[n]];
      Step(r, keys[n], n)
  }

  /** The run inserts exactly the records the dedup fold keeps, seeded with the
      keys indexed at the start, and indexes exactly the keys it has seen. */
  lemma {:induction false} RunIsDedup(index0: map<string, int>, nextId0: int, keys: seq<string>)
    ensures Run(index0, nextId0, keys).index.Keys == Dedup.Filter(index0.Keys, keys).seen
    ensures Run(index0, nextId0, keys).inserted == Dedup.Filter(index0.Keys, keys).kept
    decreases |keys|
  {
    if |keys| > 0 {
      var n := |keys| - 1;
      RunIsDedup(index0, nextId0, keys[..n]);
    }
  }

  /** `m` agrees with `m0` on every key of `m0`. */
  predicate Extends(m: map<string, int>, m0: map<string, int>) {
    forall k :: k in m0 ==> k in m && m[k] == m0[k]
  }

  /** Position `i + 1` resolves through the index to the id of `keys[i]`. */
  predicate ResolvesThroughIndex(r: Pass, keys: seq<string>) {
    forall i :: 0 <= i < |keys| ==> keys[i] in r.index && i + 1 in r.positions && r.positions[i + 1] == r.index[keys[i]]
  }

  /** The j-th inserted record is indexed under the j-th fresh id. */
  predicate NumbersInserted(r: Pass, keys: seq<string>, nextId0: int) {
    forall j :: 0 <= j < |r.inserted| ==>
      r.inserted[j] < |keys| && keys[r.inserted[j]] in r.index && r.index[keys[r.inserted[j]]] == nextId0 + j
  }

  /** Ids indexed before the run keep their keys. */
  lemma {:induction false} RunKeepsIndexed(index0: map<string, int>, nextId0: int, keys: seq<string>)
    ensures Extends(Run(index0, nextId0, keys).index, index0)
    decreases |keys|
  {
    if |keys| > 0 {
      var n := |keys| - 1;
      RunKeepsIndexed(index0, nextId0, keys[..n]);
    }
  }

  /** Every position resolves through the final index. */
  lemma {:induction false} RunResolves(index0: map<string, int>, nextId0: int, keys: seq<string>)
    ensures ResolvesThroughIndex(Run(index0, nextId0, keys), keys)
    decreases |keys|
  {
    if |keys| > 0 {
      var n := |keys| - 1;
      var prefix := keys[..n];
      RunResolves(index0, nextId0, prefix);
      var p := Run(index0, nextId0, prefix);
      var r := Step(p, keys[n], n);
      assert Run(index0, nextId0, keys) == r;
      forall i | 0 <= i < |keys|
        ensures keys[i] in r.index && i + 1 in r.positions && r.positions[i + 1] == r.index[keys[i]]
      {
        if i < n {
          assert prefix[i] == keys[i];
          assert keys[i] in p.index;
        }
      }
    }
  }

  /** The j-th inserted record receives the j-th fresh id. */
  lemma {:induction false} RunNumbersInserted(index0: map<string, int>, nextId0: int, keys: seq<string>)
    ensures NumbersInserted(Run(index0, nextId0, keys), keys, nextId0)
    decreases |keys|
  {
    if |keys| > 0 {
      var n := |keys| - 1;
      var prefix := keys[..n];
      RunNumbersInserted(index0, nextId0, prefix);
      var p := Run(index0, nextId0, prefix);
      var r := Step(p, keys[n], n);
      assert Run(index0, nextId0, keys) == r;
      if keys[n] !in p.index {
        assert r.inserted == p.inserted + [n];
        assert r.index == p.index[keys[n] := p.nextId];
        forall j | 0 <= j < |r.inserted|
          ensures r.inserted[j] < |keys| && keys[r.inserted[j]] in r.index && r.index[keys[r.inserted[j]]] == nextId0 + j
        {
          if j < |p.inserted| {
            assert r.inserted[j] == p.inserted[j];
            assert prefix[p.inserted[j]] == keys[p.inserted[j]];
          } else {
            assert r.inserted[j] == n;
          }
        }
      } else {
        assert r.inserted == p.inserted && r.index == p.index;
        forall j | 0 <= j < |r.inserted|
          ensures r.inserted[j] < |keys| && keys[r.inserted[j]] in r.index && r.index[keys[r.inserted[j]]] == nextId0 + j
        {
          assert prefix[p.inserted[j]] == keys[p.inserted[j]];
        }
      }
    }
  }

  /** The run against a store table given as `(id, key)` rows. */
  function RunOn(rows: seq<(int, string)>, nextId0: int, keys: seq<string>): Pass {
    Run(BuildIndex(rows), nextId0, keys)
  }

  /** The `(id, key)` rows the run adds to the table, in insertion order. */
  function AddedOn(rows: seq<(int, string)>, nextId0: int, keys: seq<string>): (a: seq<(int, string)>)
    ensures |a| == |RunOn(rows, nextId0, keys).inserted|
  {
    var ins := RunOn(rows, nextId0, keys).inserted;
    seq(|ins|, j requires 0 <= j < |ins| => (nextId0 + j, keys[ins[j]]))
  }

  /** The `j`-th added row pairs the `j`-th fresh id with the key of the
      `j`-th inserted record. */
  lemma {:induction false} AddedOnAt(rows: seq<(int, string)>, nextId0: int, keys: seq<string>, j: int)
    requires 0 <= j < |RunOn(rows, nextId0, keys).inserted|
    ensures RunOn(rows, nextId0, keys).inserted[j] < |keys|
    ensures AddedOn(rows, nextId0, keys)[j] == (nextId0 + j, keys[RunOn(rows, nextId0, keys).inserted[j]])
  {
  }

  /** A key the starting index lacks resolves to the fresh id of the first
      inserted record carrying it. */
  lemma {:induction false} NewKeyIsNumbered(index0: map<string, int>, nextId0: int, keys: seq<string>, i: int)
    returns (j: nat)
    requires 0 <= i < |keys|
    requires keys[i] !in index0
    ensures j < |Run(index0, nextId0, keys).inserted|
    ensures keys[Run(index0, nextId0, keys).inserted[j]] == keys[i]
    ensures i + 1 in Run(index0, nextId0, keys).positions
    ensures Run(index0, nextId0, keys).positions[i + 1] == nextId0 + j
  {
    var r := Run(index0, nextId0, keys);
    var k := keys[i];
    RunResolves(index0, nextId0, keys);
    assert k in r.index && r.positions[i + 1] == r.index[k];
    RunIsDedup(index0, nextId0, keys);
    var scan := Dedup.Filter(index0.Keys, keys);
    assert k in scan.seen;
    Dedup.SeenIsKeptKeys(index0.Keys, keys);
    j :| 0 <= j < |scan.kept| && keys[scan.kept[j]] == k;
    RunNumbersInserted(index0, nextId0, keys);
  }

  /** A key no existing row carries resolves to the row the run added for
      the first record with that key. */
  lemma {:induction false} NewKeyNamesAddedRow(rows: seq<(int, string)>, nextId0: int, keys: seq<string>, i: int)
    requires 0 <= i < |keys|
    requires keys[i] !in BuildIndex(rows)
    ensures i + 1 in RunOn(rows, nextId0, keys).positions
    ensures (RunOn(rows, nextId0, keys).positions[i + 1], keys[i]) in AddedOn(rows, nextId0, keys)
  {
    var j := NewKeyIsNumbered(BuildIndex(rows), nextId0, keys, i);
    AddedOnAt(rows, nextId0, keys, j);
  }

  /** Position `i + 1` maps to the id of a row carrying key `keys[i]`: an
      existing row when one carries that key, otherwise the row the run added
      for the first record with that key. */
  lemma {:induction false} PositionsNameRows(rows: seq<(int, string)>, nextId0: int, keys: seq<string>, i: int)
    requires 0 <= i < |keys|
    ensures i + 1 in RunOn(rows, nextId0, keys).positions
    ensures (RunOn(rows, nextId0, keys).positions[i + 1], keys[i]) in rows + AddedOn(rows, nextId0, keys)
    ensures (exists e :: 0 <= e < |rows| && rows[e].1 == keys[i]) ==>
              (RunOn(rows, nextId0, keys).positions[i + 1], keys[i]) in rows
  {
    var index0 := BuildIndex(rows);
    var r := Run(index0, nextId0, keys);
    var k := keys[i];
    if k in index0 {
      RunResolves(index0, nextId0, keys);
      RunKeepsIndexed(index0, nextId0, keys);
      assert (r.positions[i + 1], k) in rows;
    } else {
      NewKeyNamesAddedRow(rows, nextId0, keys, i);
    }
  }

  /** A record is inserted exactly when no existing row carries its key and no
      earlier record of the run does. */
  lemma {:induction false} InsertedIffNew(rows: seq<(int, string)>, nextId0: int, keys: seq<string>, i: int)
    requires 0 <= i < |keys|
    ensures i in RunOn(rows, nextId0, keys).inserted <==>
      (forall e :: 0 <= e < |rows| ==> rows[e].1 != keys[i]) && (forall j :: 0 <= j < i ==> keys[j] != keys[i])
  {
    var index0 := BuildIndex(rows);
    RunIsDedup(index0, nextId0, keys);
    Dedup.KeptIffFirstNew(index0.Keys, keys);
    assert i in RunOn(rows, nextId0, keys).inserted <==> Dedup.FirstNew(index0.Keys, keys, i);
  }

  /** Keys that were distinct before the run are distinct after it. */
  lemma {:induction false} AddedKeepsKeysDistinct(rows: seq<(int, string)>, nextId0: int, keys: seq<string>)
    requires DistinctKeys(rows)
    ensures DistinctKeys(rows + AddedOn(rows, nextId0, keys))
  {
    var index0 := BuildIndex(rows);
    var added := AddedOn(rows, nextId0, keys);
    RunIsDedup(index0, nextId0, keys);
    Dedup.KeptKeysAreNewAndDistinct(index0.Keys, keys);
    var all := rows + added;
    forall i, j | 0 <= i < j < |all|
      ensures all[i].1 != all[j].1
    {
      if j >= |rows| {
        assert all[j] == added[j - |rows|];
        if i < |rows| {
          assert all[i].1 in index0;
        } else {
          assert all[i] == added[i - |rows|];
        }
      }
    }
  }

  /** After a run, the table's index holds every payload key, under the id the
      run resolved its position to. */
  lemma {:induction false} IndexAfterRun(rows: seq<(int, string)>, nextId0: int, keys: seq<string>, i: int)
    requires DistinctKeys(rows)
    requires 0 <= i < |keys|
    ensures keys[i] in BuildIndex(rows + AddedOn(rows, nextId0, keys))
    ensures BuildIndex(rows + AddedOn(rows, nextId0, keys))[keys[i]] == RunOn(rows, nextId0, keys).positions[i + 1]
  {
    var rows1 := rows + AddedOn(rows, nextId0, keys);
    AddedKeepsKeysDistinct(rows, nextId0, keys);
    PositionsNameRows(rows, nextId0, keys, i);
    var e :| 0 <= e < |rows1| && rows1[e] == (RunOn(rows, nextId0, keys).positions[i + 1], keys[i]);
    IndexOfDistinct(rows1, e);
  }

  /** A run whose every key is already indexed inserts nothing and resolves
      each position through the starting index. */
  lemma {:induction false} AllIndexedRunsQuiet(index0: map<string, int>, nextId0: int, keys: seq<string>)
    requires forall i :: 0 <= i < |keys| ==> keys[i] in index0
    ensures Run(index0, nextId0, keys).inserted == []
    ensures forall i :: 0 <= i < |keys| ==> Run(index0, nextId0, keys).positions[i + 1] == index0[keys[i]]
  {
    var r := Run(index0, nextId0, keys);
    RunIsDedup(index0, nextId0, keys);
    Dedup.AllSeenKeepsNothing(index0.Keys, keys);
    RunResolves(index0, nextId0, keys);
    RunKeepsIndexed(index0, nextId0, keys);
  }

  /** A second run over the rows the first run left behind inserts nothing and
      resolves every position to the same id. */
  lemma {:induction false} RerunInsertsNothing(rows: seq<(int, string)>, nextId0: int, keys: seq<string>, nextId1: int)
    requires DistinctKeys(rows)
    ensures RunOn(rows + AddedOn(rows, nextId0, keys), nextId1, keys).inserted == []
    ensures RunOn(rows + AddedOn(rows, nextId0, keys), nextId1, keys).positions == RunOn(rows, nextId0, keys).positions
  {
    var r := RunOn(rows, nextId0, keys);
    var index1 := BuildIndex(rows + AddedOn(rows, nextId0, keys));
    forall i | 0 <= i < |keys|
      ensures keys[i] in index1 && index1[keys[i]] == r.positions[i + 1]
    {
      IndexAfterRun(rows, nextId0, keys, i);
    }
    SameIndexSamePositions(index1, nextId1, keys, r.positions);
  }

  /** When the index already holds every key under the id a position map
      assigns it, a run inserts nothing and reproduces that position map. */
  lemma {:induction false} SameIndexSamePositions(index0: map<string, int>, nextId0: int, keys: seq<string>,
                                                  positions: map<int, int>)
    requires forall pos :: pos in positions <==> 1 <= pos <= |keys|
    requires forall i :: 0 <= i < |keys| ==> keys[i] in index0 && index0[keys[i]] == positions[i + 1]
    ensures Run(index0, nextId0, keys).inserted == []
    ensures Run(index0, nextId0, keys).positions == positions
  {
    var r2 := Run(index0, nextId0, keys);
    AllIndexedRunsQuiet(index0, nextId0, keys);
    forall pos | pos in positions
      ensures pos in r2.positions && r2.positions[pos] == positions[pos]
    {
      assert keys[pos - 1] in index0;
    }
  }
}
