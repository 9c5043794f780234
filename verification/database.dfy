/**
 The abstract store the handlers and the seed reconciler work against: one
 sequence of rows per table, in insertion order, and a counter that hands out
 fresh ids (it stands for the database's id sequence and `RETURNING id`).

 A store statement may fail (connection loss, constraint violation, ...).
 Which one fails is a parameter of every operation: `fault == Some(k)` says
 that the k-th statement the operation issues (counting from 0) fails, and
 `None` that none does.
 */
module Database {
  import opened Models

  datatype Store = Store(
    albums: seq<Album>,
    tracks: seq<Track>,
    batches: seq<Batch>,
    entregas: seq<Entrega>,
    nextId: int)

  /** The store as a later reader sees it, and what the operation answered. */
  datatype Outcome<+T, +E> = Outcome(store: Store, result: Result<T, E>)

  /** True when an operation issuing `statements` statements meets the fault. */
  predicate Fails(fault: Option<nat>, statements: nat) {
    fault.Some? && fault.value < statements
  }

  function AlbumId(a: Album): int { a.id }
  function TrackId(t: Track): int { t.id }
  function BatchId(b: Batch): int { b.id }
  function EntregaId(e: Entrega): int { e.id }

  predicate HasId<R>(rows: seq<R>, idOf: R -> int, id: int) {
    exists i :: 0 <= i < |rows| && idOf(rows[i]) == id
  }

  /** Every id lies below the counter and no two rows of the table share one. */
  predicate TableValid<R>(rows: seq<R>, idOf: R -> int, nextId: int) {
    && (forall i :: 0 <= i < |rows| ==> idOf(rows[i]) < nextId)
    && (forall i, j :: 0 <= i < j < |rows| ==> idOf(rows[i]) != idOf(rows[j]))
  }

  /** The primary-key and id-sequence invariant of the store. */
  predicate Valid(s: Store) {
    && TableValid(s.albums, AlbumId, s.nextId)
    && TableValid(s.tracks, TrackId, s.nextId)
    && TableValid(s.batches, BatchId, s.nextId)
    && TableValid(s.entregas, EntregaId, s.nextId)
  }

  /** `SELECT ... WHERE id = $1` read with `fetch_one`: the first row with that id. */
  function FindById<R>(rows: seq<R>, idOf: R -> int, id: int): (r: Option<R>)
    ensures r.None? <==> !HasId(rows, idOf, id)
    ensures r.Some? ==> exists i :: 0 <= i < |rows| && rows[i] == r.value && idOf(rows[i]) == id &&
                                    forall j :: 0 <= j < i ==> idOf(rows[j]) != id
    decreases |rows|
  {
    if |rows| == 0 then None
    else if idOf(rows[0]) == id then Some(rows[0])
    else
      var r := FindById(rows[1..], idOf, id);
      assert forall i :: 0 < i < |rows| ==> rows[i] == rows[1..][i - 1];
      r
  }

  /** The number of rows an `UPDATE ... WHERE id = $k` affects. */
  function CountById<R>(rows: seq<R>, idOf: R -> int, id: int): (n: nat)
    ensures n <= |rows|
    ensures n == 0 <==> !HasId(rows, idOf, id)
    decreases |rows|
  {
    if |rows| == 0 then 0
    else
      var n := CountById(rows[..|rows| - 1], idOf, id);
      assert forall i :: 0 <= i < |rows| - 1 ==> rows[i] == rows[..|rows| - 1][i];
      if idOf(rows[|rows| - 1]) == id then n + 1 else n
  }

  /** `UPDATE ... WHERE id = $k`: every row carrying the id becomes `row`. */
  function ReplaceById<R>(rows: seq<R>, idOf: R -> int, id: int, row: R): (r: seq<R>)
    ensures |r| == |rows|
    ensures forall i :: 0 <= i < |rows| && idOf(rows[i]) == id ==> r[i] == row
    ensures forall i :: 0 <= i < |rows| && idOf(rows[i]) != id ==> r[i] == rows[i]
  {
    seq(|rows|, i requires 0 <= i < |rows| => if idOf(rows[i]) == id then row else rows[i])
  }

  /** A UNIQUE-id table whose ids lie below `nextId`, extended by rows with
      consecutive ids `start, start + 1, ...` from at or above `nextId`, is a
      valid table under any counter past the last of them. */
  lemma {:induction false} AppendFreshKeepsValid<R>(rows: seq<R>, idOf: R -> int, nextId: int, start: int,
                                                    added: seq<R>, nextId': int)
    requires TableValid(rows, idOf, nextId)
    requires nextId <= start && start + |added| <= nextId'
    requires forall j :: 0 <= j < |added| ==> idOf(added[j]) == start + j
    ensures TableValid(rows + added, idOf, nextId')
  {
    var all := rows + added;
    assert forall i :: 0 <= i < |rows| ==> all[i] == rows[i];
    assert forall i :: |rows| <= i < |all| ==> idOf(all[i]) == start + (i - |rows|);
  }

  /** Raising the counter keeps a table valid. */
  lemma {:induction false} RaiseKeepsValid<R>(rows: seq<R>, idOf: R -> int, nextId: int, nextId': int)
    requires TableValid(rows, idOf, nextId)
    requires nextId <= nextId'
    ensures TableValid(rows, idOf, nextId')
  {
  }

  /** Raising the store's counter keeps every table valid. */
  lemma {:induction false} RaiseCounterKeepsValid(s: Store)
    ensures Valid(s) ==> Valid(s.(nextId := s.nextId + 1))
  {
    if Valid(s) {
      RaiseKeepsValid(s.albums, AlbumId, s.nextId, s.nextId + 1);
      RaiseKeepsValid(s.tracks, TrackId, s.nextId, s.nextId + 1);
      RaiseKeepsValid(s.batches, BatchId, s.nextId, s.nextId + 1);
      RaiseKeepsValid(s.entregas, EntregaId, s.nextId, s.nextId + 1);
    }
  }

  /** In a valid table, the row appended under the counter's id is the one a
      read by that id finds. */
  lemma {:induction false} FindAppended<R>(rows: seq<R>, idOf: R -> int, nextId: int, row: R)
    requires TableValid(rows, idOf, nextId)
    requires idOf(row) == nextId
    ensures FindById(rows + [row], idOf, nextId) == Some(row)
  {
    var all := rows + [row];
    assert idOf(all[|rows|]) == nextId;
    var found := FindById(all, idOf, nextId);
    var i :| 0 <= i < |all| && all[i] == found.value && idOf(all[i]) == nextId &&
             forall j :: 0 <= j < i ==> idOf(all[j]) != nextId;
    assert forall j :: 0 <= j < |rows| ==> all[j] == rows[j];
  }

  /** After an update by id, a read by that id finds the new row. */
  lemma {:induction false} FindReplaced<R>(rows: seq<R>, idOf: R -> int, id: int, row: R)
    requires HasId(rows, idOf, id)
    requires idOf(row) == id
    ensures FindById(ReplaceById(rows, idOf, id, row), idOf, id) == Some(row)
  {
    var r := ReplaceById(rows, idOf, id, row);
    var i :| 0 <= i < |rows| && idOf(rows[i]) == id;
    assert idOf(r[i]) == id;
    var j :| 0 <= j < |r| && r[j] == FindById(r, idOf, id).value && idOf(r[j]) == id;
    assert idOf(rows[j]) == id;
  }

  /** An update that keeps the id keeps the table valid. */
  lemma {:induction false} ReplaceKeepsValid<R>(rows: seq<R>, idOf: R -> int, nextId: int, id: int, row: R)
    requires idOf(row) == id
    ensures TableValid(rows, idOf, nextId) ==> TableValid(ReplaceById(rows, idOf, id, row), idOf, nextId)
  {
    var r := ReplaceById(rows, idOf, id, row);
    assert forall i :: 0 <= i < |r| ==> idOf(r[i]) == idOf(rows[i]);
  }

  /** Updating by id with a row that keeps the id is idempotent. */
  lemma {:induction false} ReplaceTwice<R>(rows: seq<R>, idOf: R -> int, id: int, row: R)
    requires idOf(row) == id
    ensures ReplaceById(ReplaceById(rows, idOf, id, row), idOf, id, row) == ReplaceById(rows, idOf, id, row)
  {
    var once := ReplaceById(rows, idOf, id, row);
    var twice := ReplaceById(once, idOf, id, row);
    forall i | 0 <= i < |rows|
      ensures twice[i] == once[i]
    {
      if idOf(rows[i]) == id {
        assert idOf(once[i]) == id;
      }
    }
  }
}
