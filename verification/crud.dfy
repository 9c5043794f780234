/**
 The create and update handlers of the four tables. Each runs outside any
 transaction: its write (statement 0, an INSERT ... RETURNING id or an
 UPDATE ... WHERE id = $k) commits on its own, and the row is then read back
 by id (statement 1) to build the reply. A failing read-back therefore answers
 500 with the write already committed.
 */
module Crud {
  import opened Models
  import opened Database
  import opened Http

  /** The read-back `SELECT ... WHERE id = $1` with `fetch_one`: a fault, or no
      row with that id, is a 500; otherwise the first row with the id is sent
      with `status`. */
  function ReadBack<R>(rows: seq<R>, idOf: R -> int, id: int, fault: Option<nat>, status: StatusCode)
    : (r: Result<Reply<R>, StatusCode>)
    ensures r.Success? <==> fault != Some(1) && HasId(rows, idOf, id)
    ensures r.Success? ==> r.value.status == status && r.value.body in rows && idOf(r.value.body) == id
    ensures r.Failure? ==> r.error == InternalServerError
  {
    if fault == Some(1) then Failure(InternalServerError)
    else
      match FindById(rows, idOf, id)
      case None => Failure(InternalServerError)
      case Some(row) => Success(Reply(status, row))
  }

  /** Appending a row under the counter's id: the old rows stay a prefix, a
      valid table stays valid under the raised counter, and a fault-free
      read-back by that id answers with the appended row. */
  lemma {:induction false} AppendThenReadBack<R>(rows: seq<R>, idOf: R -> int, nextId: int, row: R,
                                                 fault: Option<nat>, status: StatusCode)
    requires idOf(row) == nextId
    ensures (rows + [row])[..|rows|] == rows
    ensures TableValid(rows, idOf, nextId) ==> TableValid(rows + [row], idOf, nextId + 1)
    ensures TableValid(rows, idOf, nextId) && fault.None? ==>
      ReadBack(rows + [row], idOf, nextId, fault, status) == Success(Reply(status, row))
  {
    assert (rows + [row])[..|rows|] == rows;
    if TableValid(rows, idOf, nextId) {
      FindAppended(rows, idOf, nextId, row);
      AppendFreshKeepsValid(rows, idOf, nextId, nextId, [row], nextId + 1);
    }
  }

  /** `create_album`: the input stored under a fresh id and answered with 201. */
  function CreateAlbum(s: Store, input: NewAlbum, fault: Option<nat>): (r: Outcome<Reply<Album>, StatusCode>)
    ensures fault == Some(0) ==> r == Outcome(s, Failure(InternalServerError))
    ensures r.result.Failure? ==> r.result.error == InternalServerError
    ensures fault != Some(0) ==>
      && r.store == s.(albums := r.store.albums, nextId := s.nextId + 1)
      && |r.store.albums| == |s.albums| + 1 && r.store.albums[..|s.albums|] == s.albums
      && r.store.albums[|s.albums|].id == s.nextId && r.store.albums[|s.albums|].Fields() == input
    ensures fault == Some(1) ==> r.result.Failure?
    ensures Valid(s) && fault.None? ==> r.result == Success(Reply(Created, r.store.albums[|s.albums|]))
    ensures Valid(s) ==> Valid(r.store)
  {
    if Fails(fault, 1) then Outcome(s, Failure(InternalServerError))
    else
      var row := AlbumOf(s.nextId, input);
      AppendThenReadBack(s.albums, AlbumId, s.nextId, row, fault, Created);
      RaiseCounterKeepsValid(s);
      var s' := s.(nextId := s.nextId + 1).(albums := s.albums + [row]);
      Outcome(s', ReadBack(s'.albums, AlbumId, s.nextId, fault, Created))
  }

  /** `update_album`: every row with the id takes the input's fields and the
      updated row is answered with 200; no such row is a 404. */
  function UpdateAlbum(s: Store, id: int, input: NewAlbum, fault: Option<nat>): (r: Outcome<Reply<Album>, StatusCode>)
    ensures fault == Some(0) ==> r == Outcome(s, Failure(InternalServerError))
    ensures fault != Some(0) && !HasId(s.albums, AlbumId, id) ==> r == Outcome(s, Failure(NotFound))
    ensures fault != Some(0) && HasId(s.albums, AlbumId, id) ==>
      && r.store == s.(albums := r.store.albums)
      && |r.store.albums| == |s.albums|
      && (forall i :: 0 <= i < |s.albums| && s.albums[i].id == id ==>
            r.store.albums[i].id == id && r.store.albums[i].Fields() == input)
      && (forall i :: 0 <= i < |s.albums| && s.albums[i].id != id ==> r.store.albums[i] == s.albums[i])
    ensures fault == Some(1) && HasId(s.albums, AlbumId, id) ==> r.result == Failure(InternalServerError)
    ensures fault.None? && HasId(s.albums, AlbumId, id) ==>
      r.result.Success? && r.result.value.status == Ok &&
      r.result.value.body.id == id && r.result.value.body.Fields() == input
    ensures Valid(s) ==> Valid(r.store)
  {
    if Fails(fault, 1) then Outcome(s, Failure(InternalServerError))
    else if CountById(s.albums, AlbumId, id) == 0 then Outcome(s, Failure(NotFound))
    else
      var row := AlbumOf(id, input);
      var s' := s.(albums := ReplaceById(s.albums, AlbumId, id, row));
      FindReplaced(s.albums, AlbumId, id, row);
      ReplaceKeepsValid(s.albums, AlbumId, s.nextId, id, row);
      Outcome(s', ReadBack(s'.albums, AlbumId, id, fault, Ok))
  }
  /** `create_track`: the input stored under a fresh id and answered with 201. */
  function CreateTrack(s: Store, input: NewTrack, fault: Option<nat>): (r: Outcome<Reply<Track>, StatusCode>)
    ensures fault == Some(0) ==> r == Outcome(s, Failure(InternalServerError))
    ensures r.result.Failure? ==> r.result.error == InternalServerError
    ensures fault != Some(0) ==>
      && r.store == s.(tracks := r.store.tracks, nextId := s.nextId + 1)
      && |r.store.tracks| == |s.tracks| + 1 && r.store.tracks[..|s.tracks|] == s.tracks
      && r.store.tracks[|s.tracks|].id == s.nextId && r.store.tracks[|s.tracks|].Fields() == input
    ensures fault == Some(1) ==> r.result.Failure?
    ensures Valid(s) && fault.None? ==> r.result == Success(Reply(Created, r.store.tracks[|s.tracks|]))
    ensures Valid(s) ==> Valid(r.store)
  {
    if Fails(fault, 1) then Outcome(s, Failure(InternalServerError))
    else
      var row := TrackOf(s.nextId, input);
      AppendThenReadBack(s.tracks, TrackId, s.nextId, row, fault, Created);
      RaiseCounterKeepsValid(s);
      var s' := s.(nextId := s.nextId + 1).(tracks := s.tracks + [row]);
      Outcome(s', ReadBack(s'.tracks, TrackId, s.nextId, fault, Created))
  }

  /** `update_track`: every row with the id takes the input's fields and the
      updated row is answered with 200; no such row is a 404. */
  function UpdateTrack(s: Store, id: int, input: NewTrack, fault: Option<nat>): (r: Outcome<Reply<Track>, StatusCode>)
    ensures fault == Some(0) ==> r == Outcome(s, Failure(InternalServerError))
    ensures fault != Some(0) && !HasId(s.tracks, TrackId, id) ==> r == Outcome(s, Failure(NotFound))
    ensures fault != Some(0) && HasId(s.tracks, TrackId, id) ==>
      && r.store == s.(tracks := r.store.tracks)
      && |r.store.tracks| == |s.tracks|
      && (forall i :: 0 <= i < |s.tracks| && s.tracks[i].id == id ==>
            r.store.tracks[i].id == id && r.store.tracks[i].Fields() == input)
      && (forall i :: 0 <= i < |s.tracks| && s.tracks[i].id != id ==> r.store.tracks[i] == s.tracks[i])
    ensures fault == Some(1) && HasId(s.tracks, TrackId, id) ==> r.result == Failure(InternalServerError)
    ensures fault.None? && HasId(s.tracks, TrackId, id) ==>
      r.result.Success? && r.result.value.status == Ok &&
      r.result.value.body.id == id && r.result.value.body.Fields() == input
    ensures Valid(s) ==> Valid(r.store)
  {
    if Fails(fault, 1) then Outcome(s, Failure(InternalServerError))
    else if CountById(s.tracks, TrackId, id) == 0 then Outcome(s, Failure(NotFound))
    else
      var row := TrackOf(id, input);
      var s' := s.(tracks := ReplaceById(s.tracks, TrackId, id, row));
      FindReplaced(s.tracks, TrackId, id, row);
      ReplaceKeepsValid(s.tracks, TrackId, s.nextId, id, row);
      Outcome(s', ReadBack(s'.tracks, TrackId, id, fault, Ok))
  }
  /** `create_batch`: the input stored under a fresh id and answered with 201. */
  function CreateBatch(s: Store, input: NewBatch, fault: Option<nat>): (r: Outcome<Reply<Batch>, StatusCode>)
    ensures fault == Some(0) ==> r == Outcome(s, Failure(InternalServerError))
    ensures r.result.Failure? ==> r.result.error == InternalServerError
    ensures fault != Some(0) ==>
      && r.store == s.(batches := r.store.batches, nextId := s.nextId + 1)
      && |r.store.batches| == |s.batches| + 1 && r.store.batches[..|s.batches|] == s.batches
      && r.store.batches[|s.batches|].id == s.nextId && r.store.batches[|s.batches|].Fields() == input
    ensures fault == Some(1) ==> r.result.Failure?
    ensures Valid(s) && fault.None? ==> r.result == Success(Reply(Created, r.store.batches[|s.batches|]))
    ensures Valid(s) ==> Valid(r.store)
  {
    if Fails(fault, 1) then Outcome(s, Failure(InternalServerError))
    else
      var row := BatchOf(s.nextId, input);
      AppendThenReadBack(s.batches, BatchId, s.nextId, row, fault, Created);
      RaiseCounterKeepsValid(s);
      var s' := s.(nextId := s.nextId + 1).(batches := s.batches + [row]);
      Outcome(s', ReadBack(s'.batches, BatchId, s.nextId, fault, Created))
  }

  /** `update_batch`: every row with the id takes the input's fields and the
      updated row is answered with 200; no such row is a 404. */
  function UpdateBatch(s: Store, id: int, input: NewBatch, fault: Option<nat>): (r: Outcome<Reply<Batch>, StatusCode>)
    ensures fault == Some(0) ==> r == Outcome(s, Failure(InternalServerError))
    ensures fault != Some(0) && !HasId(s.batches, BatchId, id) ==> r == Outcome(s, Failure(NotFound))
    ensures fault != Some(0) && HasId(s.batches, BatchId, id) ==>
      && r.store == s.(batches := r.store.batches)
      && |r.store.batches| == |s.batches|
      && (forall i :: 0 <= i < |s.batches| && s.batches[i].id == id ==>
            r.store.batches[i].id == id && r.store.batches[i].Fields() == input)
      && (forall i :: 0 <= i < |s.batches| && s.batches[i].id != id ==> r.store.batches[i] == s.batches[i])
    ensures fault == Some(1) && HasId(s.batches, BatchId, id) ==> r.result == Failure(InternalServerError)
    ensures fault.None? && HasId(s.batches, BatchId, id) ==>
      r.result.Success? && r.result.value.status == Ok &&
      r.result.value.body.id == id && r.result.value.body.Fields() == input
    ensures Valid(s) ==> Valid(r.store)
  {
    if Fails(fault, 1) then Outcome(s, Failure(InternalServerError))
    else if CountById(s.batches, BatchId, id) == 0 then Outcome(s, Failure(NotFound))
    else
      var row := BatchOf(id, input);
      var s' := s.(batches := ReplaceById(s.batches, BatchId, id, row));
      FindReplaced(s.batches, BatchId, id, row);
      ReplaceKeepsValid(s.batches, BatchId, s.nextId, id, row);
      Outcome(s', ReadBack(s'.batches, BatchId, id, fault, Ok))
  }
  /** `create_entrega`: the input stored under a fresh id and answered with 201. */
  function CreateEntrega(s: Store, input: NewEntrega, fault: Option<nat>): (r: Outcome<Reply<Entrega>, StatusCode>)
    ensures fault == Some(0) ==> r == Outcome(s, Failure(InternalServerError))
    ensures r.result.Failure? ==> r.result.error == InternalServerError
    ensures fault != Some(0) ==>
      && r.store == s.(entregas := r.store.entregas, nextId := s.nextId + 1)
      && |r.store.entregas| == |s.entregas| + 1 && r.store.entregas[..|s.entregas|] == s.entregas
      && r.store.entregas[|s.entregas|].id == s.nextId && r.store.entregas[|s.entregas|].Fields() == input
    ensures fault == Some(1) ==> r.result.Failure?
    ensures Valid(s) && fault.None? ==> r.result == Success(Reply(Created, r.store.entregas[|s.entregas|]))
    ensures Valid(s) ==> Valid(r.store)
  {
    if Fails(fault, 1) then Outcome(s, Failure(InternalServerError))
    else
      var row := EntregaOf(s.nextId, input);
      AppendThenReadBack(s.entregas, EntregaId, s.nextId, row, fault, Created);
      RaiseCounterKeepsValid(s);
      var s' := s.(nextId := s.nextId + 1).(entregas := s.entregas + [row]);
      Outcome(s', ReadBack(s'.entregas, EntregaId, s.nextId, fault, Created))
  }

  /** `update_entrega`: every row with the id takes the input's fields and the
      updated row is answered with 200; no such row is a 404. */
  function UpdateEntrega(s: Store, id: int, input: NewEntrega, fault: Option<nat>): (r: Outcome<Reply<Entrega>, StatusCode>)
    ensures fault == Some(0) ==> r == Outcome(s, Failure(InternalServerError))
    ensures fault != Some(0) && !HasId(s.entregas, EntregaId, id) ==> r == Outcome(s, Failure(NotFound))
    ensures fault != Some(0) && HasId(s.entregas, EntregaId, id) ==>
      && r.store == s.(entregas := r.store.entregas)
      && |r.store.entregas| == |s.entregas|
      && (forall i :: 0 <= i < |s.entregas| && s.entregas[i].id == id ==>
            r.store.entregas[i].id == id && r.store.entregas[i].Fields() == input)
      && (forall i :: 0 <= i < |s.entregas| && s.entregas[i].id != id ==> r.store.entregas[i] == s.entregas[i])
    ensures fault == Some(1) && HasId(s.entregas, EntregaId, id) ==> r.result == Failure(InternalServerError)
    ensures fault.None? && HasId(s.entregas, EntregaId, id) ==>
      r.result.Success? && r.result.value.status == Ok &&
      r.result.value.body.id == id && r.result.value.body.Fields() == input
    ensures Valid(s) ==> Valid(r.store)
  {
    if Fails(fault, 1) then Outcome(s, Failure(InternalServerError))
    else if CountById(s.entregas, EntregaId, id) == 0 then Outcome(s, Failure(NotFound))
    else
      var row := EntregaOf(id, input);
      var s' := s.(entregas := ReplaceById(s.entregas, EntregaId, id, row));
      FindReplaced(s.entregas, EntregaId, id, row);
      ReplaceKeepsValid(s.entregas, EntregaId, s.nextId, id, row);
      Outcome(s', ReadBack(s'.entregas, EntregaId, id, fault, Ok))
  }

  /** Sending the same `update_album` twice leaves the store as the first one left it. */
  lemma {:induction false} UpdateAlbumIdempotent(s: Store, id: int, input: NewAlbum)
    ensures UpdateAlbum(UpdateAlbum(s, id, input, None).store, id, input, None).store == UpdateAlbum(s, id, input, None).store
  {
    if HasId(s.albums, AlbumId, id) {
      ReplaceTwice(s.albums, AlbumId, id, AlbumOf(id, input));
      var s1 := UpdateAlbum(s, id, input, None).store;
      assert HasId(s1.albums, AlbumId, id) by {
        var i :| 0 <= i < |s.albums| && s.albums[i].id == id;
        assert s1.albums[i].id == id;
      }
    }
  }

  /** Sending the same `update_track` twice leaves the store as the first one left it. */
  lemma {:induction false} UpdateTrackIdempotent(s: Store, id: int, input: NewTrack)
    ensures UpdateTrack(UpdateTrack(s, id, input, None).store, id, input, None).store == UpdateTrack(s, id, input, None).store
  {
    if HasId(s.tracks, TrackId, id) {
      ReplaceTwice(s.tracks, TrackId, id, TrackOf(id, input));
      var s1 := UpdateTrack(s, id, input, None).store;
      assert HasId(s1.tracks, TrackId, id) by {
        var i :| 0 <= i < |s.tracks| && s.tracks[i].id == id;
        assert s1.tracks[i].id == id;
      }
    }
  }

  /** Sending the same `update_batch` twice leaves the store as the first one left it. */
  lemma {:induction false} UpdateBatchIdempotent(s: Store, id: int, input: NewBatch)
    ensures UpdateBatch(UpdateBatch(s, id, input, None).store, id, input, None).store == UpdateBatch(s, id, input, None).store
  {
    if HasId(s.batches, BatchId, id) {
      ReplaceTwice(s.batches, BatchId, id, BatchOf(id, input));
      var s1 := UpdateBatch(s, id, input, None).store;
      assert HasId(s1.batches, BatchId, id) by {
        var i :| 0 <= i < |s.batches| && s.batches[i].id == id;
        assert s1.batches[i].id == id;
      }
    }
  }

  /** Sending the same `update_entrega` twice leaves the store as the first one left it. */
  lemma {:induction false} UpdateEntregaIdempotent(s: Store, id: int, input: NewEntrega)
    ensures UpdateEntrega(UpdateEntrega(s, id, input, None).store, id, input, None).store == UpdateEntrega(s, id, input, None).store
  {
    if HasId(s.entregas, EntregaId, id) {
      ReplaceTwice(s.entregas, EntregaId, id, EntregaOf(id, input));
      var s1 := UpdateEntrega(s, id, input, None).store;
      assert HasId(s1.entregas, EntregaId, id) by {
        var i :| 0 <= i < |s.entregas| && s.entregas[i].id == id;
        assert s1.entregas[i].id == id;
      }
    }
  }
}
