/**
 The idempotent seed reconciler `init_data`: one transaction that loads the
 name -> id and title -> id indexes of the stored entregas and albums, walks
 the payload's entregas and then its albums (inserting only those whose name
 or title is new and recording the id of every payload position), loads the
 set of stored track keys, walks the payload's tracks (resolving their
 `entregaId`/`albumId` payload positions into ids and inserting only tracks
 whose key is new), and commits. Payload batches are not looked at.
 */
module Init {
  import opened Models
  import opened Database
  import NaturalKey
  import Dedup

  datatype InitError = StorageError

  /** How many entregas, albums and tracks the run created. */
  datatype Counts = Counts(entregas: nat, albums: nat, tracks: nat)

  /** `SELECT id, name FROM entregas` */
  function EntregaNames(rows: seq<Entrega>): (r: seq<(int, string)>)
    ensures |r| == |rows|
    ensures forall i :: 0 <= i < |rows| ==> r[i].0 == rows[i].id && r[i].1 == rows[i].name
  {
    seq(|rows|, i requires 0 <= i < |rows| => (rows[i].id, rows[i].name))
  }

  /** `SELECT id, title FROM albums` */
  function AlbumTitles(rows: seq<Album>): (r: seq<(int, string)>)
    ensures |r| == |rows|
    ensures forall i :: 0 <= i < |rows| ==> r[i].0 == rows[i].id && r[i].1 == rows[i].title
  {
    seq(|rows|, i requires 0 <= i < |rows| => (rows[i].id, rows[i].title))
  }

  /** `SELECT title, artist_name, entrega_id FROM tracks`, collected into a set. */
  function TrackKeys(rows: seq<Track>): (keys: set<TrackKey>)
    ensures forall t :: t in rows ==> t.Key() in keys
  {
    set t | t in rows :: t.Key()
  }

  /** Conversely, every key in the set is the key of a stored track. */
  lemma {:induction false} TrackKeysAreStored(rows: seq<Track>, k: TrackKey)
    requires k in TrackKeys(rows)
    ensures exists t :: t in rows && t.Key() == k
  {
  }

  function PayloadNames(es: seq<NewEntrega>): seq<string> {
    seq(|es|, i requires 0 <= i < |es| => es[i].name)
  }

  function PayloadTitles(als: seq<NewAlbum>): seq<string> {
    seq(|als|, i requires 0 <= i < |als| => als[i].title)
  }

  function PlacedKeys(ts: seq<NewTrack>): seq<TrackKey> {
    seq(|ts|, i requires 0 <= i < |ts| => ts[i].Key())
  }

  /** A track's payload reference: absent, or a position with no id, gives none. */
  function Resolve(reference: Option<int>, positions: map<int, int>): (r: Option<int>)
    ensures r.Some? ==> reference.Some? && reference.value in positions && r.value == positions[reference.value]
  {
    if reference.Some? && reference.value in positions then Some(positions[reference.value]) else None
  }

  /** Conversely, a reference the position map knows resolves to its image. */
  lemma {:induction false} ResolveMapped(reference: Option<int>, positions: map<int, int>)
    requires reference.Some? && reference.value in positions
    ensures Resolve(reference, positions) == Some(positions[reference.value])
  {
  }

  /** The payload track with its references replaced by ids. */
  function Place(t: NewTrack, entregaPositions: map<int, int>, albumPositions: map<int, int>): (r: NewTrack)
    ensures r.(albumId := t.albumId, entregaId := t.entregaId) == t
    ensures t.albumId.None? ==> r.albumId.None?
    ensures t.entregaId.None? ==> r.entregaId.None?
    ensures r.Key() == TrackKey(t.title, t.artistName, Resolve(t.entregaId, entregaPositions))
  {
    t.(albumId := Resolve(t.albumId, albumPositions), entregaId := Resolve(t.entregaId, entregaPositions))
  }

  /** The entrega walk, over the stored `(id, name)` rows. */
  function EntregaPass(s: Store, p: ImportPayload): (r: NaturalKey.Pass)
    ensures r.nextId == s.nextId + |r.inserted|
    ensures forall j :: 0 <= j < |r.inserted| ==> r.inserted[j] < |OrEmpty(p.entregas)|
    ensures forall pos :: pos in r.positions <==> 1 <= pos <= |OrEmpty(p.entregas)|
  {
    NaturalKey.RunOn(EntregaNames(s.entregas), s.nextId, PayloadNames(OrEmpty(p.entregas)))
  }

  /** The album walk, numbering from where the entrega walk stopped. */
  function AlbumPass(s: Store, p: ImportPayload): (r: NaturalKey.Pass)
    ensures r.nextId == EntregaPass(s, p).nextId + |r.inserted|
    ensures forall j :: 0 <= j < |r.inserted| ==> r.inserted[j] < |OrEmpty(p.albums)|
    ensures forall pos :: pos in r.positions <==> 1 <= pos <= |OrEmpty(p.albums)|
  {
    NaturalKey.RunOn(AlbumTitles(s.albums), EntregaPass(s, p).nextId, PayloadTitles(OrEmpty(p.albums)))
  }

  /** The payload tracks with their references resolved. */
  function Placed(s: Store, p: ImportPayload): (ts: seq<NewTrack>)
    ensures |ts| == |OrEmpty(p.tracks)|
  {
    var ts := OrEmpty(p.tracks);
    seq(|ts|, i requires 0 <= i < |ts| => Place(ts[i], EntregaPass(s, p).positions, AlbumPass(s, p).positions))
  }

  /** The track walk: the dedup fold over the resolved keys, seeded with the
      stored track keys. */
  function TrackScan(s: Store, p: ImportPayload): (r: Dedup.Scan<TrackKey>)
    ensures forall j :: 0 <= j < |r.kept| ==> r.kept[j] < |OrEmpty(p.tracks)|
  {
    Dedup.Filter(TrackKeys(s.tracks), PlacedKeys(Placed(s, p)))
  }

  /** The rows the run adds for the payload records at indices `ins`, under
      consecutive ids from `id0`. */
  function NewEntregaRows(id0: int, es: seq<NewEntrega>, ins: seq<nat>): (r: seq<Entrega>)
    requires forall j :: 0 <= j < |ins| ==> ins[j] < |es|
    ensures |r| == |ins|
    ensures forall j :: 0 <= j < |r| ==> r[j].id == id0 + j && r[j].Fields() == es[ins[j]]
  {
    seq(|ins|, j requires 0 <= j < |ins| => EntregaOf(id0 + j, es[ins[j]]))
  }

  function NewAlbumRows(id0: int, als: seq<NewAlbum>, ins: seq<nat>): (r: seq<Album>)
    requires forall j :: 0 <= j < |ins| ==> ins[j] < |als|
    ensures |r| == |ins|
    ensures forall j :: 0 <= j < |r| ==> r[j].id == id0 + j && r[j].Fields() == als[ins[j]]
  {
    seq(|ins|, j requires 0 <= j < |ins| => AlbumOf(id0 + j, als[ins[j]]))
  }

  function NewTrackRows(id0: int, placed: seq<NewTrack>, kept: seq<nat>): (r: seq<Track>)
    requires forall j :: 0 <= j < |kept| ==> kept[j] < |placed|
    ensures |r| == |kept|
    ensures forall j :: 0 <= j < |r| ==> r[j].id == id0 + j && r[j].Fields() == placed[kept[j]]
  {
    seq(|kept|, j requires 0 <= j < |kept| => TrackOf(id0 + j, placed[kept[j]]))
  }

  /** The entregas the run leaves behind: the stored ones, then the inserted ones. */
  function CommittedEntregas(s: Store, p: ImportPayload): seq<Entrega> {
    s.entregas + NewEntregaRows(s.nextId, OrEmpty(p.entregas), EntregaPass(s, p).inserted)
  }

  /** The albums the run leaves behind: the stored ones, then the inserted ones. */
  function CommittedAlbums(s: Store, p: ImportPayload): seq<Album> {
    s.albums + NewAlbumRows(EntregaPass(s, p).nextId, OrEmpty(p.albums), AlbumPass(s, p).inserted)
  }

  /** The store the run leaves behind once its transaction commits: entregas
      get the first fresh ids, then albums, then tracks. */
  function Committed(s: Store, p: ImportPayload): (c: Store)
    ensures OnlyAppends(s, c) && c.batches == s.batches
    ensures c.nextId == s.nextId + (|c.entregas| - |s.entregas|) + (|c.albums| - |s.albums|) + (|c.tracks| - |s.tracks|)
  {
    var kept := TrackScan(s, p).kept;
    var c := Store(
      albums := CommittedAlbums(s, p),
      tracks := s.tracks + NewTrackRows(AlbumPass(s, p).nextId, Placed(s, p), kept),
      batches := s.batches,
      entregas := CommittedEntregas(s, p),
      nextId := AlbumPass(s, p).nextId + |kept|);
    assert c.albums[..|s.albums|] == s.albums;
    assert c.tracks[..|s.tracks|] == s.tracks;
    assert c.entregas[..|s.entregas|] == s.entregas;
    c
  }

  /** The statements the run issues: BEGIN, two SELECTs, the entrega and album
      INSERTs, a SELECT, the track INSERTs, COMMIT. */
  function Statements(s: Store, p: ImportPayload): (n: nat)
    ensures n >= 5
  {
    3 + |EntregaPass(s, p).inserted| + |AlbumPass(s, p).inserted| + 1 + |TrackScan(s, p).kept| + 1
  }

  /** Besides BEGIN, the three SELECTs and COMMIT, the run issues one INSERT
      per row it adds. */
  lemma {:induction false} OneInsertPerRow(s: Store, p: ImportPayload)
    ensures Statements(s, p) == 5 + (|Committed(s, p).entregas| - |s.entregas|)
                                  + (|Committed(s, p).albums| - |s.albums|)
                                  + (|Committed(s, p).tracks| - |s.tracks|)
  {
  }

  /** Each table of `s'` starts with the rows of `s`. */
  predicate OnlyAppends(s: Store, s': Store) {
    && |s.albums| <= |s'.albums| && s'.albums[..|s.albums|] == s.albums
    && |s.tracks| <= |s'.tracks| && s'.tracks[..|s.tracks|] == s.tracks
    && |s.batches| <= |s'.batches| && s'.batches[..|s.batches|] == s.batches
    && |s.entregas| <= |s'.entregas| && s'.entregas[..|s.entregas|] == s.entregas
  }

  /** `init_data` after the payload has been parsed. A failure of any
      statement it issues, whether a SELECT, an INSERT or COMMIT, fails the
      whole run. */
  function InitData(s: Store, p: ImportPayload, fault: Option<nat>): (r: Outcome<Counts, InitError>)
    ensures r.result.Failure? ==> r.store == s
    ensures r.result.Failure? <==> Fails(fault, Statements(s, p))
    ensures r.result.Success? ==> r.store == Committed(s, p)
    ensures fault == Some(0) ==> r.result.Failure?
    ensures fault.None? ==> r.result.Success?
    ensures r.result.Success? ==> OnlyAppends(s, r.store) && r.store.batches == s.batches
    ensures r.result.Success? ==> r.result.value == Counts(|r.store.entregas| - |s.entregas|,
                                                         |r.store.albums| - |s.albums|,
                                                         |r.store.tracks| - |s.tracks|)
  {
    if Fails(fault, Statements(s, p)) then
      Outcome(s, Failure(StorageError))
    else
      var s' := Committed(s, p);
      Outcome(s', Success(Counts(|EntregaPass(s, p).inserted|, |AlbumPass(s, p).inserted|, |TrackScan(s, p).kept|)))
  }

  /** The position maps the run builds. */
  function EntregaPositions(s: Store, p: ImportPayload): map<int, int> {
    EntregaPass(s, p).positions
  }

  function AlbumPositions(s: Store, p: ImportPayload): map<int, int> {
    AlbumPass(s, p).positions
  }

  /** Listing the `(id, name)` rows of two tables one after the other. */
  lemma {:induction false} EntregaNamesAppend(rows: seq<Entrega>, added: seq<Entrega>)
    ensures EntregaNames(rows + added) == EntregaNames(rows) + EntregaNames(added)
  {
    var all := rows + added;
    assert forall i :: 0 <= i < |rows| ==> all[i] == rows[i];
    assert forall i :: |rows| <= i < |all| ==> all[i] == added[i - |rows|];
  }

  lemma {:induction false} AlbumTitlesAppend(rows: seq<Album>, added: seq<Album>)
    ensures AlbumTitles(rows + added) == AlbumTitles(rows) + AlbumTitles(added)
  {
    var all := rows + added;
    assert forall i :: 0 <= i < |rows| ==> all[i] == rows[i];
    assert forall i :: |rows| <= i < |all| ==> all[i] == added[i - |rows|];
  }

  /** The entrega rows the run adds are, as `(id, name)` rows, the ones the
      natural-key run adds. */
  lemma {:induction false} NewEntregaNames(rows: seq<(int, string)>, id0: int, es: seq<NewEntrega>)
    ensures forall j :: 0 <= j < |NaturalKey.RunOn(rows, id0, PayloadNames(es)).inserted| ==>
      NaturalKey.RunOn(rows, id0, PayloadNames(es)).inserted[j] < |es|
    ensures EntregaNames(NewEntregaRows(id0, es, NaturalKey.RunOn(rows, id0, PayloadNames(es)).inserted)) ==
            NaturalKey.AddedOn(rows, id0, PayloadNames(es))
  {
    var ins := NaturalKey.RunOn(rows, id0, PayloadNames(es)).inserted;
    var a := EntregaNames(NewEntregaRows(id0, es, ins));
    var b := NaturalKey.AddedOn(rows, id0, PayloadNames(es));
    assert forall j :: 0 <= j < |ins| ==> a[j] == b[j];
  }

  lemma {:induction false} NewAlbumTitles(rows: seq<(int, string)>, id0: int, als: seq<NewAlbum>)
    ensures forall j :: 0 <= j < |NaturalKey.RunOn(rows, id0, PayloadTitles(als)).inserted| ==>
      NaturalKey.RunOn(rows, id0, PayloadTitles(als)).inserted[j] < |als|
    ensures AlbumTitles(NewAlbumRows(id0, als, NaturalKey.RunOn(rows, id0, PayloadTitles(als)).inserted)) ==
            NaturalKey.AddedOn(rows, id0, PayloadTitles(als))
  {
    var ins := NaturalKey.RunOn(rows, id0, PayloadTitles(als)).inserted;
    var a := AlbumTitles(NewAlbumRows(id0, als, ins));
    var b := NaturalKey.AddedOn(rows, id0, PayloadTitles(als));
    assert forall j :: 0 <= j < |ins| ==> a[j] == b[j];
  }

  /** The entregas the run leaves behind, as `(id, name)` rows: the stored ones,
      then those the natural-key run added. */
  lemma {:induction false} CommittedEntregaNames(s: Store, p: ImportPayload)
    ensures EntregaNames(CommittedEntregas(s, p)) ==
            EntregaNames(s.entregas) + NaturalKey.AddedOn(EntregaNames(s.entregas), s.nextId, PayloadNames(OrEmpty(p.entregas)))
  {
    var es := OrEmpty(p.entregas);
    NewEntregaNames(EntregaNames(s.entregas), s.nextId, es);
    var ins := EntregaPass(s, p).inserted;
    assert CommittedEntregas(s, p) == s.entregas + NewEntregaRows(s.nextId, es, ins);
    EntregaNamesAppend(s.entregas, NewEntregaRows(s.nextId, es, ins));
  }

  lemma {:induction false} CommittedAlbumTitles(s: Store, p: ImportPayload)
    ensures AlbumTitles(CommittedAlbums(s, p)) ==
            AlbumTitles(s.albums) +
            NaturalKey.AddedOn(AlbumTitles(s.albums), EntregaPass(s, p).nextId, PayloadTitles(OrEmpty(p.albums)))
  {
    var als := OrEmpty(p.albums);
    NewAlbumTitles(AlbumTitles(s.albums), EntregaPass(s, p).nextId, als);
    assert AlbumPass(s, p) == NaturalKey.RunOn(AlbumTitles(s.albums), EntregaPass(s, p).nextId, PayloadTitles(als));
    assert CommittedAlbums(s, p) == s.albums + NewAlbumRows(EntregaPass(s, p).nextId, als, AlbumPass(s, p).inserted);
    AlbumTitlesAppend(s.albums, NewAlbumRows(EntregaPass(s, p).nextId, als, AlbumPass(s, p).inserted));
  }

  /** Payload entrega `i` is recorded under position `i + 1`, and positions
      `1..n` are exactly the map's keys. The position maps to the id of an
      entrega the run leaves behind that is named like the payload record, and
      to the same id as any earlier payload entrega of the same name. */
  lemma {:induction false} EntregaPositionResolves(s: Store, p: ImportPayload, i: int)
    requires 0 <= i < |OrEmpty(p.entregas)|
    ensures forall pos :: pos in EntregaPositions(s, p) <==> 1 <= pos <= |OrEmpty(p.entregas)|
    ensures exists e :: (0 <= e < |CommittedEntregas(s, p)| &&
      CommittedEntregas(s, p)[e].id == EntregaPositions(s, p)[i + 1] &&
      CommittedEntregas(s, p)[e].name == OrEmpty(p.entregas)[i].name)
    ensures forall j :: 0 <= j < i && OrEmpty(p.entregas)[j].name == OrEmpty(p.entregas)[i].name ==>
      EntregaPositions(s, p)[j + 1] == EntregaPositions(s, p)[i + 1]
  {
    var es := OrEmpty(p.entregas);
    var rows := EntregaNames(s.entregas);
    var keys := PayloadNames(es);
    var id := EntregaPositions(s, p)[i + 1];
    NaturalKey.PositionsNameRows(rows, s.nextId, keys, i);
    CommittedEntregaNames(s, p);
    assert (id, es[i].name) in EntregaNames(CommittedEntregas(s, p));
    NaturalKey.RunResolves(NaturalKey.BuildIndex(rows), s.nextId, keys);
    forall j | 0 <= j < i && es[j].name == es[i].name
      ensures EntregaPositions(s, p)[j + 1] == id
    {
      assert keys[j] == keys[i];
    }
  }

  /** When the store already has an entrega named like payload entrega `i`,
      the position maps to a stored entrega of that name, and to the one such
      entrega when stored names are distinct. */
  lemma {:induction false} EntregaPositionStored(s: Store, p: ImportPayload, i: int)
    requires 0 <= i < |OrEmpty(p.entregas)|
    requires exists e :: 0 <= e < |s.entregas| && s.entregas[e].name == OrEmpty(p.entregas)[i].name
    ensures exists e :: (0 <= e < |s.entregas| &&
      s.entregas[e].id == EntregaPositions(s, p)[i + 1] && s.entregas[e].name == OrEmpty(p.entregas)[i].name)
    ensures NaturalKey.DistinctKeys(EntregaNames(s.entregas)) ==>
      forall e :: 0 <= e < |s.entregas| && s.entregas[e].name == OrEmpty(p.entregas)[i].name ==>
        EntregaPositions(s, p)[i + 1] == s.entregas[e].id
  {
    var es := OrEmpty(p.entregas);
    var rows := EntregaNames(s.entregas);
    var keys := PayloadNames(es);
    var id := EntregaPositions(s, p)[i + 1];
    NaturalKey.PositionsNameRows(rows, s.nextId, keys, i);
    var e :| 0 <= e < |s.entregas| && s.entregas[e].name == es[i].name;
    assert rows[e].1 == keys[i];
    assert (id, es[i].name) in rows;
    if NaturalKey.DistinctKeys(rows) {
      forall e' | 0 <= e' < |s.entregas| && s.entregas[e'].name == es[i].name
        ensures id == s.entregas[e'].id
      {
        var f :| 0 <= f < |rows| && rows[f] == (id, keys[i]);
        assert rows[f].1 == rows[e'].1;
      }
    }
  }

  /** The album counterpart of `EntregaPositionResolves`. */
  lemma {:induction false} AlbumPositionResolves(s: Store, p: ImportPayload, i: int)
    requires 0 <= i < |OrEmpty(p.albums)|
    ensures forall pos :: pos in AlbumPositions(s, p) <==> 1 <= pos <= |OrEmpty(p.albums)|
    ensures exists a :: (0 <= a < |CommittedAlbums(s, p)| &&
      CommittedAlbums(s, p)[a].id == AlbumPositions(s, p)[i + 1] &&
      CommittedAlbums(s, p)[a].title == OrEmpty(p.albums)[i].title)
    ensures forall j :: 0 <= j < i && OrEmpty(p.albums)[j].title == OrEmpty(p.albums)[i].title ==>
      AlbumPositions(s, p)[j + 1] == AlbumPositions(s, p)[i + 1]
  {
    var als := OrEmpty(p.albums);
    var rows := AlbumTitles(s.albums);
    var keys := PayloadTitles(als);
    var n0 := EntregaPass(s, p).nextId;
    assert AlbumPass(s, p) == NaturalKey.RunOn(rows, n0, keys);
    var id := AlbumPositions(s, p)[i + 1];
    NaturalKey.PositionsNameRows(rows, n0, keys, i);
    CommittedAlbumTitles(s, p);
    assert (id, als[i].title) in AlbumTitles(CommittedAlbums(s, p));
    NaturalKey.RunResolves(NaturalKey.BuildIndex(rows), n0, keys);
    forall j | 0 <= j < i && als[j].title == als[i].title
      ensures AlbumPositions(s, p)[j + 1] == id
    {
      assert keys[j] == keys[i];
    }
  }

  /** The album counterpart of `EntregaPositionStored`. */
  lemma {:induction false} AlbumPositionStored(s: Store, p: ImportPayload, i: int)
    requires 0 <= i < |OrEmpty(p.albums)|
    requires exists a :: 0 <= a < |s.albums| && s.albums[a].title == OrEmpty(p.albums)[i].title
    ensures exists a :: (0 <= a < |s.albums| &&
      s.albums[a].id == AlbumPositions(s, p)[i + 1] && s.albums[a].title == OrEmpty(p.albums)[i].title)
    ensures NaturalKey.DistinctKeys(AlbumTitles(s.albums)) ==>
      forall a :: 0 <= a < |s.albums| && s.albums[a].title == OrEmpty(p.albums)[i].title ==>
        AlbumPositions(s, p)[i + 1] == s.albums[a].id
  {
    var als := OrEmpty(p.albums);
    var rows := AlbumTitles(s.albums);
    var keys := PayloadTitles(als);
    var n0 := EntregaPass(s, p).nextId;
    var id := AlbumPositions(s, p)[i + 1];
    NaturalKey.PositionsNameRows(rows, n0, keys, i);
    var a :| 0 <= a < |s.albums| && s.albums[a].title == als[i].title;
    assert rows[a].1 == keys[i];
    assert (id, als[i].title) in rows;
    if NaturalKey.DistinctKeys(rows) {
      forall a' | 0 <= a' < |s.albums| && s.albums[a'].title == als[i].title
        ensures id == s.albums[a'].id
      {
        var f :| 0 <= f < |rows| && rows[f] == (id, keys[i]);
        assert rows[f].1 == rows[a'].1;
      }
    }
  }

  /** Payload entrega `i` is inserted exactly when its name is new to the
      store and to the payload before it. */
  lemma {:induction false} EntregaInsertedIffNew(s: Store, p: ImportPayload, i: int)
    requires 0 <= i < |OrEmpty(p.entregas)|
    ensures i in EntregaPass(s, p).inserted <==>
      (forall e :: 0 <= e < |s.entregas| ==> s.entregas[e].name != OrEmpty(p.entregas)[i].name) &&
      (forall j :: 0 <= j < i ==> OrEmpty(p.entregas)[j].name != OrEmpty(p.entregas)[i].name)
  {
    var es := OrEmpty(p.entregas);
    var rows := EntregaNames(s.entregas);
    var keys := PayloadNames(es);
    NaturalKey.InsertedIffNew(rows, s.nextId, keys, i);
    assert |rows| == |s.entregas| && forall e :: 0 <= e < |rows| ==> rows[e].1 == s.entregas[e].name;
    assert forall j :: 0 <= j < |es| ==> keys[j] == es[j].name;
  }

  /** Every entrega the run adds is a payload record stored as given (its
      `batchId` is not remapped) under the next fresh id. */
  lemma {:induction false} NewEntregasAsGiven(s: Store, p: ImportPayload)
    ensures forall k :: |s.entregas| <= k < |CommittedEntregas(s, p)| ==>
      CommittedEntregas(s, p)[k].id == s.nextId + (k - |s.entregas|) &&
      exists j :: 0 <= j < |OrEmpty(p.entregas)| && CommittedEntregas(s, p)[k].Fields() == OrEmpty(p.entregas)[j]
  {
    var es := OrEmpty(p.entregas);
    var ins := EntregaPass(s, p).inserted;
    var added := NewEntregaRows(s.nextId, es, ins);
    assert CommittedEntregas(s, p) == s.entregas + added;
    forall k | |s.entregas| <= k < |CommittedEntregas(s, p)|
      ensures CommittedEntregas(s, p)[k] == added[k - |s.entregas|]
      ensures ins[k - |s.entregas|] < |es|
    {
    }
  }

  /** Payload album `i` is inserted exactly when its title is new to the store
      and to the payload before it. */
  lemma {:induction false} AlbumInsertedIffNew(s: Store, p: ImportPayload, i: int)
    requires 0 <= i < |OrEmpty(p.albums)|
    ensures i in AlbumPass(s, p).inserted <==>
      (forall a :: 0 <= a < |s.albums| ==> s.albums[a].title != OrEmpty(p.albums)[i].title) &&
      (forall j :: 0 <= j < i ==> OrEmpty(p.albums)[j].title != OrEmpty(p.albums)[i].title)
  {
    var als := OrEmpty(p.albums);
    var rows := AlbumTitles(s.albums);
    var keys := PayloadTitles(als);
    var n0 := EntregaPass(s, p).nextId;
    assert AlbumPass(s, p) == NaturalKey.RunOn(rows, n0, keys);
    NaturalKey.InsertedIffNew(rows, n0, keys, i);
    assert |rows| == |s.albums| && forall a :: 0 <= a < |rows| ==> rows[a].1 == s.albums[a].title;
    assert forall j :: 0 <= j < |als| ==> keys[j] == als[j].title;
  }

  /** Every album the run adds is a payload record stored as given (its
      `artistId` is not remapped) under the next fresh id after the run's
      entregas. */
  lemma {:induction false} NewAlbumsAsGiven(s: Store, p: ImportPayload)
    ensures forall k :: |s.albums| <= k < |CommittedAlbums(s, p)| ==>
      CommittedAlbums(s, p)[k].id == EntregaPass(s, p).nextId + (k - |s.albums|) &&
      exists j :: 0 <= j < |OrEmpty(p.albums)| && CommittedAlbums(s, p)[k].Fields() == OrEmpty(p.albums)[j]
  {
    var als := OrEmpty(p.albums);
    var added := NewAlbumRows(EntregaPass(s, p).nextId, als, AlbumPass(s, p).inserted);
    assert CommittedAlbums(s, p) == s.albums + added;
    forall k | |s.albums| <= k < |CommittedAlbums(s, p)|
      ensures CommittedAlbums(s, p)[k] == added[k - |s.albums|]
      ensures AlbumPass(s, p).inserted[k - |s.albums|] < |als|
    {
    }
  }

  /** A payload track's references are resolved through the position maps:
      `entregaId == Some(v)` becomes the id recorded for payload entrega `v`
      when `1 <= v <= n`, and an absent or out-of-range reference is stored as
      absent. Albums alike. Every other field is kept as given. */
  lemma {:induction false} TrackReferencesResolve(s: Store, p: ImportPayload, i: int)
    requires 0 <= i < |OrEmpty(p.tracks)|
    ensures Placed(s, p)[i].(albumId := OrEmpty(p.tracks)[i].albumId,
                             entregaId := OrEmpty(p.tracks)[i].entregaId) == OrEmpty(p.tracks)[i]
    ensures Placed(s, p)[i].entregaId.Some? <==>
      OrEmpty(p.tracks)[i].entregaId.Some? && 1 <= OrEmpty(p.tracks)[i].entregaId.value <= |OrEmpty(p.entregas)|
    ensures Placed(s, p)[i].entregaId.Some? ==>
      Placed(s, p)[i].entregaId.value == EntregaPositions(s, p)[OrEmpty(p.tracks)[i].entregaId.value]
    ensures Placed(s, p)[i].albumId.Some? <==>
      OrEmpty(p.tracks)[i].albumId.Some? && 1 <= OrEmpty(p.tracks)[i].albumId.value <= |OrEmpty(p.albums)|
    ensures Placed(s, p)[i].albumId.Some? ==>
      Placed(s, p)[i].albumId.value == AlbumPositions(s, p)[OrEmpty(p.tracks)[i].albumId.value]
  {
    assert Placed(s, p)[i] == Place(OrEmpty(p.tracks)[i], EntregaPositions(s, p), AlbumPositions(s, p));
  }

  /** A resolved entrega reference is the position map's image of the payload
      reference. */
  lemma {:induction false} PlacedEntregaRef(s: Store, p: ImportPayload, i: int)
    requires 0 <= i < |OrEmpty(p.tracks)|
    requires Placed(s, p)[i].entregaId.Some?
    ensures OrEmpty(p.tracks)[i].entregaId.Some?
    ensures OrEmpty(p.tracks)[i].entregaId.value in EntregaPositions(s, p)
    ensures Placed(s, p)[i].entregaId.value == EntregaPositions(s, p)[OrEmpty(p.tracks)[i].entregaId.value]
  {
    assert Placed(s, p)[i] == Place(OrEmpty(p.tracks)[i], EntregaPositions(s, p), AlbumPositions(s, p));
  }

  /** A resolved album reference is the position map's image of the payload
      reference. */
  lemma {:induction false} PlacedAlbumRef(s: Store, p: ImportPayload, i: int)
    requires 0 <= i < |OrEmpty(p.tracks)|
    requires Placed(s, p)[i].albumId.Some?
    ensures OrEmpty(p.tracks)[i].albumId.Some?
    ensures OrEmpty(p.tracks)[i].albumId.value in AlbumPositions(s, p)
    ensures Placed(s, p)[i].albumId.value == AlbumPositions(s, p)[OrEmpty(p.tracks)[i].albumId.value]
  {
    assert Placed(s, p)[i] == Place(OrEmpty(p.tracks)[i], EntregaPositions(s, p), AlbumPositions(s, p));
  }

  /** A resolved entrega reference is the id of an entrega the run leaves
      behind that is named like the referenced payload entrega. */
  lemma {:induction false} TrackEntregaIsNamed(s: Store, p: ImportPayload, i: int)
    requires 0 <= i < |OrEmpty(p.tracks)|
    requires Placed(s, p)[i].entregaId.Some?
    ensures 1 <= OrEmpty(p.tracks)[i].entregaId.value <= |OrEmpty(p.entregas)|
    ensures exists e :: (0 <= e < |CommittedEntregas(s, p)| &&
      CommittedEntregas(s, p)[e].id == Placed(s, p)[i].entregaId.value &&
      CommittedEntregas(s, p)[e].name == OrEmpty(p.entregas)[OrEmpty(p.tracks)[i].entregaId.value - 1].name)
  {
    PlacedEntregaRef(s, p, i);
    EntregaPositionResolves(s, p, OrEmpty(p.tracks)[i].entregaId.value - 1);
  }

  /** A resolved album reference is the id of an album the run leaves behind
      that is titled like the referenced payload album. */
  lemma {:induction false} TrackAlbumIsNamed(s: Store, p: ImportPayload, i: int)
    requires 0 <= i < |OrEmpty(p.tracks)|
    requires Placed(s, p)[i].albumId.Some?
    ensures 1 <= OrEmpty(p.tracks)[i].albumId.value <= |OrEmpty(p.albums)|
    ensures exists a :: (0 <= a < |CommittedAlbums(s, p)| &&
      CommittedAlbums(s, p)[a].id == Placed(s, p)[i].albumId.value &&
      CommittedAlbums(s, p)[a].title == OrEmpty(p.albums)[OrEmpty(p.tracks)[i].albumId.value - 1].title)
  {
    PlacedAlbumRef(s, p, i);
    AlbumPositionResolves(s, p, OrEmpty(p.tracks)[i].albumId.value - 1);
  }

  /** Payload track `i` is inserted exactly when its key, taken after its
      entrega reference is resolved, is new to the store and to the payload
      tracks before it. */
  lemma {:induction false} TrackInsertedIffNew(s: Store, p: ImportPayload, i: int)
    requires 0 <= i < |OrEmpty(p.tracks)|
    ensures i in TrackScan(s, p).kept <==>
      Placed(s, p)[i].Key() !in TrackKeys(s.tracks) &&
      forall j :: 0 <= j < i ==> Placed(s, p)[j].Key() != Placed(s, p)[i].Key()
  {
    var keys := PlacedKeys(Placed(s, p));
    assert TrackScan(s, p) == Dedup.Filter(TrackKeys(s.tracks), keys);
    Dedup.KeptIffFirstNew(TrackKeys(s.tracks), keys);
    assert forall j :: 0 <= j < |keys| ==> keys[j] == Placed(s, p)[j].Key();
    assert i in TrackScan(s, p).kept <==> Dedup.FirstNew(TrackKeys(s.tracks), keys, i);
  }

  /** Every track the run adds is a placed payload track that was kept, under
      the next fresh id after the run's albums. */
  lemma {:induction false} NewTracksArePlaced(s: Store, p: ImportPayload)
    ensures forall k :: |s.tracks| <= k < |Committed(s, p).tracks| ==>
      Committed(s, p).tracks[k].id == AlbumPass(s, p).nextId + (k - |s.tracks|) &&
      exists i :: 0 <= i < |Placed(s, p)| && i in TrackScan(s, p).kept &&
        Committed(s, p).tracks[k].Fields() == Placed(s, p)[i]
  {
    var kept := TrackScan(s, p).kept;
    var added := NewTrackRows(AlbumPass(s, p).nextId, Placed(s, p), kept);
    assert Committed(s, p).tracks == s.tracks + added;
    forall k | |s.tracks| <= k < |Committed(s, p).tracks|
      ensures Committed(s, p).tracks[k] == added[k - |s.tracks|]
      ensures kept[k - |s.tracks|] in kept
    {
    }
  }

  /** The rows built for the tracks the dedup fold keeps carry keys that were
      not seen and that differ pairwise. */
  lemma {:induction false} KeptRowKeysAreNew(id0: int, placed: seq<NewTrack>, seen: set<TrackKey>)
    ensures forall j :: 0 <= j < |Dedup.Filter(seen, PlacedKeys(placed)).kept| ==>
      Dedup.Filter(seen, PlacedKeys(placed)).kept[j] < |placed|
    ensures forall j :: 0 <= j < |Dedup.Filter(seen, PlacedKeys(placed)).kept| ==>
      NewTrackRows(id0, placed, Dedup.Filter(seen, PlacedKeys(placed)).kept)[j].Key() !in seen
    ensures forall j1, j2 :: 0 <= j1 < j2 < |Dedup.Filter(seen, PlacedKeys(placed)).kept| ==>
      NewTrackRows(id0, placed, Dedup.Filter(seen, PlacedKeys(placed)).kept)[j1].Key() !=
      NewTrackRows(id0, placed, Dedup.Filter(seen, PlacedKeys(placed)).kept)[j2].Key()
  {
    var keys := PlacedKeys(placed);
    var kept := Dedup.Filter(seen, keys).kept;
    var rows := NewTrackRows(id0, placed, kept);
    forall j | 0 <= j < |kept|
      ensures rows[j].Key() == keys[kept[j]]
    {
      assert rows[j].Fields() == placed[kept[j]];
    }
    Dedup.KeptKeysAreNewAndDistinct(seen, keys);
  }

  /** The key of every track the run adds is new to the store and differs
      from the key of every other added track. */
  lemma {:induction false} NewTrackKeysAreNew(s: Store, p: ImportPayload)
    ensures forall k :: |s.tracks| <= k < |Committed(s, p).tracks| ==>
      Committed(s, p).tracks[k].Key() !in TrackKeys(s.tracks)
    ensures forall k1, k2 :: |s.tracks| <= k1 < k2 < |Committed(s, p).tracks| ==>
      Committed(s, p).tracks[k1].Key() != Committed(s, p).tracks[k2].Key()
  {
    var added := NewTrackRows(AlbumPass(s, p).nextId, Placed(s, p), TrackScan(s, p).kept);
    assert Committed(s, p).tracks == s.tracks + added;
    assert forall k :: |s.tracks| <= k < |Committed(s, p).tracks| ==>
      Committed(s, p).tracks[k] == added[k - |s.tracks|];
    assert TrackScan(s, p) == Dedup.Filter(TrackKeys(s.tracks), PlacedKeys(Placed(s, p)));
    KeptRowKeysAreNew(AlbumPass(s, p).nextId, Placed(s, p), TrackKeys(s.tracks));
  }

  /** No two stored entregas share a name and no two stored albums share a
      title. The store's own constraints do not demand it, but only then does
      a name or title identify one row. */
  predicate NamesDistinct(s: Store) {
    NaturalKey.DistinctKeys(EntregaNames(s.entregas)) && NaturalKey.DistinctKeys(AlbumTitles(s.albums))
  }

  /** The run never creates a second entrega with a stored name, nor a second
      album with a stored title. */
  lemma {:induction false} NamesStayDistinct(s: Store, p: ImportPayload, fault: Option<nat>)
    requires NamesDistinct(s)
    ensures NamesDistinct(InitData(s, p, fault).store)
  {
    if !Fails(fault, Statements(s, p)) {
      CommittedEntregaNames(s, p);
      NaturalKey.AddedKeepsKeysDistinct(EntregaNames(s.entregas), s.nextId, PayloadNames(OrEmpty(p.entregas)));
      CommittedAlbumTitles(s, p);
      NaturalKey.AddedKeepsKeysDistinct(AlbumTitles(s.albums), EntregaPass(s, p).nextId, PayloadTitles(OrEmpty(p.albums)));
    }
  }

  lemma {:induction false} RerunEntregasQuiet(s: Store, p: ImportPayload)
    requires NaturalKey.DistinctKeys(EntregaNames(s.entregas))
    ensures EntregaPass(Committed(s, p), p).inserted == []
    ensures EntregaPass(Committed(s, p), p).positions == EntregaPass(s, p).positions
  {
    var s1 := Committed(s, p);
    var keys := PayloadNames(OrEmpty(p.entregas));
    CommittedEntregaNames(s, p);
    NaturalKey.RerunInsertsNothing(EntregaNames(s.entregas), s.nextId, keys, s1.nextId);
    assert EntregaPass(s1, p) == NaturalKey.RunOn(EntregaNames(s1.entregas), s1.nextId, keys);
  }

  lemma {:induction false} RerunAlbumsQuiet(s: Store, p: ImportPayload)
    requires NaturalKey.DistinctKeys(AlbumTitles(s.albums))
    ensures AlbumPass(Committed(s, p), p).inserted == []
    ensures AlbumPass(Committed(s, p), p).positions == AlbumPass(s, p).positions
  {
    var s1 := Committed(s, p);
    var keys := PayloadTitles(OrEmpty(p.albums));
    var n0 := EntregaPass(s, p).nextId;
    var n1 := EntregaPass(s1, p).nextId;
    CommittedAlbumTitles(s, p);
    NaturalKey.RerunInsertsNothing(AlbumTitles(s.albums), n0, keys, n1);
    assert AlbumPass(s, p) == NaturalKey.RunOn(AlbumTitles(s.albums), n0, keys);
    assert AlbumPass(s1, p) == NaturalKey.RunOn(AlbumTitles(s1.albums), n1, keys);
  }

  /** Appending the rows for the kept tracks to a table stores the key of
      every track the dedup fold walked. */
  lemma {:induction false} KeptKeysStored(rows: seq<Track>, id0: int, placed: seq<NewTrack>)
    ensures forall j :: 0 <= j < |Dedup.Filter(TrackKeys(rows), PlacedKeys(placed)).kept| ==>
      Dedup.Filter(TrackKeys(rows), PlacedKeys(placed)).kept[j] < |placed|
    ensures forall i :: 0 <= i < |placed| ==>
      placed[i].Key() in TrackKeys(rows + NewTrackRows(id0, placed, Dedup.Filter(TrackKeys(rows), PlacedKeys(placed)).kept))
  {
    var keys := PlacedKeys(placed);
    var kept := Dedup.Filter(TrackKeys(rows), keys).kept;
    var added := NewTrackRows(id0, placed, kept);
    var all := rows + added;
    Dedup.SeenIsKeptKeys(TrackKeys(rows), keys);
    forall i | 0 <= i < |placed|
      ensures placed[i].Key() in TrackKeys(all)
    {
      assert keys[i] == placed[i].Key();
      assert keys[i] in Dedup.Filter(TrackKeys(rows), keys).seen;
      if keys[i] in TrackKeys(rows) {
        var e :| 0 <= e < |rows| && rows[e].Key() == keys[i];
        assert all[e] == rows[e];
        assert all[e] in all;
      } else {
        var j :| 0 <= j < |kept| && keys[kept[j]] == keys[i];
        assert all[|rows| + j] == added[j];
        assert added[j].Fields() == placed[kept[j]];
        assert all[|rows| + j] in all;
      }
    }
  }

  /** After the run, the stored track keys include every key the run saw. */
  lemma {:induction false} SeenTrackKeysStored(s: Store, p: ImportPayload)
    ensures forall i :: 0 <= i < |Placed(s, p)| ==>
      Placed(s, p)[i].Key() in TrackKeys(Committed(s, p).tracks)
  {
    KeptKeysStored(s.tracks, AlbumPass(s, p).nextId, Placed(s, p));
    assert Committed(s, p).tracks ==
      s.tracks + NewTrackRows(AlbumPass(s, p).nextId, Placed(s, p), TrackScan(s, p).kept);
  }

  /** Two stores whose runs build the same position maps resolve the payload
      tracks alike. */
  lemma {:induction false} SamePositionsSamePlaced(s: Store, s1: Store, p: ImportPayload)
    requires EntregaPass(s1, p).positions == EntregaPass(s, p).positions
    requires AlbumPass(s1, p).positions == AlbumPass(s, p).positions
    ensures Placed(s1, p) == Placed(s, p)
  {
    var ts := OrEmpty(p.tracks);
    forall i | 0 <= i < |ts|
      ensures Placed(s1, p)[i] == Placed(s, p)[i]
    {
      assert Placed(s1, p)[i] == Place(ts[i], EntregaPass(s, p).positions, AlbumPass(s, p).positions);
    }
  }

  /** A run on a store that already holds every resolved track key keeps no
      track. */
  lemma {:induction false} StoredKeysKeepNothing(s1: Store, p: ImportPayload)
    requires forall i :: 0 <= i < |Placed(s1, p)| ==> Placed(s1, p)[i].Key() in TrackKeys(s1.tracks)
    ensures TrackScan(s1, p).kept == []
  {
    var keys := PlacedKeys(Placed(s1, p));
    assert forall i :: 0 <= i < |keys| ==> keys[i] == Placed(s1, p)[i].Key();
    Dedup.AllSeenKeepsNothing(TrackKeys(s1.tracks), keys);
  }

  /** Once both position maps come out as on the first run, every payload
      track key is already stored, so no track is inserted again. */
  lemma {:induction false} RerunTracksQuiet(s: Store, p: ImportPayload)
    requires EntregaPass(Committed(s, p), p).positions == EntregaPass(s, p).positions
    requires AlbumPass(Committed(s, p), p).positions == AlbumPass(s, p).positions
    ensures TrackScan(Committed(s, p), p).kept == []
  {
    var s1 := Committed(s, p);
    SamePositionsSamePlaced(s, s1, p);
    SeenTrackKeysStored(s, p);
    StoredKeysKeepNothing(s1, p);
  }

  /** `init_data` is idempotent: run again on the store its first successful
      run committed, with the same payload, it inserts nothing and leaves the
      store as it is. */
  lemma {:induction false} InitDataIdempotent(s: Store, p: ImportPayload)
    requires NamesDistinct(s)
    ensures InitData(InitData(s, p, None).store, p, None) ==
            Outcome(InitData(s, p, None).store, Success(Counts(0, 0, 0)))
  {
    var s1 := Committed(s, p);
    assert InitData(s, p, None).store == s1;
    RerunEntregasQuiet(s, p);
    RerunAlbumsQuiet(s, p);
    RerunTracksQuiet(s, p);
    assert EntregaPass(s1, p).nextId == s1.nextId;
    assert AlbumPass(s1, p).nextId == s1.nextId;
    var s2 := Committed(s1, p);
    assert s2.entregas == s1.entregas;
    assert s2.albums == s1.albums;
    assert s2.tracks == s1.tracks;
    assert s2 == s1;
  }

  /** Appending entregas, albums and tracks under consecutive fresh ids, in
      that order, keeps a valid store valid. */
  lemma {:induction false} AppendsKeepValid(s: Store, es: seq<Entrega>, als: seq<Album>, ts: seq<Track>,
                                            n1: int, n2: int)
    requires Valid(s)
    requires forall j :: 0 <= j < |es| ==> es[j].id == s.nextId + j
    requires forall j :: 0 <= j < |als| ==> als[j].id == n1 + j
    requires forall j :: 0 <= j < |ts| ==> ts[j].id == n2 + j
    requires s.nextId + |es| <= n1 && n1 + |als| <= n2
    ensures Valid(Store(s.albums + als, s.tracks + ts, s.batches, s.entregas + es, n2 + |ts|))
  {
    var n := n2 + |ts|;
    AppendFreshKeepsValid(s.entregas, EntregaId, s.nextId, s.nextId, es, n);
    AppendFreshKeepsValid(s.albums, AlbumId, s.nextId, n1, als, n);
    AppendFreshKeepsValid(s.tracks, TrackId, s.nextId, n2, ts, n);
    RaiseKeepsValid(s.batches, BatchId, s.nextId, n);
  }

  /** The store the run commits keeps every id below the counter and unique
      within its table. */
  lemma {:induction false} CommittedKeepsValid(s: Store, p: ImportPayload)
    requires Valid(s)
    ensures Valid(Committed(s, p))
  {
    var c := Committed(s, p);
    var n1 := EntregaPass(s, p).nextId;
    var n2 := AlbumPass(s, p).nextId;
    var es := NewEntregaRows(s.nextId, OrEmpty(p.entregas), EntregaPass(s, p).inserted);
    var als := NewAlbumRows(n1, OrEmpty(p.albums), AlbumPass(s, p).inserted);
    var ts := NewTrackRows(n2, Placed(s, p), TrackScan(s, p).kept);
    assert c.entregas == s.entregas + es;
    assert c.albums == s.albums + als;
    assert c.tracks == s.tracks + ts;
    assert c.batches == s.batches && c.nextId == n2 + |ts|;
    AppendsKeepValid(s, es, als, ts, n1, n2);
  }

  /** A run keeps every id below the counter and unique within its table. */
  lemma {:induction false} InitDataKeepsValid(s: Store, p: ImportPayload, fault: Option<nat>)
    requires Valid(s)
    ensures Valid(InitData(s, p, fault).store)
  {
    if !Fails(fault, Statements(s, p)) {
      CommittedKeepsValid(s, p);
    }
  }
}
