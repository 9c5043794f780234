/**
 The bulk importer `import_json`: one transaction that appends every payload
 album, then every track, then every batch, then every entrega, exactly as
 given, and commits. Nothing is looked up or deduplicated and no reference is
 remapped, so importing the same payload twice stores every record twice.
 */
module Import {
  import opened Models
  import opened Database
  import opened Http
  import Init

  /** The `{"status": "ok"}` body of a successful import. */
  datatype Ack = StatusOk

  function Albums(p: ImportPayload): seq<NewAlbum> { OrEmpty(p.albums) }
  function Tracks(p: ImportPayload): seq<NewTrack> { OrEmpty(p.tracks) }
  function Batches(p: ImportPayload): seq<NewBatch> { OrEmpty(p.batches) }
  function Entregas(p: ImportPayload): seq<NewEntrega> { OrEmpty(p.entregas) }

  /** The number of records the payload carries. */
  function Size(p: ImportPayload): nat {
    |Albums(p)| + |Tracks(p)| + |Batches(p)| + |Entregas(p)|
  }

  /** BEGIN, one INSERT per record, COMMIT. */
  function Statements(p: ImportPayload): (n: nat)
    ensures n >= 2
  {
    1 + Size(p) + 1
  }

  /** The indices `0, 1, ..., n - 1`: every record of a sequence, in order. */
  function Every(n: nat): seq<nat> {
    seq(n, j requires 0 <= j < n => j)
  }

  /** The rows for a payload sequence: the seed reconciler's row builders
      applied to every record, under consecutive ids from `id0`. */
  function AlbumRows(id0: int, als: seq<NewAlbum>): (r: seq<Album>)
    ensures |r| == |als|
    ensures forall j :: 0 <= j < |r| ==> r[j].id == id0 + j && r[j].Fields() == als[j]
  {
    Init.NewAlbumRows(id0, als, Every(|als|))
  }

  function TrackRows(id0: int, ts: seq<NewTrack>): (r: seq<Track>)
    ensures |r| == |ts|
    ensures forall j :: 0 <= j < |r| ==> r[j].id == id0 + j && r[j].Fields() == ts[j]
  {
    Init.NewTrackRows(id0, ts, Every(|ts|))
  }

  function BatchRows(id0: int, bs: seq<NewBatch>): (r: seq<Batch>)
    ensures |r| == |bs|
    ensures forall j :: 0 <= j < |r| ==> r[j].id == id0 + j && r[j].Fields() == bs[j]
  {
    seq(|bs|, j requires 0 <= j < |bs| => BatchOf(id0 + j, bs[j]))
  }

  function EntregaRows(id0: int, es: seq<NewEntrega>): (r: seq<Entrega>)
    ensures |r| == |es|
    ensures forall j :: 0 <= j < |r| ==> r[j].id == id0 + j && r[j].Fields() == es[j]
  {
    Init.NewEntregaRows(id0, es, Every(|es|))
  }

  /** The store once the transaction commits: the ids handed out follow the
      order albums, tracks, batches, entregas. */
  function Appended(s: Store, p: ImportPayload): (a: Store)
    ensures Init.OnlyAppends(s, a)
    ensures |a.albums| == |s.albums| + |Albums(p)| && |a.tracks| == |s.tracks| + |Tracks(p)|
    ensures |a.batches| == |s.batches| + |Batches(p)| && |a.entregas| == |s.entregas| + |Entregas(p)|
    ensures a.nextId == s.nextId + Size(p)
  {
    var als := Albums(p);
    var ts := Tracks(p);
    var bs := Batches(p);
    var es := Entregas(p);
    var n1 := s.nextId + |als|;
    var n2 := n1 + |ts|;
    var n3 := n2 + |bs|;
    var a := Store(
      albums := s.albums + AlbumRows(s.nextId, als),
      tracks := s.tracks + TrackRows(n1, ts),
      batches := s.batches + BatchRows(n2, bs),
      entregas := s.entregas + EntregaRows(n3, es),
      nextId := n3 + |es|);
    assert a.albums[..|s.albums|] == s.albums;
    assert a.tracks[..|s.tracks|] == s.tracks;
    assert a.batches[..|s.batches|] == s.batches;
    assert a.entregas[..|s.entregas|] == s.entregas;
    a
  }

  /** Besides BEGIN and COMMIT, the import issues one INSERT per row it
      appends. */
  lemma {:induction false} OneInsertPerRecord(s: Store, p: ImportPayload)
    ensures Statements(p) == 2 + (|Appended(s, p).albums| - |s.albums|) + (|Appended(s, p).tracks| - |s.tracks|)
                               + (|Appended(s, p).batches| - |s.batches|) + (|Appended(s, p).entregas| - |s.entregas|)
  {
  }

  /** `import_json` after the payload has been parsed: all or nothing. A
      failure of any statement it issues, BEGIN, any INSERT or COMMIT, fails
      the whole import. */
  function ImportJson(s: Store, p: ImportPayload, fault: Option<nat>): (r: Outcome<Reply<Ack>, StatusCode>)
    ensures r.result.Failure? ==> r.store == s && r.result.error == InternalServerError
    ensures r.result.Success? ==> r.result.value == Reply(Ok, StatusOk)
    ensures r.result.Failure? <==> Fails(fault, Statements(p))
    ensures fault == Some(0) ==> r.result.Failure?
    ensures fault.None? ==> r.result.Success?
    ensures r.result.Success? ==> r.store.nextId == s.nextId + Size(p)
  {
    if Fails(fault, Statements(p)) then Outcome(s, Failure(InternalServerError))
    else Outcome(Appended(s, p), Success(Reply(Ok, StatusOk)))
  }

  /** A successful import appends every payload record to its table, in
      payload order and with every field (foreign keys included) as given;
      the rows already stored stay as they were. */
  lemma {:induction false} ImportAppendsVerbatim(s: Store, p: ImportPayload, fault: Option<nat>)
    requires ImportJson(s, p, fault).result.Success?
    ensures |ImportJson(s, p, fault).store.albums| == |s.albums| + |Albums(p)|
    ensures ImportJson(s, p, fault).store.albums[..|s.albums|] == s.albums
    ensures forall j :: 0 <= j < |Albums(p)| ==> ImportJson(s, p, fault).store.albums[|s.albums| + j].Fields() == Albums(p)[j]
    ensures |ImportJson(s, p, fault).store.tracks| == |s.tracks| + |Tracks(p)|
    ensures ImportJson(s, p, fault).store.tracks[..|s.tracks|] == s.tracks
    ensures forall j :: 0 <= j < |Tracks(p)| ==> ImportJson(s, p, fault).store.tracks[|s.tracks| + j].Fields() == Tracks(p)[j]
    ensures |ImportJson(s, p, fault).store.batches| == |s.batches| + |Batches(p)|
    ensures ImportJson(s, p, fault).store.batches[..|s.batches|] == s.batches
    ensures forall j :: 0 <= j < |Batches(p)| ==> ImportJson(s, p, fault).store.batches[|s.batches| + j].Fields() == Batches(p)[j]
    ensures |ImportJson(s, p, fault).store.entregas| == |s.entregas| + |Entregas(p)|
    ensures ImportJson(s, p, fault).store.entregas[..|s.entregas|] == s.entregas
    ensures forall j :: 0 <= j < |Entregas(p)| ==> ImportJson(s, p, fault).store.entregas[|s.entregas| + j].Fields() == Entregas(p)[j]
  {
  }

  /** A successful import keeps every id below the counter and unique within
      its table. */
  lemma {:induction false} ImportKeepsValid(s: Store, p: ImportPayload, fault: Option<nat>)
    requires Valid(s)
    ensures Valid(ImportJson(s, p, fault).store)
  {
    if !Fails(fault, Statements(p)) {
      var n1 := s.nextId + |Albums(p)|;
      var n2 := n1 + |Tracks(p)|;
      var n3 := n2 + |Batches(p)|;
      var n4 := n3 + |Entregas(p)|;
      AppendFreshKeepsValid(s.albums, AlbumId, s.nextId, s.nextId, AlbumRows(s.nextId, Albums(p)), n4);
      AppendFreshKeepsValid(s.tracks, TrackId, s.nextId, n1, TrackRows(n1, Tracks(p)), n4);
      AppendFreshKeepsValid(s.batches, BatchId, s.nextId, n2, BatchRows(n2, Batches(p)), n4);
      AppendFreshKeepsValid(s.entregas, EntregaId, s.nextId, n3, EntregaRows(n3, Entregas(p)), n4);
    }
  }

  /** Importing the same payload twice stores each of its records twice: the
      importer is not idempotent. */
  lemma {:induction false} ImportTwiceDuplicates(s: Store, p: ImportPayload)
    ensures |ImportJson(ImportJson(s, p, None).store, p, None).store.entregas| == |s.entregas| + 2 * |Entregas(p)|
    ensures |ImportJson(ImportJson(s, p, None).store, p, None).store.albums| == |s.albums| + 2 * |Albums(p)|
    ensures |ImportJson(ImportJson(s, p, None).store, p, None).store.tracks| == |s.tracks| + 2 * |Tracks(p)|
    ensures |ImportJson(ImportJson(s, p, None).store, p, None).store.batches| == |s.batches| + 2 * |Batches(p)|
  {
    ImportAppendsVerbatim(s, p, None);
    ImportAppendsVerbatim(ImportJson(s, p, None).store, p, None);
  }

  /** An empty store and a payload holding one entrega. */
  const EmptyStore := Store([], [], [], [], 1)
  const OneEntrega := ImportPayload(None, None, None, Some([NewEntrega("E1", None, "t0")]))

  lemma ImportOneEntregaTwice()
    ensures |ImportJson(ImportJson(EmptyStore, OneEntrega, None).store, OneEntrega, None).store.entregas| == 2
    ensures ImportJson(ImportJson(EmptyStore, OneEntrega, None).store, OneEntrega, None).store.entregas[0].name == "E1"
    ensures ImportJson(ImportJson(EmptyStore, OneEntrega, None).store, OneEntrega, None).store.entregas[1].name == "E1"
  {
    var once := ImportJson(EmptyStore, OneEntrega, None).store;
    ImportAppendsVerbatim(EmptyStore, OneEntrega, None);
    ImportAppendsVerbatim(once, OneEntrega, None);
    assert once.entregas[0].Fields() == NewEntrega("E1", None, "t0");
  }

  lemma SeedOneEntregaTwice()
    ensures |Init.InitData(Init.InitData(EmptyStore, OneEntrega, None).store, OneEntrega, None).store.entregas| == 1
    ensures Init.InitData(Init.InitData(EmptyStore, OneEntrega, None).store, OneEntrega, None).store.entregas[0].name == "E1"
  {
    var once := Init.InitData(EmptyStore, OneEntrega, None).store;
    Init.InitDataIdempotent(EmptyStore, OneEntrega);
    Init.EntregaInsertedIffNew(EmptyStore, OneEntrega, 0);
    assert Init.EntregaPass(EmptyStore, OneEntrega).inserted == [0];
    assert once == Init.Committed(EmptyStore, OneEntrega);
    var added := Init.NewEntregaRows(1, [NewEntrega("E1", None, "t0")], [0]);
    assert once.entregas == [] + added;
    assert added[0].Fields() == NewEntrega("E1", None, "t0");
  }

  /** On an empty store and a payload of one entrega, importing twice leaves
      two entregas of that name, where seeding twice leaves one. */
  lemma ImportDuplicatesWhereSeedingDoesNot()
    ensures var twice := ImportJson(ImportJson(EmptyStore, OneEntrega, None).store, OneEntrega, None).store;
            var seeded := Init.InitData(Init.InitData(EmptyStore, OneEntrega, None).store, OneEntrega, None).store;
            && |twice.entregas| == 2 && twice.entregas[0].name == "E1" && twice.entregas[1].name == "E1"
            && |seeded.entregas| == 1 && seeded.entregas[0].name == "E1"
  {
    ImportOneEntregaTwice();
    SeedOneEntregaTwice();
  }
}
