/**
 The records of the catalog: the `New*` input records a client or an import
 payload supplies, and the stored rows, each of which is its `New*` record
 plus a store-assigned id. Every foreign key is optional and `createdAt` is an
 opaque, caller-supplied string on every record.
 */
module Models {

  datatype Option<+T> = None | Some(value: T)

  datatype Result<+T, +E> = Success(value: T) | Failure(error: E)

  /** The `bpm` column is a 64-bit float that nothing computes on; it is carried
      as its bit pattern so that it can be copied and compared, nothing more. */
  datatype Bpm = Bpm(bits: bv64)

  datatype NewAlbum = NewAlbum(
    title: string,
    artistId: Option<int>,
    releaseYear: Option<int>,
    recordLabel: Option<string>,  // the `label` column (a Dafny keyword)
    format: Option<string>,
    country: Option<string>,
    genre: Option<string>,
    style: Option<string>,
    createdAt: string)

  datatype NewTrack = NewTrack(
    title: string,
    artistName: string,
    albumId: Option<int>,
    durationSeconds: Option<int>,
    bpm: Option<Bpm>,
    tone: Option<string>,
    position: Option<string>,
    score: Option<string>,
    entregaId: Option<int>,
    createdAt: string)
  {
    /** The natural key under which tracks are deduplicated. */
    function Key(): TrackKey {
      TrackKey(title, artistName, entregaId)
    }
  }

  datatype NewBatch = NewBatch(name: string, createdAt: string)

  datatype NewEntrega = NewEntrega(name: string, batchId: Option<int>, createdAt: string)

  /** A bulk payload: four independently optional sequences. */
  datatype ImportPayload = ImportPayload(
    albums: Option<seq<NewAlbum>>,
    tracks: Option<seq<NewTrack>>,
    batches: Option<seq<NewBatch>>,
    entregas: Option<seq<NewEntrega>>)

  /** An absent sequence is processed like an empty one. */
  function OrEmpty<T>(items: Option<seq<T>>): seq<T> {
    match items
    case None => []
    case Some(xs) => xs
  }

  /** A track's dedup key; the entrega component may be absent. */
  datatype TrackKey = TrackKey(title: string, artistName: string, entregaId: Option<int>)

  datatype Album = Album(
    id: int,
    title: string,
    artistId: Option<int>,
    releaseYear: Option<int>,
    recordLabel: Option<string>,  // the `label` column (a Dafny keyword)
    format: Option<string>,
    country: Option<string>,
    genre: Option<string>,
    style: Option<string>,
    createdAt: string)
  {
    /** The row without its id. */
    function Fields(): NewAlbum {
      NewAlbum(title, artistId, releaseYear, recordLabel, format, country, genre, style, createdAt)
    }
  }

  datatype Track = Track(
    id: int,
    title: string,
    artistName: string,
    albumId: Option<int>,
    durationSeconds: Option<int>,
    bpm: Option<Bpm>,
    tone: Option<string>,
    position: Option<string>,
    score: Option<string>,
    entregaId: Option<int>,
    createdAt: string)
  {
    function Fields(): NewTrack {
      NewTrack(title, artistName, albumId, durationSeconds, bpm, tone, position, score, entregaId, createdAt)
    }

    function Key(): TrackKey {
      TrackKey(title, artistName, entregaId)
    }
  }

  datatype Batch = Batch(id: int, name: string, createdAt: string) {
    function Fields(): NewBatch {
      NewBatch(name, createdAt)
    }
  }

  datatype Entrega = Entrega(id: int, name: string, batchId: Option<int>, createdAt: string) {
    function Fields(): NewEntrega {
      NewEntrega(name, batchId, createdAt)
    }
  }

  /** The row a store holds once `n` has been given the id `id`. */
  function AlbumOf(id: int, n: NewAlbum): (a: Album)
    ensures a.id == id && a.Fields() == n
  {
    Album(id, n.title, n.artistId, n.releaseYear, n.recordLabel, n.format, n.country, n.genre, n.style, n.createdAt)
  }

  function TrackOf(id: int, n: NewTrack): (t: Track)
    ensures t.id == id && t.Fields() == n
    ensures t.Key() == n.Key()
  {
    Track(id, n.title, n.artistName, n.albumId, n.durationSeconds, n.bpm, n.tone, n.position, n.score,
          n.entregaId, n.createdAt)
  }

  function BatchOf(id: int, n: NewBatch): (b: Batch)
    ensures b.id == id && b.Fields() == n
  {
    Batch(id, n.name, n.createdAt)
  }

  function EntregaOf(id: int, n: NewEntrega): (e: Entrega)
    ensures e.id == id && e.Fields() == n
  {
    Entrega(id, n.name, n.batchId, n.createdAt)
  }

  /** Conversely, every stored row is exactly its fields plus its id. */
  lemma RowsAreFieldsPlusId(a: Album, t: Track, b: Batch, e: Entrega)
    ensures AlbumOf(a.id, a.Fields()) == a
    ensures TrackOf(t.id, t.Fields()) == t
    ensures BatchOf(b.id, b.Fields()) == b
    ensures EntregaOf(e.id, e.Fields()) == e
  {
  }
}
