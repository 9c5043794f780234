# Catalog seed reconciler, bulk import, CRUD handlers and article guard

This project models the core of a small catalog service for a music archive.
The service stores albums, tracks, batches and "entregas" (delivery
groupings). The model covers the following parts:

- **`init_data`**, the idempotent seed reconciler (`Init`). In one transaction it
  1. loads a name → id index of the stored entregas and a title → id index of
     the stored albums;
  2. walks the payload's entregas and then its albums, giving each a 1-based
     payload position and inserting only those whose name or title is new;
  3. resolves each payload track's `entregaId`/`albumId`, which are payload
     positions, into store ids;
  4. inserts a track only when its key `(title, artistName, resolved
     entregaId)` is new.

  Payload batches are ignored.
- **`import_json`**, the bulk importer (`Import`). It appends every payload
  record unconditionally, in one transaction. It does no deduplication and no
  position remapping.
- **The create/update handlers** of the four tables (`Crud`). Each handler is
  an auto-committed write followed by a read-back of the row by id.
- **The article pages** (`Articles`):
  - the file-name guard `is_safe_markdown_name` and the order of checks in
    `view_article`;
  - the filter and sort of `list_articles`.

  A small path-resolution model (`Paths`) states what the guard protects
  against. A lexicographic order and sort (`Lex`) stand for `Vec<String>::sort`.

Supporting modules:
- `Models` holds the records of `src/models.rs`.
- `Database` holds the abstract store. It is one sequence of rows per table,
  in insertion order, plus a fresh-id counter that stands for `RETURNING id`.
- `Dedup` is the generic "skip keys already seen" fold.
- `NaturalKey` is the generic name/title → id index and position fold.

Storage failures are a parameter of every operation. `fault == Some(k)` means
the k-th statement the operation issues fails; `None` means no statement fails.
A transaction fails exactly when one of the statements it issues fails, and it
then answers with the store unchanged. A create or update
handler whose read-back fails answers 500 with its write already committed,
exactly as the code does.

The comment at `src/main.rs:24` says the seed runs only if the database is
empty. The code runs the reconciler on every start, and the reconciler decides
item by item. The model follows the code.

Two observations about the article pages are proved rather than reported as
defects, because neither lets a request escape the directory:
- `list_articles` lists `notes..md` (its extension is `md`), but the guard
  refuses it.
- The guard accepts `.md`, but the listing omits it (it has no extension).

## Model

| member | source | states |
|---|---|---|
| Models.AlbumOf | src/models.rs:13-24 | A stored album is its `NewAlbum` fields, field for field, plus an id. |
| Models.TrackOf | src/models.rs:27-39 | A stored track is its `NewTrack` fields plus an id. Its dedup key `(title, artistName, entregaId)` is the input's, and the entrega part may be absent. |
| Models.BatchOf | src/models.rs:42-46 | A stored batch is its `NewBatch` fields plus an id. |
| Models.EntregaOf | src/models.rs:49-54 | A stored entrega is its `NewEntrega` fields plus an id. |
| Models.RowsAreFieldsPlusId | src/models.rs:13-54 | Conversely, every stored album, track, batch and entrega is exactly its own fields under its own id, so the stored records carry nothing beyond the fields of their `New*` counterparts. |
| Database.FindById | src/routes.rs:137-143 | A read by id with `fetch_one` finds nothing exactly when no row has the id. Otherwise it returns the first row with that id. |
| Database.CountById | src/routes.rs:170-172 | The rows an `UPDATE ... WHERE id` affects: zero exactly when no row has the id, and never more than the table holds. |
| Database.ReplaceById | src/routes.rs:153-168 | Every row with the id becomes the new row; every other row stays as it was; the length is unchanged. |
| Database.FindAppended | src/routes.rs:121-143 | In a valid table, reading back the id just handed out finds exactly the appended row. |
| Database.FindReplaced | src/routes.rs:153-180 | After an update of an existing id, reading back that id finds the new row. |
| Database.ReplaceKeepsValid | src/routes.rs:153-168 | An update that keeps the id keeps ids unique and below the counter. |
| Database.ReplaceTwice | src/routes.rs:153-168 | Updating by id with the same row twice equals updating once. |
| Database.AppendFreshKeepsValid | src/init.rs:60-67 | Appending rows with consecutive fresh ids, all at or above the counter, keeps a valid table valid under any counter past the last of them. |
| Database.RaiseCounterKeepsValid | src/routes.rs:121-134 | Handing out an id keeps every table of a valid store valid. |
| Dedup.Filter | src/init.rs:137-160 | The kept items are distinct in-range indices in increasing order. The final seen set is the starting set plus every key walked. |
| Dedup.KeptIffFirstNew | src/init.rs:137-160 | An item is kept exactly when its key was not seen at the start and no earlier item carries it. |
| Dedup.SeenIsKeptKeys | src/init.rs:138-160 | The seen set is the starting set plus the keys of the kept items. |
| Dedup.AllSeenKeepsNothing | src/init.rs:138-140 | When every key was seen at the start, nothing is kept. |
| Dedup.KeptKeysAreNewAndDistinct | src/init.rs:138-160 | Kept items carry pairwise distinct keys, none of them seen at the start. |
| NaturalKey.BuildIndex | src/init.rs:26-34 | The index holds exactly the stored keys, and each maps to the id of a row carrying it. |
| NaturalKey.IndexOfDistinct | src/init.rs:32-34 | With distinct stored keys, each key maps to the id of its one row. |
| NaturalKey.Step | src/init.rs:53-70 | After one record, its key is indexed and its position maps to the key's id. Keys already indexed keep their ids. Nothing is inserted exactly when the key was already indexed, and the counter advances exactly with the insertions. |
| NaturalKey.Run | src/init.rs:48-74 | Positions 1..n, and only those, are recorded. Each insertion is of an in-range record, and the counter advances by one per insertion. |
| NaturalKey.RunIsDedup | src/init.rs:53-70 | The run inserts exactly the records the generic dedup fold keeps, with the index keys as its seen set. |
| NaturalKey.RunKeepsIndexed | src/init.rs:53-57 | A key already in the index keeps its id through the run. |
| NaturalKey.RunResolves | src/init.rs:50-70 | Position i+1 maps to the id the final index gives the i-th key. |
| NaturalKey.RunNumbersInserted | src/init.rs:60-70 | The j-th inserted record is indexed under the j-th fresh id. |
| NaturalKey.NewKeyIsNumbered | src/init.rs:60-70 | A key missing from the starting index resolves to the fresh id of the first inserted record carrying it. |
| NaturalKey.NewKeyNamesAddedRow | src/init.rs:60-70 | A key no stored row carries resolves to the id of the row the run added for it. |
| NaturalKey.PositionsNameRows | src/init.rs:50-70 | Each position maps to the id of a stored or added row with that key, and to a stored row's id when one exists. |
| NaturalKey.InsertedIffNew | src/init.rs:53-70 | A record is inserted exactly when no stored row and no earlier record carries its key. |
| NaturalKey.AddedKeepsKeysDistinct | src/init.rs:53-70 | Keys distinct before the run stay distinct after it. |
| NaturalKey.IndexAfterRun | src/init.rs:69-70 | After the run, the table's index sends each payload key to the id its position resolved to. |
| NaturalKey.AllIndexedRunsQuiet | src/init.rs:53-57 | If every key is already indexed, nothing is inserted and positions resolve through the starting index. |
| NaturalKey.RerunInsertsNothing | src/init.rs:53-57 | With distinct keys, re-running on the extended table inserts nothing and resolves every position as before. |
| NaturalKey.SameIndexSamePositions | src/init.rs:49-57 | An index that already sends every key to its old position's id reproduces those positions without inserting. |
| Init.Resolve | src/init.rs:127-134 | A resolved reference is present only when the payload reference was present and has a position in the map, and it is then that position's id. |
| Init.ResolveMapped | src/init.rs:127-134 | Conversely, a reference the position map knows resolves to its image. |
| Init.Place | src/init.rs:127-134 | Only `albumId` and `entregaId` change, an absent reference stays absent, and the track's dedup key carries the resolved entrega reference. |
| Init.EntregaNames | src/init.rs:27-30 | The `(id, name)` pairs read back from the stored entregas, one per row, in table order. |
| Init.AlbumTitles | src/init.rs:38-41 | The `(id, title)` pairs read back from the stored albums, one per row, in table order. |
| Init.TrackKeys | src/init.rs:113-121 | The existing-track set holds the key of every stored track. |
| Init.TrackKeysAreStored | src/init.rs:113-121 | Conversely, every key in the existing-track set is the key of some stored track. |
| Init.EntregaPass | src/init.rs:47-74 | The entrega pass inserts only payload entregas, takes one fresh id per insert, and maps every 1-based payload position, and nothing else. |
| Init.AlbumPass | src/init.rs:77-110 | The album pass inserts only payload albums, takes one fresh id per insert after the entrega pass, and maps every 1-based payload position, and nothing else. |
| Init.Placed | src/init.rs:124-135 | Every payload track is placed once, in order: there are exactly as many placed tracks as payload tracks. |
| Init.SamePositionsSamePlaced | src/init.rs:124-135 | Placement depends on the store only through the two position maps: stores that yield the same maps place every track the same way. |
| Init.TrackScan | src/init.rs:137-161 | The tracks kept for insertion are payload tracks, named by their index in the payload. |
| Init.StoredKeysKeepNothing | src/init.rs:137-140 | When the key of every placed track is already stored, the track pass inserts nothing. |
| Init.Committed | src/init.rs:53-168 | The committed store only appends to the stored tables, leaves batches alone, and advances the counter by exactly the number of rows added. |
| Init.InitData | src/init.rs:14-168 | All or nothing: the run fails exactly when one of the statements it issues fails (BEGIN, a SELECT, an INSERT or COMMIT), and a failure leaves the store unchanged. Success leaves exactly the committed store, performs only appends, leaves batches alone, and reports how much each table grew. |
| Init.Statements | src/init.rs:14-168 | A run issues at least five statements: BEGIN, the three SELECTs and COMMIT. |
| Init.OneInsertPerRow | src/init.rs:14-168 | Beyond those five, a run issues exactly one INSERT per row it adds to entregas, albums and tracks. |
| Init.CommittedEntregaNames | src/init.rs:60-70 | The committed entregas, as (id, name) rows, are the stored ones followed by those the natural-key run added. |
| Init.CommittedAlbumTitles | src/init.rs:89-106 | Likewise for album titles, with ids following the run's entregas. |
| Init.NewEntregaRows | src/init.rs:60-67 | The rows added for the selected payload entregas are those records, in order, under consecutive ids. |
| Init.NewAlbumRows | src/init.rs:89-103 | The rows added for the selected payload albums are those records, in order, under consecutive ids. |
| Init.NewTrackRows | src/init.rs:142-157 | The rows added for the kept tracks are those resolved records, in order, under consecutive ids. |
| Init.EntregaNamesAppend | src/init.rs:27-34 | The `(id, name)` listing of two runs of rows is the two listings one after the other. |
| Init.AlbumTitlesAppend | src/init.rs:38-45 | The `(id, title)` listing of two runs of rows is the two listings one after the other. |
| Init.NewEntregaNames | src/init.rs:60-70 | As `(id, name)` rows, the entrega rows the run adds are the ones the natural-key run adds. |
| Init.NewAlbumTitles | src/init.rs:89-106 | As `(id, title)` rows, the album rows the run adds are the ones the natural-key run adds. |
| Init.EntregaPositionResolves | src/init.rs:49-70 | Payload entrega i is recorded under position i+1, and positions 1..n are exactly the map's keys. The id belongs to a committed entrega with the same name, and an earlier payload entrega of that name has the same id. |
| Init.EntregaPositionStored | src/init.rs:53-57 | When the name is already stored, the position maps to a stored entrega of that name, and under distinct names to the one such entrega. |
| Init.AlbumPositionResolves | src/init.rs:78-106 | The `EntregaPositionResolves` result for albums and titles. |
| Init.AlbumPositionStored | src/init.rs:82-86 | The `EntregaPositionStored` result for albums and titles. |
| Init.EntregaInsertedIffNew | src/init.rs:53-57 | An entrega is inserted exactly when its name is new to the store and to the payload before it. |
| Init.NewEntregasAsGiven | src/init.rs:60-67 | Each added entrega is a payload record stored as given, with `batchId` not remapped, under consecutive fresh ids. |
| Init.AlbumInsertedIffNew | src/init.rs:82-86 | An album is inserted exactly when its title is new to the store and to the payload before it. |
| Init.NewAlbumsAsGiven | src/init.rs:89-103 | Each added album is a payload record stored as given, with `artistId` not remapped, under the next fresh ids. |
| Init.TrackReferencesResolve | src/init.rs:127-134 | A track's entrega/album reference is present after resolution exactly when it was present and within 1..n, and it is then that position's id. Other fields are unchanged. |
| Init.PlacedEntregaRef | src/init.rs:127-130 | A resolved entrega reference comes from a payload reference with a position, and is that position's id. |
| Init.PlacedAlbumRef | src/init.rs:131-134 | A resolved album reference comes from a payload reference with a position, and is that position's id. |
| Init.TrackEntregaIsNamed | src/init.rs:127-130 | A resolved entrega reference is the id of a committed entrega named like the referenced payload entrega. |
| Init.TrackAlbumIsNamed | src/init.rs:131-134 | A resolved album reference is the id of a committed album titled like the referenced payload album. |
| Init.TrackInsertedIffNew | src/init.rs:137-140 | A track is inserted exactly when its resolved key is neither stored nor carried by an earlier payload track. |
| Init.NewTracksArePlaced | src/init.rs:142-157 | Each added track is a kept, resolved payload track under the next fresh ids. |
| Init.KeptRowKeysAreNew | src/init.rs:137-157 | The rows built for the kept tracks carry keys that were not seen and that differ pairwise. |
| Init.NewTrackKeysAreNew | src/init.rs:113-160 | No added track shares its key with a stored track or with another added track. |
| Init.KeptKeysStored | src/init.rs:137-160 | Appending the kept tracks' rows stores the key of every track the fold walked. |
| Init.SeenTrackKeysStored | src/init.rs:113-160 | After the run, every resolved payload track key is among the stored track keys. |
| Init.NamesStayDistinct | src/init.rs:53-106 | Pairwise distinct entrega names and album titles stay pairwise distinct. |
| Init.RerunEntregasQuiet | src/init.rs:53-57 | A second run inserts no entrega and resolves every entrega position as the first did. |
| Init.RerunAlbumsQuiet | src/init.rs:82-86 | A second run inserts no album and resolves every album position as the first did. |
| Init.RerunTracksQuiet | src/init.rs:137-140 | With the position maps reproduced, a second run inserts no track. |
| Init.InitDataIdempotent | src/init.rs:4-6 | With distinct stored names and titles, a second run with the same payload succeeds, creates nothing and leaves the store unchanged. |
| Init.AppendsKeepValid | src/init.rs:60-157 | Appending entregas, albums and tracks under consecutive fresh ids, in that order, keeps a valid store valid. |
| Init.CommittedKeepsValid | src/init.rs:53-168 | The committed store keeps every id unique within its table and below the counter. |
| Init.InitDataKeepsValid | src/init.rs:14-168 | A run keeps every id unique within its table and below the counter. |
| Import.AlbumRows | src/routes.rs:369-387 | The appended albums are the payload albums, in order, under consecutive ids. |
| Import.TrackRows | src/routes.rs:389-408 | The appended tracks are the payload tracks, in order, under consecutive ids. |
| Import.BatchRows | src/routes.rs:410-419 | The appended batches are the payload batches, in order, under consecutive ids. |
| Import.EntregaRows | src/routes.rs:421-431 | The appended entregas are the payload entregas, in order, under consecutive ids. |
| Import.Appended | src/routes.rs:369-431 | The committed import only appends: each table grows by its payload sequence, and the counter advances by the payload size. |
| Import.ImportJson | src/routes.rs:359-438 | All or nothing. The import fails exactly when BEGIN, one of its INSERTs or COMMIT fails, and then answers 500 with the store unchanged. Success answers 200 `{"status":"ok"}` and advances the counter by the payload size. |
| Import.Statements | src/routes.rs:363-435 | An import issues at least two statements, BEGIN and COMMIT. |
| Import.OneInsertPerRecord | src/routes.rs:363-435 | Beyond BEGIN and COMMIT, an import issues exactly one INSERT per row it adds to albums, tracks, batches and entregas. |
| Import.ImportAppendsVerbatim | src/routes.rs:369-431 | Each table grows by exactly its payload sequence, in order, field for field. Track `albumId`/`entregaId` are stored as given, and stored rows are untouched. |
| Import.ImportKeepsValid | src/routes.rs:363-435 | An import keeps ids unique and below the counter. |
| Import.ImportTwiceDuplicates | src/routes.rs:369-431 | Importing a payload twice stores every record twice. |
| Import.ImportOneEntregaTwice | src/routes.rs:421-431 | Importing one entrega twice into an empty store leaves two entregas of that name. |
| Import.SeedOneEntregaTwice | src/init.rs:53-67 | Seeding one entrega twice into an empty store leaves one entrega of that name. |
| Import.ImportDuplicatesWhereSeedingDoesNot | src/routes.rs:421-431 | On one entrega, importing twice leaves two rows of that name, while seeding twice leaves one. |
| Crud.AppendThenReadBack | src/routes.rs:121-143 | After a row is appended under the counter's id, the old rows are a prefix, a valid table stays valid, and a read-back with no fault returns the appended row. |
| Crud.ReadBack | src/routes.rs:137-145 | The read-back succeeds exactly when no fault hits it and a row has the id. It then returns such a row with the handler's status; otherwise it answers 500. |
| Crud.CreateAlbum | src/routes.rs:117-146 | A failed INSERT changes nothing. Otherwise one album with the input's fields and the fresh id is appended and nothing else changes. On a valid store the reply is 201 with that row. The store stays valid. |
| Crud.UpdateAlbum | src/routes.rs:148-183 | No row with the id: 404, store unchanged. Otherwise every row with the id takes the input's fields, the others are unchanged, and the reply is 200 with the updated row. The store stays valid. |
| Crud.CreateTrack | src/routes.rs:185-215 | As `CreateAlbum`, for tracks. |
| Crud.UpdateTrack | src/routes.rs:217-253 | As `UpdateAlbum`, for tracks. |
| Crud.CreateBatch | src/routes.rs:255-275 | As `CreateAlbum`, for batches. |
| Crud.UpdateBatch | src/routes.rs:277-302 | As `UpdateAlbum`, for batches. |
| Crud.CreateEntrega | src/routes.rs:304-327 | As `CreateAlbum`, for entregas. |
| Crud.UpdateEntrega | src/routes.rs:329-357 | As `UpdateAlbum`, for entregas. |
| Crud.UpdateAlbumIdempotent | src/routes.rs:148-183 | Sending the same update twice leaves the store as one update does. |
| Crud.UpdateTrackIdempotent | src/routes.rs:217-253 | The same, for tracks. |
| Crud.UpdateBatchIdempotent | src/routes.rs:277-302 | The same, for batches. |
| Crud.UpdateEntregaIdempotent | src/routes.rs:329-357 | The same, for entregas. |
| Paths.Split | src/routes.rs:603 | A name always splits into at least one component. |
| Paths.SplitHasNoSeparator | src/routes.rs:603 | No component of a split name contains a separator. |
| Paths.SplitWithoutSeparator | src/routes.rs:603 | A name without separators is a single component. |
| Paths.ResolveStaysBelow | src/routes.rs:603 | Without a `..` component, resolution only goes down from its starting directory. |
| Paths.Join | src/routes.rs:603 | A name that does not start with a separator and has no `..` component designates a path inside the directory. A name that starts with a separator is resolved from the root. |
| Paths.PlainNameIsChild | src/routes.rs:603 | A plain component joined onto a directory names that directory's own child. |
| Paths.SplitParentOf | src/routes.rs:603 | `../x` splits into `..` and `x`. |
| Paths.ParentComponentEscapes | src/routes.rs:603 | `../x` joined onto a directory `dir` names the sibling `x` in the parent, never the child `dir + [x]`. |
| Lex.LeReflexive | src/routes.rs:580 | The name order is reflexive. |
| Lex.LeTotal | src/routes.rs:580 | The name order is total. |
| Lex.LeTransitive | src/routes.rs:580 | The name order is transitive. |
| Lex.LeAntisymmetric | src/routes.rs:580 | The name order is antisymmetric. |
| Lex.ConsSorted | src/routes.rs:580 | A name no later than every element of a sorted sequence can go first. |
| Lex.BoundsRearrangement | src/routes.rs:580 | A lower bound of a sequence and of one more name bounds every rearrangement of them. |
| Lex.HeadIsLeast | src/routes.rs:580 | The first name of a sorted sequence sorts no later than any of its names. |
| Lex.TailMultiset | src/routes.rs:580 | Dropping the first name removes exactly one copy of it. |
| Lex.Insert | src/routes.rs:580 | Insertion adds exactly one copy of the name and keeps a sorted sequence sorted. |
| Lex.Sort | src/routes.rs:580 | The result is sorted and a permutation of the input. |
| Lex.SortedIsUnique | src/routes.rs:580 | Two sorted permutations of the same names are equal, so the sort's output is determined. |
| Articles.IsSafeMarkdownName | src/routes.rs:617-619 | A name that passes the guard is a plain path component: non-empty, not `.` or `..`, and free of separators. |
| Articles.Page | src/routes.rs:608-612 | The page opens with the heading holding the name as it is, unescaped, and ends with the escaped content inside `<pre>`, with a fixed 55 characters of markup around the two. |
| Articles.GuardExamples | src/routes.rs:617-619 | The guard refuses `../secret.md` and `notes.txt` and accepts `real.md`. |
| Articles.ViewArticle | src/routes.rs:595-615 | An unsafe name gets 400 with no file opened. A safe name opens exactly one path, the directory's own child. It answers 404 exactly when that file cannot be read, and otherwise the page with the escaped content. |
| Articles.ViewExamples | src/routes.rs:599-606 | `../secret.md` and `notes.txt` get 400 before any access, and an existing `real.md` is served escaped. |
| Articles.LastDot | src/routes.rs:572 | Absent exactly when there is no dot; otherwise the index of a dot with no dot after it. |
| Articles.Extension | src/routes.rs:572 | There is no extension exactly when the name is `..` or has no dot after its first character. An extension has no dot, is the name's tail after a dot, and leaves a non-empty stem. |
| Articles.MdExtensionEndsWithMd | src/routes.rs:572 | A name with extension `md` ends with `.md`. |
| Articles.SafeNameHasMdExtension | src/routes.rs:572 | Every name the guard accepts, except `.md` itself, has extension `md`. |
| Articles.ListingAndGuardDisagree | src/routes.rs:572 | `notes..md` has extension `md` but fails the guard, while `.md` passes the guard but has no extension. |
| Articles.MarkdownNames | src/routes.rs:566-577 | A name is kept exactly when it is a Unicode entry name with extension `md`. |
| Articles.ListArticles | src/routes.rs:560-593 | A failed directory read answers 500. Otherwise the result is sorted and is a permutation of the markdown entry names. |
| Articles.ListedIffMarkdown | src/routes.rs:572-580 | A name is listed exactly when the directory has an entry of that name with extension `md`. |

## Left out

- SQL text, the connection pool and migrations (src/db.rs). They are replaced by the abstract store and its id counter.
- Concurrency and transaction isolation, including races between imports on one name.
- 64-bit integer width of ids, years, durations and payload positions. All are unbounded integers; the service never gets near the bound.
- The order of unordered `SELECT`s. The stored-name index is built in store order with the last row winning. The properties are stated for "a row with that name", or under distinct names where only that pins the id down.
- The `bpm` floating-point column. It is carried as an opaque 64-bit pattern because nothing computes on it.
- Reading and parsing `init_data.json`, and JSON (de)serialisation in general. The reconciler starts from a parsed payload.
- The progress output of `init_data` and its counters beyond what `Counts` reports.
- File system I/O. The article directory listing and the file contents are parameters. Any read failure of `list_articles` becomes one failure of the whole listing.
- `html_escape::encode_text` is a function parameter of `ViewArticle`. `urlencoding::encode` and the HTML text of the listing are not modelled.
- Path resolution is the generic one of `Paths`: it splits at both `/` and `\`. Platform specifics such as drive prefixes and symbolic links are not modelled.
- HTTP routing, the `home`, `health` and `admin_page` pages, the GET listings, the form handlers (the same INSERTs answered with a redirect), and the `Artist` record, which no modelled operation touches.
- The startup sequence in src/main.rs, including `ensure_articles_dir`.
- Ids after a rollback and per-table id sequences. A failed transaction leaves the model's counter where it was, but the service runs on PostgreSQL (src/db.rs), where a rolled-back INSERT does not give its sequence value back. One shared counter also stands for the four per-table id sequences, so model ids are unique across tables, which the service does not guarantee. No proved property depends on either point, because every id claim is stated relative to the counter at the start of the operation.
- Crud.CreateAlbum, Crud.CreateTrack, Crud.CreateBatch, Crud.CreateEntrega: the reply is pinned to the new row only on a valid store, because on a store whose ids are not unique the read-back may find an older row.
