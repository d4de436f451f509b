# TMDB batch ingestion: the per-id fetch, transform and load step

This project models the core of a batch job that copies TV-show and movie
metadata from the TMDB catalog API into a MySQL schema. It covers the two
services `fetchAndStoreTVShowDetails(startId, endId)` and
`fetchAndStoreMovieDetails(startId, endId)`. Each one scans an inclusive id
range. For each id it:

- requests the detail record, with credits and videos appended;
- turns the record into a main row (`tvshows` or `movies`);
- issues one write per genre, genre join, actor, actor join and video;
- catches any error for that id and moves on to the next id.

The model is pure and functional:

- **Network.** The network is an oracle `fetch: int -> Response<P>`, whose
  answer is `NotFound`, `RequestError(message)` or `Found(payload)`.
- **Database.** The database is a value `Store` with nine tables. Entity
  tables are maps, join tables are sets of id pairs, and `videos` is a
  sequence.
- **Refused writes.** A second oracle, `rejected: Stmt -> bool`, names the
  writes the database refuses for reasons the code cannot see, such as a
  lost connection or a column limit.
- **Records.** A fetched record becomes a `Plan`. A plan holds the ordered
  write statements the JavaScript issues, then the `TypeError` it throws
  afterwards, if any. `TypeError`s come from reading an absent `genres`,
  `credits.cast`, `videos.results` or `credits.crew`, and, for movies, from
  the profile path of a Director that does not exist.
- **Failure.** There is no transaction. The first failing write ends the
  record, and every row written before it stays.

Modules:

- `Images`: the CDN prefix. It gives the guarded URL `path ? base + path : null`
  and the movie service's unguarded `base + path`.
- `Store`: the tables and the semantics of one `connection.execute`.
  Entity rows use a plain `INSERT`. Genres, actors and joins use
  `INSERT … ON DUPLICATE KEY UPDATE x = x`. `videos` has no key.
- `Execution`: running a statement sequence until the first failure.
- `Records`: the genres, cast and videos loops shared by both services.
- `Ingest`: the per-id `try`/`catch` (`Step`) and the range loop (`Scan`
  as a fold, `RunScan` as the loop). Both are generic in the payload type.
- `TvShows` and `Movies`: each service's payload, main row, director
  derivation, write plan, and the properties stated about it.

Behaviour of the code worth knowing, which the model keeps as written:

- **Reruns.** The `tvshows` and `movies` writes are plain `INSERT`s, not
  upserts. Reprocessing a stored id fails at that first write with a
  duplicate key and changes nothing. The first values stay, and `videos`
  do not accumulate through reruns either. See `TvShows.RerunChangesNothing`
  and `TvShows.SecondPassIsNoOp`. Videos do duplicate within one record or
  across media: `Store.VideoAlwaysAppends`.
- **Movie director URL.** The movie flow concatenates the director's
  profile URL without a guard:
  - a Director whose `profile_path` is null gets the prefix followed by the
    text `null`;
  - a Director whose `profile_path` key is missing gets the prefix followed
    by the text `undefined`;
  - a movie with no Director at all throws before its first write and is
    never stored.

  See `Images.UnguardedImageUrl`, `Movies.RowImageUrls` and
  `Movies.NoDirectorStoresNothing`.
- **Air dates.** Air dates are not validated. Any non-empty string becomes
  `new Date(raw)` (`TvShows.AirDateOf`).
- **Write errors.** A write error ends the whole record, not just the one
  entity it belongs to.
- **Connection errors.** These are caught per id like every other error, so
  they never end the scan. The outer `dbError` catch can only see an
  exception thrown outside the per-id `try`, and nothing inside the loop
  throws one.

## Model

| member | source | states |
|---|---|---|
| Images.ImageUrl | tvshowService.js:44-46 | an image URL exists exactly when the path is non-null and non-empty; it then starts with the CDN prefix and is strictly longer than it |
| Images.ImageUrlRoundTrip | tvshowService.js:54 | removing the CDN prefix from a derived URL gives back the payload's path |
| Images.ImageUrlInjective | movieService.js:16-21 | two different truthy paths never give the same URL |
| Images.UnguardedImageUrl | movieService.js:49 | the unguarded concatenation agrees with the guarded URL on truthy paths; it gives the prefix followed by `undefined` for a missing key, the prefix followed by `null` for a null path, and the bare prefix for an empty one |
| Records.ActorRowOf | tvshowService.js:88-94 | an actor row keeps the cast member's name; its profile URL is present exactly when the path is truthy, and then the path can be recovered from it |
| Records.VideoRowOf | tvshowService.js:111-117 | a video row is owned by the media being processed and carries the payload video's key, name, site and type unchanged |
| Records.VideoRows | tvshowService.js:107-118 | one row per payload video, in payload order: row i is owned by this media and carries video i's key, name, site and type |
| Records.GenreStmts | tvshowService.js:62-78 | genre i gives the statements at positions 2i (its `genres` row) and 2i+1 (its join row); no main-row INSERT is among them |
| Records.ActorStmts | tvshowService.js:83-104 | cast member i gives the statements at positions 2i (its `actors` row) and 2i+1 (its join row); no main-row INSERT is among them |
| Records.VideoStmts | tvshowService.js:107-118 | video i gives exactly the statement at position i, an INSERT of its row for this media |
| Records.RecordPlan | tvshowService.js:62-118 | a record throws no `TypeError` exactly when `genres`, `credits.cast` and `videos.results` are all present |
| Records.RecordPlanTail | tvshowService.js:62-63 | the main-row statements come first; after them there is no main-row INSERT; an absent `genres` stops the record right after the main row |
| Records.RecordPlanReady | tvshowService.js:62-118 | when the main row is written first, every join and video row of the record is written after the rows it refers to |
| Records.RecordPlanComplete | movieService.js:53-101 | a fault-free record issues a row and a join for every genre and every cast member, and exactly the payload's videos, in order |
| Records.BlocksVideos | movieService.js:89-101 | of the whole record, only the videos loop appends to `videos`, and it appends the payload's video rows in order |
| Records.RecordPlanStores | tvshowService.js:41-118 | once every statement of a fault-free record took effect, its main row, genre and actor rows and joins are present, and `videos` grew by exactly its video rows |
| Store.Apply | tvshowService.js:34-41 | a write fails exactly on a taken main-row key or a refusal; on success no row is lost or changed, the written fact holds, exactly the rows it provides become present, and at most its one video is appended |
| Store.ApplyKeepsReferential | tvshowService.js:71-77 | a successful write keeps every join and video row pointing at existing rows, when the rows the new row refers to exist |
| Store.InsertNeverOverwrites | tvshowService.js:34-41 | inserting a `tvshows` or `movies` id that exists fails with a duplicate-key error |
| Store.InsertAddsOneRow | tvshowService.js:34-41 | a main-row INSERT of a free id adds exactly that row with its values and changes no other table |
| Store.LinkGenreAddsOnePair | tvshowService.js:71-77 | a genre join write adds exactly its (media id, genre id) pair to the join table of the media's kind and changes no other table |
| Store.LinkActorAddsOnePair | tvshowService.js:97-103 | an actor join write adds exactly its (media id, actor id) pair to the join table of the media's kind and changes no other table |
| Store.ExistingRowChangesNothing | tvshowService.js:65-103 | on any store, a genre, actor or join write whose row already exists succeeds and changes nothing |
| Store.UpsertGenreKeepsExisting | tvshowService.js:65-68 | a genre upsert adds a missing id with its name, keeps an existing id's name, and touches no other table |
| Store.UpsertActorKeepsExisting | tvshowService.js:85-94 | an actor upsert adds a missing id with its row, keeps an existing id's row, and touches no other table |
| Store.UpsertIsIdempotent | tvshowService.js:65-103 | once a genre, actor or join write succeeded, repeating it succeeds and changes nothing |
| Store.VideoAlwaysAppends | tvshowService.js:109-117 | a video INSERT always appends one row, so an identical row already stored is duplicated |
| Execution.Execute | tvshowService.js:41-118 | a run stops at the first failing statement and reports that statement's error; it completes only when no statement fails; the store only grows, and it gains exactly the videos of the statements that ran |
| Execution.ExecuteKeepsPrefix | tvshowService.js:12-121 | a failed run leaves exactly the store of running only the statements before the failure |
| Execution.ExecuteHoldsAll | tvshowService.js:41-118 | every statement that ran before a failure still has its effect in the final store |
| Execution.ExecuteKeepsReferential | tvshowService.js:68-77 | statements issued in write order never create a join or video row whose target is missing |
| Execution.ExecuteCompletesIff | tvshowService.js:34-118 | a run whose only main-row INSERT is first completes if and only if that id is new and no statement is refused |
| Ingest.Load | tvshowService.js:41-121 | the rows of the statements that ran stay whatever ends the record; a refused write is the error reported, ahead of any later `TypeError`; the record counts as stored exactly when every statement ran and nothing was thrown, and is never reported as not found |
| Ingest.Step | tvshowService.js:12-127 | a 404 leaves the store unchanged and is the only outcome reported as not found; any other request error leaves the store unchanged and carries its message |
| Ingest.StepGrows | tvshowService.js:12-127 | processing one id never deletes or changes a row and only appends videos |
| Ingest.StepKeepsEarlierWrites | tvshowService.js:121-127 | after an error, the rows written for the id before it stay, and the store is that of the writes before the failing one |
| Ingest.StoredHoldsAll | tvshowService.js:41-120 | a record that ends without error had no `TypeError`, every statement of it took effect, and it appended exactly its videos |
| Ingest.StepWritesOnlyAfterFirst | tvshowService.js:34-41 | an id changes the store only if the detail was found and its first write succeeded |
| Ingest.StepKeepsReferential | tvshowService.js:12-127 | one id keeps referential integrity when every plan is in write order |
| Ingest.Scan | tvshowService.js:11 | the range loop processes every id from `startId` to `endId` exactly once, in ascending order; an empty range does nothing |
| Ingest.ScanGrows | tvshowService.js:11-128 | a whole scan never deletes or changes a row and only appends videos |
| Ingest.ScanAt | tvshowService.js:11-128 | the id at position i is handled on exactly the store the ids before it left |
| Ingest.ScanThreadsStore | tvshowService.js:121-128 | per-id failure isolation: every id is handled on the store the earlier ids left, whatever their errors, and the scan ends on the store all of them left |
| Ingest.ScanEndStore | movieService.js:9-109 | the scan's final store is the store after processing every id of the range in order |
| Ingest.ScanKeepsReferential | tvshowService.js:11-128 | a scan whose plans are all in write order keeps referential integrity |
| Ingest.RunScan | movieService.js:9-109 | the counting loop with its per-id catch computes the same store and outcomes as the fold |
| TvShows.DirectorOf | tvshowService.js:17-25 | the director is named exactly when `created_by` is present and non-empty, and is its first entry, with a guarded profile URL; without one both columns are null |
| TvShows.AirDateOf | tvshowService.js:27-32 | an air date is null exactly when the raw string is falsy, and otherwise keeps that string |
| TvShows.Row | tvshowService.js:41-60 | each scalar column of the `tvshows` row is the payload field unchanged; the image columns are the guarded URLs, the dates go through the falsy test, and the director columns come from the first creator |
| TvShows.RowImageUrls | tvshowService.js:41-60 | the backdrop, poster and director image columns are null exactly when their paths are falsy, and the backdrop and poster paths can be recovered from their URLs |
| TvShows.PlanFor | tvshowService.js:34-118 | the `tvshows` INSERT is the first write and the only main-row INSERT; the record throws no `TypeError` exactly when all three arrays are present |
| TvShows.PlanIsWriteOrdered | tvshowService.js:62-118 | every join and video row of a TV show is written after the rows it refers to |
| TvShows.FetchAndStore | tvshowService.js:7-134 | the service processes each id of the range once, in order; no row is deleted or overwritten; referential integrity is kept |
| TvShows.RerunChangesNothing | tvshowService.js:34-41 | reprocessing an id whose `tvshows` row exists fails at that INSERT with a duplicate key and changes no table |
| TvShows.SecondPassIsNoOp | tvshowService.js:34-118 | processing a stored id a second time leaves the store exactly as the first pass left it, so videos do not accumulate |
| TvShows.StoredRecordIsComplete | tvshowService.js:41-120 | a TV show stored without error has its row, a row and join for each genre and cast member, and exactly its videos appended |
| TvShows.StoredIff | tvshowService.js:34-120 | a TV show is stored without error exactly when all three arrays are present, its id is new and no write is refused |
| TvShows.MissingCreditsKeepsEarlierRows | tvshowService.js:62-82 | with `credits` absent the id ends in a `TypeError`, but the `tvshows` row, the genre rows and the genre joins written before it stay |
| Movies.FirstDirectorFrom | movieService.js:23-25 | the search finds the first crew member at or after the start position whose job is exactly `Director`, or reports that none exists |
| Movies.FirstDirector | movieService.js:23-25 | `find` returns the first crew member whose job is exactly `Director`, and nothing exactly when no one has that job |
| Movies.DirectorIn | movieService.js:23-25 | a payload has a director exactly when `credits.crew` is present and one of its members is a Director; the director is the first crew member whose job is `Director` |
| Movies.Row | movieService.js:31-50 | each scalar column of the `movies` row is the payload field unchanged, `release_date` included; backdrop and poster are guarded URLs, the director name is the Director's name, and the director URL is the unguarded concatenation |
| Movies.RowImageUrls | movieService.js:16-50 | backdrop and poster are null exactly when their paths are falsy and are recoverable otherwise; the director URL is never null: a null profile path gives the prefix followed by `null`, a missing key the prefix followed by `undefined` |
| Movies.PlanFor | movieService.js:23-101 | without a Director nothing is written and a `TypeError` is thrown; otherwise the `movies` INSERT is first and the only main-row INSERT; no `TypeError` exactly when there is a Director and all three arrays are present |
| Movies.PlanIsWriteOrdered | movieService.js:28-101 | every join and video row of a movie is written after the rows it refers to |
| Movies.FetchAndStore | movieService.js:6-115 | the service processes each id of the range once, in order; no row is deleted or overwritten; referential integrity is kept |
| Movies.NoDirectorStoresNothing | movieService.js:23-49 | a movie whose crew has no Director ends in a `TypeError` and adds nothing to any table |
| Movies.RerunChangesNothing | movieService.js:28-50 | reprocessing an id whose `movies` row exists ends in an error and changes no table |
| Movies.SecondPassIsNoOp | movieService.js:28-101 | processing a stored id a second time leaves the store exactly as the first pass left it |
| Movies.StoredRecordIsComplete | movieService.js:31-101 | a movie stored without error has its row with its first Director, a row and join for each genre and cast member, and exactly its videos appended |
| Movies.StoredIff | movieService.js:23-101 | a movie is stored without error exactly when it has a Director and all three arrays, its id is new, and no write is refused |
| Movies.MissingGenresKeepsMovieRow | movieService.js:31-54 | with `genres` absent the id ends in a `TypeError` after the `movies` row was written, and the store is the old one plus exactly that row |

## Left out

- Logging: `logger.info` and `logger.error` calls, the TV service's log lines and the difference between the 404 and other-error messages, and the movie service's commented-out logging. The per-id outcome (`Absent` or `Error`) keeps the distinction the catch makes.
- The request URL, the API key and the `language=ko-KR` parameter. They only shape the request, and `fetch` stands for the whole round trip.
- The connection itself: opening it (database.js) and `connection.end()` in the `finally` block. Both are I/O. A lost connection shows up only as refused writes through `rejected`.
- The outer `dbError` catch. Nothing in the loop can throw past the per-id catch, so that catch is never reached.
- index.js, which only calls the two services over the range 1 to 200000, one after the other.
- Parsing by `new Date`. A truthy date string is kept as an opaque value: the code does not check that it is a valid date, and what MySQL does with an invalid one is outside the code.
- Floating-point fields (`popularity`, `vote_average`). They are carried as opaque values and never computed with.
- Scalar payload fields (`name`, `adult`, and the rest) are assumed present. An absent one would be bound as `undefined`, which the MySQL driver refuses. That behaviour belongs to the driver and is not modelled.
- Watch providers and the year-paginated discovery of the wider system. Neither is part of the two services modelled here.
- Foreign keys are not assumed in the schema. Referential integrity is proved from the write order instead.
- `rejected` is a fixed per-statement oracle. A database that refuses the same statement on one attempt and accepts it on another is not modelled.
- Ingest.Step: for a found record its contract states only the shape of the result (`Absent` only for a 404, a `Grows` store through `Ingest.StepGrows`). What the record writes is stated by `Ingest.StepKeepsEarlierWrites`, `Ingest.StoredHoldsAll` and the per-service lemmas instead of in `Step`'s own ensures.
- Movies.RerunChangesNothing: states only that the outcome is an error, not which error. The error is a duplicate key when a Director exists and a `TypeError` otherwise, because the Director lookup throws before the INSERT.
- Store.Apply: its own contract does not say which join table a join write changes or which value a main-row INSERT stores. `Store.InsertAddsOneRow`, `Store.LinkGenreAddsOnePair`, `Store.LinkActorAddsOnePair`, `Store.ExistingRowChangesNothing` and `Store.VideoAlwaysAppends` state the exact result of each kind of write.
- Ingest.Scan: ids and range bounds are integers. In JavaScript they are double-precision Numbers: `id++` stops changing at 2^53, so a range reaching 2^53 never ends, and fractional bounds also iterate. The model assumes integer ids below 2^53, which covers the range index.js uses.
- Ingest.RunScan: the same assumption as `Ingest.Scan`, since it terminates on every integer range.
- Payload strings that the code only tests for truthiness (image paths, air dates) are `Option<string>`, with `None` for both a missing key and `null`, because the code treats the two alike there. Only the movie director's `profile_path`, which is concatenated without a test, tells the two apart.
