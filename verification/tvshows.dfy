/** `fetchAndStoreTVShowDetails` of tvshowService.js: the TV-show payload, its
    transform into a `tvshows` row and write statements, and the range scan. */
module TvShows {
  import opened Wrappers
  import opened Images
  import opened Store
  import opened Execution
  import opened Records
  import opened Ingest

  /** An element of the payload's `created_by` array. */
  datatype Creator = Creator(name: string, profilePath: Option<string>)

  /** The fields of the TV detail response that the service reads. An absent
      `credits` or `credits.cast` is `cast == None`; an absent `videos` or
      `videos.results` is `videos == None`. */
  datatype TvPayload = TvPayload(
    id: int,
    adult: bool,
    backdropPath: Option<string>,
    firstAirDate: Option<string>,
    lastAirDate: Option<string>,
    name: string,
    numberOfEpisodes: int,
    numberOfSeasons: int,
    overview: string,
    popularity: real,
    posterPath: Option<string>,
    showType: string,
    voteAverage: real,
    voteCount: int,
    createdBy: Option<seq<Creator>>,
    genres: Option<seq<GenreItem>>,
    cast: Option<seq<CastMember>>,
    videos: Option<seq<VideoItem>>)

  /** The director columns of a `tvshows` row. */
  datatype Director = Director(name: Option<string>, profileUrl: Option<string>)

  /** The director is the first creator, when `created_by` exists and is
      non-empty; otherwise both columns are null. Its profile URL is guarded
      like every other image URL. */
  function DirectorOf(createdBy: Option<seq<Creator>>): (d: Director)
    ensures d.name.Some? <==> createdBy.Some? && |createdBy.value| > 0
    ensures d.name.Some? ==>
      d.name.value == createdBy.value[0].name && d.profileUrl == ImageUrl(createdBy.value[0].profilePath)
    ensures d.name.None? ==> d.profileUrl.None?
  {
    if createdBy.Some? && |createdBy.value| > 0 then
      var first := createdBy.value[0];
      Director(Some(first.name), ImageUrl(first.profilePath))
    else
      Director(None, None)
  }

  /** `raw ? new Date(raw) : null`: a falsy date is null, any other string is
      kept, unvalidated. */
  function AirDateOf(raw: Option<string>): (d: AirDate)
    ensures d.NoDate? <==> !Truthy(raw)
    ensures d.DateOf? ==> d.raw == raw.value
  {
    if Truthy(raw) then DateOf(raw.value) else NoDate
  }

  /** The `tvshows` row of a payload. */
  function Row(p: TvPayload): (row: TvShowRow)
    ensures && row.adult == p.adult && row.name == p.name
            && row.numberOfEpisodes == p.numberOfEpisodes && row.numberOfSeasons == p.numberOfSeasons
            && row.overview == p.overview && row.popularity == p.popularity
            && row.showType == p.showType && row.voteAverage == p.voteAverage
            && row.voteCount == p.voteCount
    ensures row.backdropUrl == ImageUrl(p.backdropPath) && row.posterUrl == ImageUrl(p.posterPath)
    ensures row.firstAirDate == AirDateOf(p.firstAirDate) && row.lastAirDate == AirDateOf(p.lastAirDate)
    ensures row.directorName == DirectorOf(p.createdBy).name
    ensures row.directorProfileUrl == DirectorOf(p.createdBy).profileUrl
  {
    var director := DirectorOf(p.createdBy);
    TvShowRow(
      p.adult, ImageUrl(p.backdropPath), AirDateOf(p.firstAirDate), AirDateOf(p.lastAirDate),
      p.name, p.numberOfEpisodes, p.numberOfSeasons, p.overview, p.popularity,
      ImageUrl(p.posterPath), p.showType, p.voteAverage, p.voteCount,
      director.name, director.profileUrl)
  }

  /** The image columns of a `tvshows` row are null exactly when the path is
      falsy, and otherwise the CDN prefix followed by exactly that path. */
  lemma RowImageUrls(p: TvPayload)
    ensures var row := Row(p);
      && (row.backdropUrl.Some? <==> Truthy(p.backdropPath))
      && (row.posterUrl.Some? <==> Truthy(p.posterPath))
      && (row.directorProfileUrl.Some? <==>
            p.createdBy.Some? && |p.createdBy.value| > 0 && Truthy(p.createdBy.value[0].profilePath))
      && (Truthy(p.backdropPath) ==> StripBase(row.backdropUrl.value) == p.backdropPath.value)
      && (Truthy(p.posterPath) ==> StripBase(row.posterUrl.value) == p.posterPath.value)
  {
    if Truthy(p.backdropPath) {
      ImageUrlRoundTrip(p.backdropPath);
    }
    if Truthy(p.posterPath) {
      ImageUrlRoundTrip(p.posterPath);
    }
  }

  /** The write statements for one payload: the `tvshows` INSERT, then the
      genres, cast and videos loops. */
  function PlanFor(p: TvPayload): (plan: Plan)
    ensures |plan.stmts| >= 1 && plan.stmts[0] == InsertTvShow(p.id, Row(p))
    ensures forall i :: 1 <= i < |plan.stmts| ==> !PlainInsert(plan.stmts[i])
    ensures plan.fault.None? <==> p.genres.Some? && p.cast.Some? && p.videos.Some?
  {
    var head := [InsertTvShow(p.id, Row(p))];
    RecordPlanTail(head, TvShow(p.id), p.genres, p.cast, p.videos);
    RecordPlan(head, TvShow(p.id), p.genres, p.cast, p.videos)
  }

  /** Within one id, the `tvshows` row is written before any other row, and
      each genre, actor and video row after the rows it refers to. */
  lemma PlanIsWriteOrdered(p: TvPayload)
    ensures WriteOrdered(PlanFor(p))
  {
    var head := [InsertTvShow(p.id, Row(p))];
    assert head[1..] == [];
    assert ProvidesAll(head) == {TvShowKey(p.id)};
    RecordPlanReady(head, TvShow(p.id), p.genres, p.cast, p.videos);
  }

  lemma AllPlansWriteOrdered()
    ensures forall p :: WriteOrdered(PlanFor(p))
  {
    forall p: TvPayload
      ensures WriteOrdered(PlanFor(p))
    {
      PlanIsWriteOrdered(p);
    }
  }

  /** `fetchAndStoreTVShowDetails(startId, endId)`: every id of the inclusive
      range is processed once, in ascending order, an exception for one id
      never stops the scan, no row is ever deleted or overwritten, and joins
      and videos never refer to a missing row. */
  function FetchAndStore(fetch: int -> Response<TvPayload>, rejected: Stmt -> bool,
                         startId: int, endId: int, s: Store): (r: ScanResult)
    ensures |r.processed| == if startId <= endId then endId - startId + 1 else 0
    ensures forall i :: 0 <= i < |r.processed| ==> r.processed[i].id == startId + i
    ensures startId > endId ==> r.store == s
    ensures Grows(s, r.store)
    ensures Referential(s) ==> Referential(r.store)
  {
    AllPlansWriteOrdered();
    ScanKeepsReferential(fetch, PlanFor, rejected, startId, endId, s);
    ScanGrows(fetch, PlanFor, rejected, startId, endId, s);
    Scan(fetch, PlanFor, rejected, startId, endId, s)
  }

  /** A plain INSERT, not an upsert: reprocessing an id whose `tvshows` row
      exists fails at that first write and changes no table. */
  lemma RerunChangesNothing(fetch: int -> Response<TvPayload>, rejected: Stmt -> bool, id: int, s: Store)
    requires fetch(id).Found? && fetch(id).payload.id in s.tvshows
    ensures var p := fetch(id).payload;
      Step(fetch, PlanFor, rejected, id, s)
        == StepResult(s, Error(DuplicateKey(InsertTvShow(p.id, Row(p)))))
  {
    var p := fetch(id).payload;
    var ss := PlanFor(p).stmts;
    assert Apply(ss[0], s, rejected) == Err(DuplicateKey(InsertTvShow(p.id, Row(p))));
  }

  /** Processing the same id twice in a row after it was stored leaves the
      store exactly as the first pass left it: the second pass fails at the
      `tvshows` INSERT, so videos do not accumulate either. */
  lemma SecondPassIsNoOp(fetch: int -> Response<TvPayload>, rejected: Stmt -> bool, id: int, s: Store)
    requires Step(fetch, PlanFor, rejected, id, s).outcome.Stored?
    ensures var s1 := Step(fetch, PlanFor, rejected, id, s).store;
      Step(fetch, PlanFor, rejected, id, s1).store == s1
  {
    StoredHoldsAll(fetch, PlanFor, rejected, id, s);
    var p := fetch(id).payload;
    var s1 := Step(fetch, PlanFor, rejected, id, s).store;
    assert InsertTvShow(p.id, Row(p)) in PlanFor(p).stmts;
    RerunChangesNothing(fetch, rejected, id, s1);
  }

  /** A stored TV show has its row, a row and a join row for each of its
      genres and cast members, and one newly appended video row per payload
      video, even where an identical video row existed before. */
  lemma StoredRecordIsComplete(fetch: int -> Response<TvPayload>, rejected: Stmt -> bool, id: int, s: Store)
    requires Step(fetch, PlanFor, rejected, id, s).outcome.Stored?
    ensures fetch(id).Found?
    ensures var p := fetch(id).payload;
      var t := Step(fetch, PlanFor, rejected, id, s).store;
      && p.genres.Some? && p.cast.Some? && p.videos.Some?
      && p.id in t.tvshows && t.tvshows[p.id] == Row(p)
      && (forall g :: g in p.genres.value ==> g.id in t.genres && (p.id, g.id) in t.tvshowGenre)
      && (forall c :: c in p.cast.value ==> c.id in t.actors && (p.id, c.id) in t.tvshowActor)
      && t.videos == s.videos + VideoRows(TvShow(p.id), p.videos.value)
  {
    StoredHoldsAll(fetch, PlanFor, rejected, id, s);
    var p := fetch(id).payload;
    CompleteFromHolds(p, s, Step(fetch, PlanFor, rejected, id, s).store);
  }

  lemma CompleteFromHolds(p: TvPayload, s: Store, t: Store)
    requires p.genres.Some? && p.cast.Some? && p.videos.Some?
    requires forall st :: st in PlanFor(p).stmts ==> Holds(st, t)
    requires t.videos == s.videos + VideosOf(PlanFor(p).stmts)
    ensures p.id in t.tvshows && t.tvshows[p.id] == Row(p)
    ensures forall g :: g in p.genres.value ==> g.id in t.genres && (p.id, g.id) in t.tvshowGenre
    ensures forall c :: c in p.cast.value ==> c.id in t.actors && (p.id, c.id) in t.tvshowActor
    ensures t.videos == s.videos + VideoRows(TvShow(p.id), p.videos.value)
  {
    var head := [InsertTvShow(p.id, Row(p))];
    assert PlanFor(p) == RecordPlan(head, TvShow(p.id), p.genres, p.cast, p.videos);
    assert VideosOf(head) == [] by { assert head[1..] == []; }
    RecordPlanStores(head, TvShow(p.id), p.genres.value, p.cast.value, p.videos.value, s, t);
    assert Holds(head[0], t);
  }

  /** A TV show is stored in full exactly when its payload has all three
      arrays, its id is new, and the database accepts every statement. */
  lemma StoredIff(fetch: int -> Response<TvPayload>, rejected: Stmt -> bool, id: int, s: Store)
    requires fetch(id).Found?
    ensures var p := fetch(id).payload;
      var ss := PlanFor(p).stmts;
      var stored := Step(fetch, PlanFor, rejected, id, s).outcome.Stored?;
      stored <==> (&& p.genres.Some? && p.cast.Some? && p.videos.Some?
                   && p.id !in s.tvshows
                   && (forall i :: 0 <= i < |ss| ==> !rejected(ss[i])))
  {
    var p := fetch(id).payload;
    ExecuteCompletesIff(PlanFor(p).stmts, s, rejected);
  }

  /** No transaction: when `credits` is missing, the TypeError comes after the
      `tvshows` row and every genre and genre join row were written, and they
      stay. */
  lemma MissingCreditsKeepsEarlierRows(fetch: int -> Response<TvPayload>, rejected: Stmt -> bool,
                                       id: int, s: Store)
    requires fetch(id).Found?
    requires var p := fetch(id).payload;
      p.genres.Some? && p.cast.None? && p.id !in s.tvshows
    requires forall st :: !rejected(st)
    ensures var p := fetch(id).payload;
      var t := Step(fetch, PlanFor, rejected, id, s);
      && t.outcome == Error(MissingField("credits.cast"))
      && p.id in t.store.tvshows && t.store.tvshows[p.id] == Row(p)
      && (forall g :: g in p.genres.value ==> g.id in t.store.genres && (p.id, g.id) in t.store.tvshowGenre)
  {
    var p := fetch(id).payload;
    var ss := PlanFor(p).stmts;
    assert Step(fetch, PlanFor, rejected, id, s) == Load(PlanFor(p), s, rejected);
    ExecuteCompletesIff(ss, s, rejected);
    ExecuteHoldsAll(ss, s, rejected);
    GenresHold(p, Step(fetch, PlanFor, rejected, id, s).store);
  }

  lemma GenresHold(p: TvPayload, t: Store)
    requires p.genres.Some? && p.cast.None?
    requires forall i :: 0 <= i < |PlanFor(p).stmts| ==> Holds(PlanFor(p).stmts[i], t)
    ensures p.id in t.tvshows && t.tvshows[p.id] == Row(p)
    ensures forall g :: g in p.genres.value ==> g.id in t.genres && (p.id, g.id) in t.tvshowGenre
  {
    var head := [InsertTvShow(p.id, Row(p))];
    var gss := GenreStmts(TvShow(p.id), p.genres.value);
    var ss := PlanFor(p).stmts;
    assert ss == head + gss;
    assert Holds(ss[0], t);
    forall g | g in p.genres.value
      ensures g.id in t.genres && (p.id, g.id) in t.tvshowGenre
    {
      GenreStmtsContain(TvShow(p.id), p.genres.value, g);
      assert UpsertGenre(g.id, g.name) in ss && LinkGenre(TvShow(p.id), g.id) in ss;
    }
  }
}
