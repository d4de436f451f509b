/** `fetchAndStoreMovieDetails` of movieService.js: the movie payload, the
    Director lookup with its unguarded profile URL, the transform into a
    `movies` row and write statements, and the range scan with its silent
    per-id catch. */
module Movies {
  import opened Wrappers
  import opened Images
  import opened Store
  import opened Execution
  import opened Records
  import opened Ingest

  /** An element of the payload's `credits.crew` array. */
  datatype CrewMember = CrewMember(name: string, job: string, profilePath: JsField)

  /** The fields of the movie detail response that the service reads. An
      absent `credits` or `credits.crew` is `crew == None`; an absent
      `credits.cast` is `cast == None`; an absent `videos` or `videos.results`
      is `videos == None`. */
  datatype MoviePayload = MoviePayload(
    id: int,
    adult: bool,
    backdropPath: Option<string>,
    imdbId: string,
    originalLanguage: string,
    originalTitle: string,
    overview: string,
    popularity: real,
    posterPath: Option<string>,
    releaseDate: string,
    revenue: int,
    runtime: int,
    title: string,
    hasVideo: bool,
    voteAverage: real,
    voteCount: int,
    genres: Option<seq<GenreItem>>,
    crew: Option<seq<CrewMember>>,
    cast: Option<seq<CastMember>>,
    videos: Option<seq<VideoItem>>)

  const DirectorJob: string := "Director"

  /** `crew.find(person => person.job === "Director")` from position `from` on,
      as an index: the first crew member at or after `from` whose job is
      exactly "Director", or none when there is no such member. */
  function FirstDirectorFrom(crew: seq<CrewMember>, from: nat): (r: Option<nat>)
    requires from <= |crew|
    ensures r.Some? ==>
      && from <= r.value < |crew|
      && crew[r.value].job == DirectorJob
      && forall j :: from <= j < r.value ==> crew[j].job != DirectorJob
    ensures r.None? ==> forall j :: from <= j < |crew| ==> crew[j].job != DirectorJob
    decreases |crew| - from
  {
    if from == |crew| then None
    else if crew[from].job == DirectorJob then Some(from)
    else FirstDirectorFrom(crew, from + 1)
  }

  /** The index of the first crew member whose job is exactly "Director";
      none exactly when no crew member has that job. */
  function FirstDirector(crew: seq<CrewMember>): (r: Option<nat>)
    ensures r.Some? ==>
      && r.value < |crew|
      && crew[r.value].job == DirectorJob
      && forall j :: 0 <= j < r.value ==> crew[j].job != DirectorJob
    ensures r.None? <==> forall j :: 0 <= j < |crew| ==> crew[j].job != DirectorJob
  {
    FirstDirectorFrom(crew, 0)
  }

  /** The `movies` row of a payload whose director is `d`: the backdrop and
      poster URLs are guarded, the director URL is not. */
  function Row(p: MoviePayload, d: CrewMember): (row: MovieRow)
    ensures && row.adult == p.adult && row.imdbId == p.imdbId
            && row.originalLanguage == p.originalLanguage && row.originalTitle == p.originalTitle
            && row.overview == p.overview && row.popularity == p.popularity
            && row.releaseDate == p.releaseDate && row.revenue == p.revenue
            && row.runtime == p.runtime && row.title == p.title && row.hasVideo == p.hasVideo
            && row.voteAverage == p.voteAverage && row.voteCount == p.voteCount
    ensures row.backdropUrl == ImageUrl(p.backdropPath) && row.posterUrl == ImageUrl(p.posterPath)
    ensures row.directorName == Some(d.name) && row.directorProfileUrl == UnguardedImageUrl(d.profilePath)
  {
    MovieRow(
      p.adult, ImageUrl(p.backdropPath), p.imdbId, p.originalLanguage, p.originalTitle,
      p.overview, p.popularity, ImageUrl(p.posterPath), p.releaseDate, p.revenue, p.runtime,
      p.title, p.hasVideo, p.voteAverage, p.voteCount,
      Some(d.name), UnguardedImageUrl(d.profilePath))
  }

  /** The image columns of a `movies` row: backdrop and poster are null exactly
      when their path is falsy and otherwise the prefix followed by exactly
      the path; the director URL is never null: a director whose
      `profile_path` key is missing gets the prefix followed by the text
      "undefined", one whose `profile_path` is null the prefix followed by
      "null". */
  lemma RowImageUrls(p: MoviePayload, d: CrewMember)
    ensures var row := Row(p, d);
      && (row.backdropUrl.Some? <==> Truthy(p.backdropPath))
      && (row.posterUrl.Some? <==> Truthy(p.posterPath))
      && (Truthy(p.backdropPath) ==> StripBase(row.backdropUrl.value) == p.backdropPath.value)
      && (Truthy(p.posterPath) ==> StripBase(row.posterUrl.value) == p.posterPath.value)
      && (Truthy(FieldValue(d.profilePath)) ==> Some(row.directorProfileUrl) == ImageUrl(FieldValue(d.profilePath)))
      && (d.profilePath.Undefined? ==> row.directorProfileUrl == ImageBase + "undefined")
      && (d.profilePath.Null? ==> row.directorProfileUrl == ImageBase + "null")
      && row.directorName == Some(d.name)
  {
    if Truthy(p.backdropPath) {
      ImageUrlRoundTrip(p.backdropPath);
    }
    if Truthy(p.posterPath) {
      ImageUrlRoundTrip(p.posterPath);
    }
  }

  /** The director a payload's row is built from, when the lookup finds one. */
  function DirectorIn(p: MoviePayload): (d: Option<CrewMember>)
    ensures d.Some? <==> p.crew.Some? && exists j :: 0 <= j < |p.crew.value| && p.crew.value[j].job == DirectorJob
    ensures d.Some? ==> d.value in p.crew.value && d.value.job == DirectorJob
    ensures d.Some? ==>
      exists i :: 0 <= i < |p.crew.value| && p.crew.value[i] == d.value
        && forall j :: 0 <= j < i ==> p.crew.value[j].job != DirectorJob
  {
    match p.crew
    case None => None
    case Some(crew) =>
      match FirstDirector(crew)
      case None => None
      case Some(i) => Some(crew[i])
  }

  /** The write statements for one payload. Reading `credits.crew` of an
      absent `credits`, and reading `profile_path` of the `undefined` that
      `find` returns when no Director exists, throw before the first write. */
  function PlanFor(p: MoviePayload): (plan: Plan)
    ensures DirectorIn(p).None? ==> plan.stmts == [] && plan.fault.Some?
    ensures DirectorIn(p).Some? ==>
      |plan.stmts| >= 1 && plan.stmts[0] == InsertMovie(p.id, Row(p, DirectorIn(p).value))
    ensures forall i :: 1 <= i < |plan.stmts| ==> !PlainInsert(plan.stmts[i])
    ensures plan.fault.None? <==>
      DirectorIn(p).Some? && p.genres.Some? && p.cast.Some? && p.videos.Some?
  {
    if p.crew.None? then Plan([], Some(MissingField("credits.crew")))
    else if DirectorIn(p).None? then Plan([], Some(MissingField("directorInfo.profile_path")))
    else
      var head := [InsertMovie(p.id, Row(p, DirectorIn(p).value))];
      RecordPlanTail(head, Movie(p.id), p.genres, p.cast, p.videos);
      RecordPlan(head, Movie(p.id), p.genres, p.cast, p.videos)
  }

  /** Within one id, the `movies` row is written before any other row, and
      each genre, actor and video row after the rows it refers to. */
  lemma PlanIsWriteOrdered(p: MoviePayload)
    ensures WriteOrdered(PlanFor(p))
  {
    if DirectorIn(p).Some? {
      var head := [InsertMovie(p.id, Row(p, DirectorIn(p).value))];
      assert head[1..] == [];
      assert ProvidesAll(head) == {MovieKey(p.id)};
      RecordPlanReady(head, Movie(p.id), p.genres, p.cast, p.videos);
    }
  }

  lemma AllPlansWriteOrdered()
    ensures forall p :: WriteOrdered(PlanFor(p))
  {
    forall p: MoviePayload
      ensures WriteOrdered(PlanFor(p))
    {
      PlanIsWriteOrdered(p);
    }
  }

  /** `fetchAndStoreMovieDetails(startId, endId)`: every id of the inclusive
      range is processed once, in ascending order, an exception for one id is
      swallowed and never stops the scan, no row is ever deleted or
      overwritten, and joins and videos never refer to a missing row. */
  function FetchAndStore(fetch: int -> Response<MoviePayload>, rejected: Stmt -> bool,
                         startId: int, endId: int, s: Store): (r: ScanResult)
    ensures |r.processed| == if startId <= endId then endId - startId + 1 else 0
    ensures forall i :: 0 <= i < |r.processed| ==> r.processed[i].id == startId + i
    ensures startId > endId ==> r.store == s
    ensures Grows(s, r.store)
    ensures Referential(s) ==> Referential(r.store)
  {
    AllPlansWriteOrdered();
    ScanKeepsReferential(fetch, PlanFor, rejected, startId, endId, s);
    ScanGrows(fetch, PlanFor, rejected, startId, endId, s);
    Scan(fetch, PlanFor, rejected, startId, endId, s)
  }

  /** The unguarded director URL throws when no crew member is a Director: the
      movie adds nothing to any table. */
  lemma NoDirectorStoresNothing(fetch: int -> Response<MoviePayload>, rejected: Stmt -> bool, id: int, s: Store)
    requires fetch(id).Found? && DirectorIn(fetch(id).payload).None?
    ensures var r := Step(fetch, PlanFor, rejected, id, s);
      r.store == s && r.outcome.Error? && r.outcome.fault.MissingField?
  {
  }

  /** A plain INSERT, not an upsert: reprocessing an id whose `movies` row
      exists changes no table, whether it fails at the Director lookup or at
      the INSERT. */
  lemma RerunChangesNothing(fetch: int -> Response<MoviePayload>, rejected: Stmt -> bool, id: int, s: Store)
    requires fetch(id).Found? && fetch(id).payload.id in s.movies
    ensures var r := Step(fetch, PlanFor, rejected, id, s);
      r.store == s && r.outcome.Error?
  {
    var p := fetch(id).payload;
    if DirectorIn(p).Some? {
      var ss := PlanFor(p).stmts;
      assert Apply(ss[0], s, rejected).Err?;
    }
  }

  /** Processing the same id again after it was stored leaves the store as
      the first pass left it, so videos do not accumulate either. */
  lemma SecondPassIsNoOp(fetch: int -> Response<MoviePayload>, rejected: Stmt -> bool, id: int, s: Store)
    requires Step(fetch, PlanFor, rejected, id, s).outcome.Stored?
    ensures var s1 := Step(fetch, PlanFor, rejected, id, s).store;
      Step(fetch, PlanFor, rejected, id, s1).store == s1
  {
    StoredHoldsAll(fetch, PlanFor, rejected, id, s);
    var p := fetch(id).payload;
    var s1 := Step(fetch, PlanFor, rejected, id, s).store;
    assert InsertMovie(p.id, Row(p, DirectorIn(p).value)) in PlanFor(p).stmts;
    RerunChangesNothing(fetch, rejected, id, s1);
  }

  /** A stored movie has its row, a row and a join row for each of its genres
      and cast members, and one newly appended video row per payload video,
      even where an identical video row existed before. */
  lemma StoredRecordIsComplete(fetch: int -> Response<MoviePayload>, rejected: Stmt -> bool, id: int, s: Store)
    requires Step(fetch, PlanFor, rejected, id, s).outcome.Stored?
    ensures fetch(id).Found?
    ensures var p := fetch(id).payload;
      var t := Step(fetch, PlanFor, rejected, id, s).store;
      && DirectorIn(p).Some? && p.genres.Some? && p.cast.Some? && p.videos.Some?
      && p.id in t.movies && t.movies[p.id] == Row(p, DirectorIn(p).value)
      && (forall g :: g in p.genres.value ==> g.id in t.genres && (p.id, g.id) in t.movieGenre)
      && (forall c :: c in p.cast.value ==> c.id in t.actors && (p.id, c.id) in t.movieActor)
      && t.videos == s.videos + VideoRows(Movie(p.id), p.videos.value)
  {
    StoredHoldsAll(fetch, PlanFor, rejected, id, s);
    var p := fetch(id).payload;
    CompleteFromHolds(p, s, Step(fetch, PlanFor, rejected, id, s).store);
  }

  lemma PlanForWithDirector(p: MoviePayload)
    requires DirectorIn(p).Some?
    ensures PlanFor(p)
         == RecordPlan([InsertMovie(p.id, Row(p, DirectorIn(p).value))], Movie(p.id), p.genres, p.cast, p.videos)
  {
  }

  lemma CompleteFromHolds(p: MoviePayload, s: Store, t: Store)
    requires DirectorIn(p).Some? && p.genres.Some? && p.cast.Some? && p.videos.Some?
    requires forall st :: st in PlanFor(p).stmts ==> Holds(st, t)
    requires t.videos == s.videos + VideosOf(PlanFor(p).stmts)
    ensures p.id in t.movies && t.movies[p.id] == Row(p, DirectorIn(p).value)
    ensures forall g :: g in p.genres.value ==> g.id in t.genres && (p.id, g.id) in t.movieGenre
    ensures forall c :: c in p.cast.value ==> c.id in t.actors && (p.id, c.id) in t.movieActor
    ensures t.videos == s.videos + VideoRows(Movie(p.id), p.videos.value)
  {
    var head := [InsertMovie(p.id, Row(p, DirectorIn(p).value))];
    PlanForWithDirector(p);
    assert VideosOf(head) == [] by { assert head[1..] == []; }
    RecordPlanStores(head, Movie(p.id), p.genres.value, p.cast.value, p.videos.value, s, t);
    assert Holds(head[0], t);
  }

  /** A movie is stored in full exactly when it has a Director and all three
      arrays, its id is new, and the database accepts every statement. */
  lemma StoredIff(fetch: int -> Response<MoviePayload>, rejected: Stmt -> bool, id: int, s: Store)
    requires fetch(id).Found?
    ensures var p := fetch(id).payload;
      var ss := PlanFor(p).stmts;
      var stored := Step(fetch, PlanFor, rejected, id, s).outcome.Stored?;
      stored <==> (&& DirectorIn(p).Some? && p.genres.Some? && p.cast.Some? && p.videos.Some?
                   && p.id !in s.movies
                   && (forall i :: 0 <= i < |ss| ==> !rejected(ss[i])))
  {
    var p := fetch(id).payload;
    ExecuteCompletesIff(PlanFor(p).stmts, s, rejected);
  }

  /** No transaction: when `genres` is missing, the TypeError comes after the
      `movies` row was written, and that row stays. */
  lemma MissingGenresKeepsMovieRow(fetch: int -> Response<MoviePayload>, rejected: Stmt -> bool,
                                   id: int, s: Store)
    requires fetch(id).Found?
    requires var p := fetch(id).payload;
      DirectorIn(p).Some? && p.genres.None? && p.id !in s.movies
    requires forall st :: !rejected(st)
    ensures var p := fetch(id).payload;
      var t := Step(fetch, PlanFor, rejected, id, s);
      && t.outcome == Error(MissingField("genres"))
      && t.store == s.(movies := s.movies[p.id := Row(p, DirectorIn(p).value)])
  {
    var p := fetch(id).payload;
    var head := [InsertMovie(p.id, Row(p, DirectorIn(p).value))];
    RecordPlanTail(head, Movie(p.id), p.genres, p.cast, p.videos);
    assert PlanFor(p) == Plan(head, Some(MissingField("genres")));
    assert head[1..] == [];
    var s1 := s.(movies := s.movies[p.id := Row(p, DirectorIn(p).value)]);
    assert Apply(head[0], s, rejected) == Ok(s1);
    assert Execute(head, s, rejected) == Executed(s1, 1, None);
    assert Step(fetch, PlanFor, rejected, id, s) == Load(PlanFor(p), s, rejected);
  }
}
