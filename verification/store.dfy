/** The relational store the two services write into, and the semantics of the
    single-row write statements they issue.

    Schema assumptions: `tvshows.id` and `movies.id` are primary keys (a plain
    INSERT of an existing id fails); `genres.id` and `actors.id` are keys and the
    join tables are keyed by their pair (their statements carry
    `ON DUPLICATE KEY` clauses); `videos` has no key. */
module Store {
  import opened Wrappers

  /** A media row that join rows and video rows refer to. */
  datatype MediaRef = TvShow(id: int) | Movie(id: int)

  /** An air date: JavaScript `new Date(raw)` of a truthy string, kept opaque
      (the code does not validate it), or null. */
  datatype AirDate = NoDate | DateOf(raw: string)

  /** The columns of a `tvshows` row other than its id. Floats are carried as
      opaque values and never computed with. */
  datatype TvShowRow = TvShowRow(
    adult: bool,
    backdropUrl: Option<string>,
    firstAirDate: AirDate,
    lastAirDate: AirDate,
    name: string,
    numberOfEpisodes: int,
    numberOfSeasons: int,
    overview: string,
    popularity: real,
    posterUrl: Option<string>,
    showType: string,
    voteAverage: real,
    voteCount: int,
    directorName: Option<string>,
    directorProfileUrl: Option<string>)

  /** The columns of a `movies` row other than its id. The director profile URL
      is never null: the code concatenates it without a guard. */
  datatype MovieRow = MovieRow(
    adult: bool,
    backdropUrl: Option<string>,
    imdbId: string,
    originalLanguage: string,
    originalTitle: string,
    overview: string,
    popularity: real,
    posterUrl: Option<string>,
    releaseDate: string,
    revenue: int,
    runtime: int,
    title: string,
    hasVideo: bool,
    voteAverage: real,
    voteCount: int,
    directorName: Option<string>,
    directorProfileUrl: string)

  /** The columns of an `actors` row other than its id. */
  datatype ActorRow = ActorRow(name: string, profileUrl: Option<string>)

  /** A `videos` row; it has no identity of its own. */
  datatype VideoRow = VideoRow(owner: MediaRef, key: string, name: string, site: string, videoType: string)

  /** The nine tables: entity tables as maps keyed by id, join tables as sets of
      (media id, other id) pairs, and `videos` as an append-only sequence. */
  datatype Store = Store(
    tvshows: map<int, TvShowRow>,
    movies: map<int, MovieRow>,
    genres: map<int, string>,
    actors: map<int, ActorRow>,
    tvshowGenre: set<(int, int)>,
    tvshowActor: set<(int, int)>,
    movieGenre: set<(int, int)>,
    movieActor: set<(int, int)>,
    videos: seq<VideoRow>)

  /** One `connection.execute` call of either service. */
  datatype Stmt =
    | InsertTvShow(id: int, tvshow: TvShowRow)   // plain INSERT
    | InsertMovie(id: int, movie: MovieRow)      // plain INSERT
    | UpsertGenre(id: int, name: string)         // ON DUPLICATE KEY UPDATE name = name
    | UpsertActor(id: int, actor: ActorRow)      // ON DUPLICATE KEY UPDATE name = name, ...
    | LinkGenre(media: MediaRef, genreId: int)   // ON DUPLICATE KEY UPDATE genre_id = genre_id
    | LinkActor(media: MediaRef, actorId: int)   // ON DUPLICATE KEY UPDATE actor_id = actor_id
    | InsertVideo(video: VideoRow)               // plain INSERT, no key

  /** Why the work for one id stopped. */
  datatype Fault =
    | RequestFailed(message: string)  // the detail request failed with a status other than 404
    | DuplicateKey(stmt: Stmt)        // a plain INSERT hit an existing primary key
    | WriteRejected(stmt: Stmt)       // the database refused a write for a reason not modelled
    | MissingField(path: string)      // a JavaScript TypeError on an absent payload field

  /** A row a join or video row can depend on. */
  datatype Key = TvShowKey(id: int) | MovieKey(id: int) | GenreKey(id: int) | ActorKey(id: int)

  function MediaKey(m: MediaRef): Key
  {
    match m
    case TvShow(id) => TvShowKey(id)
    case Movie(id) => MovieKey(id)
  }

  /** True iff the row named by `k` exists in `s`. */
  predicate Present(s: Store, k: Key)
  {
    match k
    case TvShowKey(id) => id in s.tvshows
    case MovieKey(id) => id in s.movies
    case GenreKey(id) => id in s.genres
    case ActorKey(id) => id in s.actors
  }

  /** The rows a successful statement guarantees to exist afterwards. */
  function Provides(stmt: Stmt): set<Key>
  {
    match stmt
    case InsertTvShow(id, _) => {TvShowKey(id)}
    case InsertMovie(id, _) => {MovieKey(id)}
    case UpsertGenre(id, _) => {GenreKey(id)}
    case UpsertActor(id, _) => {ActorKey(id)}
    case LinkGenre(_, _) => {}
    case LinkActor(_, _) => {}
    case InsertVideo(_) => {}
  }

  /** The rows a statement's new row refers to. */
  function Needs(stmt: Stmt): set<Key>
  {
    match stmt
    case InsertTvShow(_, _) => {}
    case InsertMovie(_, _) => {}
    case UpsertGenre(_, _) => {}
    case UpsertActor(_, _) => {}
    case LinkGenre(m, g) => {MediaKey(m), GenreKey(g)}
    case LinkActor(m, a) => {MediaKey(m), ActorKey(a)}
    case InsertVideo(v) => {MediaKey(v.owner)}
  }

  /** What a statement leaves true of the store once it has succeeded. */
  ghost predicate Holds(stmt: Stmt, s: Store)
  {
    match stmt
    case InsertTvShow(id, row) => id in s.tvshows && s.tvshows[id] == row
    case InsertMovie(id, row) => id in s.movies && s.movies[id] == row
    case UpsertGenre(id, _) => id in s.genres
    case UpsertActor(id, _) => id in s.actors
    case LinkGenre(TvShow(t), g) => (t, g) in s.tvshowGenre
    case LinkGenre(Movie(m), g) => (m, g) in s.movieGenre
    case LinkActor(TvShow(t), a) => (t, a) in s.tvshowActor
    case LinkActor(Movie(m), a) => (m, a) in s.movieActor
    case InsertVideo(v) => v in s.videos
  }

  /** Every row of `m` is still in `m'` with the same values. */
  ghost predicate KeepsRows<K, V>(m: map<K, V>, m': map<K, V>)
  {
    forall k :: k in m ==> k in m' && m'[k] == m[k]
  }

  /** `s'` only adds to `s`: no row is deleted, no existing entity row changes,
      and `videos` is only appended to. */
  ghost predicate Grows(s: Store, s': Store)
  {
    && KeepsRows(s.tvshows, s'.tvshows)
    && KeepsRows(s.movies, s'.movies)
    && KeepsRows(s.genres, s'.genres)
    && KeepsRows(s.actors, s'.actors)
    && s.tvshowGenre <= s'.tvshowGenre
    && s.tvshowActor <= s'.tvshowActor
    && s.movieGenre <= s'.movieGenre
    && s.movieActor <= s'.movieActor
    && s.videos <= s'.videos
  }

  /** No join row or video row refers to a missing media, genre or actor row. */
  ghost predicate Referential(s: Store)
  {
    && (forall p :: p in s.tvshowGenre ==> p.0 in s.tvshows && p.1 in s.genres)
    && (forall p :: p in s.tvshowActor ==> p.0 in s.tvshows && p.1 in s.actors)
    && (forall p :: p in s.movieGenre ==> p.0 in s.movies && p.1 in s.genres)
    && (forall p :: p in s.movieActor ==> p.0 in s.movies && p.1 in s.actors)
    && (forall i :: 0 <= i < |s.videos| ==> Present(s, MediaKey(s.videos[i].owner)))
  }

  /** The row a statement appends to `videos`, if any. */
  function VideoOf(stmt: Stmt): seq<VideoRow>
  {
    if stmt.InsertVideo? then [stmt.video] else []
  }

  /** True iff the statement is a plain INSERT into a main-entity table. */
  predicate PlainInsert(stmt: Stmt)
  {
    stmt.InsertTvShow? || stmt.InsertMovie?
  }

  /** True iff the statement is a plain INSERT whose primary key is taken. */
  predicate Conflicts(stmt: Stmt, s: Store)
  {
    || (stmt.InsertTvShow? && stmt.id in s.tvshows)
    || (stmt.InsertMovie? && stmt.id in s.movies)
  }

  /** The store after a statement the database accepted. */
  function Write(stmt: Stmt, s: Store): Store
  {
    match stmt
    case InsertTvShow(id, row) => s.(tvshows := s.tvshows[id := row])
    case InsertMovie(id, row) => s.(movies := s.movies[id := row])
    case UpsertGenre(id, name) => if id in s.genres then s else s.(genres := s.genres[id := name])
    case UpsertActor(id, row) => if id in s.actors then s else s.(actors := s.actors[id := row])
    case LinkGenre(TvShow(t), g) => s.(tvshowGenre := s.tvshowGenre + {(t, g)})
    case LinkGenre(Movie(m), g) => s.(movieGenre := s.movieGenre + {(m, g)})
    case LinkActor(TvShow(t), a) => s.(tvshowActor := s.tvshowActor + {(t, a)})
    case LinkActor(Movie(m), a) => s.(movieActor := s.movieActor + {(m, a)})
    case InsertVideo(v) => s.(videos := s.videos + [v])
  }

  /** One `connection.execute` round trip. It fails exactly on a taken primary
      key or when the database refuses the statement; when it succeeds the
      store only grows, the statement's effect holds, and the rows it provides
      now exist and nothing else appears. */
  function Apply(stmt: Stmt, s: Store, rejected: Stmt -> bool): (r: Result<Store, Fault>)
    ensures r.Err? <==> Conflicts(stmt, s) || rejected(stmt)
    ensures r.Err? && Conflicts(stmt, s) ==> r.error == DuplicateKey(stmt)
    ensures r.Ok? ==> Grows(s, r.value) && Holds(stmt, r.value)
    ensures r.Ok? ==> forall k :: Present(r.value, k) <==> Present(s, k) || k in Provides(stmt)
    ensures r.Ok? ==> r.value.videos == s.videos + VideoOf(stmt)
  {
    if Conflicts(stmt, s) then Err(DuplicateKey(stmt))
    else if rejected(stmt) then Err(WriteRejected(stmt))
    else Ok(Write(stmt, s))
  }

  /** A successful write keeps referential integrity whenever the rows the
      new row refers to were already there. */
  lemma ApplyKeepsReferential(stmt: Stmt, s: Store, rejected: Stmt -> bool)
    requires Referential(s)
    requires forall k :: k in Needs(stmt) ==> Present(s, k)
    requires Apply(stmt, s, rejected).Ok?
    ensures Referential(Apply(stmt, s, rejected).value)
  {
    var s' := Apply(stmt, s, rejected).value;
    assert s' == Write(stmt, s);
    match stmt
    case InsertVideo(v) =>
      assert Present(s, MediaKey(v.owner));
      forall i | 0 <= i < |s'.videos|
        ensures Present(s', MediaKey(s'.videos[i].owner))
      {
        if i < |s.videos| {
          assert s'.videos[i] == s.videos[i];
        }
      }
    case LinkGenre(m, g) =>
      assert Present(s, MediaKey(m)) && Present(s, GenreKey(g));
    case LinkActor(m, a) =>
      assert Present(s, MediaKey(m)) && Present(s, ActorKey(a));
    case _ =>
  }

  /** A plain INSERT never overwrites: inserting an existing tvshows or movies
      id fails and the caller's store is left as it was. */
  lemma InsertNeverOverwrites(stmt: Stmt, s: Store, rejected: Stmt -> bool)
    requires stmt.InsertTvShow? || stmt.InsertMovie?
    requires (stmt.InsertTvShow? && stmt.id in s.tvshows) || (stmt.InsertMovie? && stmt.id in s.movies)
    ensures Apply(stmt, s, rejected) == Err(DuplicateKey(stmt))
  {
  }

  /** A plain INSERT of a free `tvshows` or `movies` id adds exactly that row
      and changes no other table. */
  lemma InsertAddsOneRow(stmt: Stmt, s: Store, rejected: Stmt -> bool)
    requires PlainInsert(stmt) && !Conflicts(stmt, s) && !rejected(stmt)
    ensures stmt.InsertTvShow? ==>
      Apply(stmt, s, rejected) == Ok(s.(tvshows := s.tvshows[stmt.id := stmt.tvshow]))
    ensures stmt.InsertMovie? ==>
      Apply(stmt, s, rejected) == Ok(s.(movies := s.movies[stmt.id := stmt.movie]))
  {
  }

  /** A genre join write adds exactly its (media id, genre id) pair to the
      join table of the media's kind and changes no other table. */
  lemma LinkGenreAddsOnePair(m: MediaRef, g: int, s: Store, rejected: Stmt -> bool)
    requires !rejected(LinkGenre(m, g))
    ensures var r := Apply(LinkGenre(m, g), s, rejected);
      && r.Ok?
      && (m.TvShow? ==> r.value == s.(tvshowGenre := s.tvshowGenre + {(m.id, g)}))
      && (m.Movie? ==> r.value == s.(movieGenre := s.movieGenre + {(m.id, g)}))
  {
  }

  /** An actor join write adds exactly its (media id, actor id) pair to the
      join table of the media's kind and changes no other table. */
  lemma LinkActorAddsOnePair(m: MediaRef, a: int, s: Store, rejected: Stmt -> bool)
    requires !rejected(LinkActor(m, a))
    ensures var r := Apply(LinkActor(m, a), s, rejected);
      && r.Ok?
      && (m.TvShow? ==> r.value == s.(tvshowActor := s.tvshowActor + {(m.id, a)}))
      && (m.Movie? ==> r.value == s.(movieActor := s.movieActor + {(m.id, a)}))
  {
  }

  /** `ON DUPLICATE KEY UPDATE x = x`: a genre, actor or join write whose row
      already exists succeeds and changes nothing, on any store. */
  lemma ExistingRowChangesNothing(stmt: Stmt, s: Store, rejected: Stmt -> bool)
    requires stmt.UpsertGenre? || stmt.UpsertActor? || stmt.LinkGenre? || stmt.LinkActor?
    requires Holds(stmt, s) && !rejected(stmt)
    ensures Apply(stmt, s, rejected) == Ok(s)
  {
    match stmt
    case LinkGenre(TvShow(t), g) => assert s.tvshowGenre + {(t, g)} == s.tvshowGenre;
    case LinkGenre(Movie(i), g) => assert s.movieGenre + {(i, g)} == s.movieGenre;
    case LinkActor(TvShow(t), a) => assert s.tvshowActor + {(t, a)} == s.tvshowActor;
    case LinkActor(Movie(i), a) => assert s.movieActor + {(i, a)} == s.movieActor;
    case _ =>
  }

  /** Inserting a genre keeps the name of an existing id and adds a missing
      one; no other table changes. */
  lemma UpsertGenreKeepsExisting(id: int, name: string, s: Store, rejected: Stmt -> bool)
    requires !rejected(UpsertGenre(id, name))
    ensures var r := Apply(UpsertGenre(id, name), s, rejected);
      && r.Ok?
      && r.value.genres.Keys == s.genres.Keys + {id}
      && r.value.genres[id] == (if id in s.genres then s.genres[id] else name)
      && r.value == s.(genres := r.value.genres)
  {
  }

  /** Inserting an actor keeps the name and profile URL of an existing id and
      adds a missing one; no other table changes. */
  lemma UpsertActorKeepsExisting(id: int, row: ActorRow, s: Store, rejected: Stmt -> bool)
    requires !rejected(UpsertActor(id, row))
    ensures var r := Apply(UpsertActor(id, row), s, rejected);
      && r.Ok?
      && r.value.actors.Keys == s.actors.Keys + {id}
      && r.value.actors[id] == (if id in s.actors then s.actors[id] else row)
      && r.value == s.(actors := r.value.actors)
  {
  }

  /** Join rows and genre/actor rows are idempotent: once a statement has
      succeeded, issuing it again succeeds and changes nothing. */
  lemma UpsertIsIdempotent(stmt: Stmt, s: Store, rejected: Stmt -> bool)
    requires stmt.UpsertGenre? || stmt.UpsertActor? || stmt.LinkGenre? || stmt.LinkActor?
    requires Apply(stmt, s, rejected).Ok?
    ensures var s1 := Apply(stmt, s, rejected).value;
      Apply(stmt, s1, rejected) == Ok(s1)
  {
  }

  /** A video insert always appends one new row, even when an identical row
      is already stored. */
  lemma VideoAlwaysAppends(v: VideoRow, s: Store, rejected: Stmt -> bool)
    requires !rejected(InsertVideo(v))
    ensures var r := Apply(InsertVideo(v), s, rejected);
      && r.Ok?
      && r.value.videos == s.videos + [v]
      && multiset(r.value.videos)[v] == multiset(s.videos)[v] + 1
      && r.value == s.(videos := r.value.videos)
  {
  }

  /** A statement's effect survives any later growth of the store. */
  lemma HoldsPersists(stmt: Stmt, s: Store, s': Store)
    requires Holds(stmt, s) && Grows(s, s')
    ensures Holds(stmt, s')
  {
    if stmt.InsertVideo? {
      var i :| 0 <= i < |s.videos| && s.videos[i] == stmt.video;
      assert s'.videos[i] == stmt.video;
    }
  }

  lemma GrowsTransitive(a: Store, b: Store, c: Store)
    requires Grows(a, b) && Grows(b, c)
    ensures Grows(a, c)
  {
  }
}
