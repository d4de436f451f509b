/** The write sequence both services issue for one fetched record: the main
    row, then for each genre its row and join row, then for each cast member
    its row and join row, then one video row per video. A JavaScript
    TypeError on an absent array stops the sequence where that array is read. */
module Records {
  import opened Wrappers
  import opened Images
  import opened Store
  import opened Execution

  /** An element of the payload's `genres` array. */
  datatype GenreItem = GenreItem(id: int, name: string)

  /** An element of the payload's `credits.cast` array. */
  datatype CastMember = CastMember(id: int, name: string, profilePath: Option<string>)

  /** An element of the payload's `videos.results` array. */
  datatype VideoItem = VideoItem(key: string, name: string, site: string, videoType: string)

  /** The statements issued for one record, followed by the error thrown after
      the last of them, if one is thrown. */
  datatype Plan = Plan(stmts: seq<Stmt>, fault: Option<Fault>)

  /** The `actors` row of a cast member: its profile URL is guarded. */
  function ActorRowOf(a: CastMember): (row: ActorRow)
    ensures row.name == a.name
    ensures row.profileUrl.Some? <==> Truthy(a.profilePath)
    ensures row.profileUrl.Some? ==>
      HasImageBase(row.profileUrl.value) && StripBase(row.profileUrl.value) == a.profilePath.value
  {
    var row := ActorRow(a.name, ImageUrl(a.profilePath));
    if Truthy(a.profilePath) then ImageUrlRoundTrip(a.profilePath); row else row
  }

  /** The `videos` row of one payload video, owned by the media `m`. */
  function VideoRowOf(m: MediaRef, v: VideoItem): (row: VideoRow)
    ensures row.owner == m && row.key == v.key && row.name == v.name
    ensures row.site == v.site && row.videoType == v.videoType
  {
    VideoRow(m, v.key, v.name, v.site, v.videoType)
  }

  /** The video rows of a payload's videos, in payload order. */
  function VideoRows(m: MediaRef, vs: seq<VideoItem>): (rows: seq<VideoRow>)
    ensures |rows| == |vs|
    ensures forall i :: 0 <= i < |vs| ==>
      && rows[i].owner == m && rows[i].key == vs[i].key && rows[i].name == vs[i].name
      && rows[i].site == vs[i].site && rows[i].videoType == vs[i].videoType
  {
    seq(|vs|, i requires 0 <= i < |vs| => VideoRowOf(m, vs[i]))
  }

  /** The genres loop: each genre's row comes immediately before its join row. */
  function GenreStmts(m: MediaRef, gs: seq<GenreItem>): (ss: seq<Stmt>)
    ensures |ss| == 2 * |gs|
    ensures forall i :: 0 <= i < |gs| ==>
      ss[2 * i] == UpsertGenre(gs[i].id, gs[i].name) && ss[2 * i + 1] == LinkGenre(m, gs[i].id)
    ensures forall st :: st in ss ==> !PlainInsert(st)
    decreases |gs|
  {
    if gs == [] then []
    else [UpsertGenre(gs[0].id, gs[0].name), LinkGenre(m, gs[0].id)] + GenreStmts(m, gs[1..])
  }

  /** The cast loop: each actor's row comes immediately before its join row. */
  function ActorStmts(m: MediaRef, cs: seq<CastMember>): (ss: seq<Stmt>)
    ensures |ss| == 2 * |cs|
    ensures forall i :: 0 <= i < |cs| ==>
      ss[2 * i] == UpsertActor(cs[i].id, ActorRowOf(cs[i])) && ss[2 * i + 1] == LinkActor(m, cs[i].id)
    ensures forall st :: st in ss ==> !PlainInsert(st)
    decreases |cs|
  {
    if cs == [] then []
    else [UpsertActor(cs[0].id, ActorRowOf(cs[0])), LinkActor(m, cs[0].id)] + ActorStmts(m, cs[1..])
  }

  /** The videos loop: one insert per payload video, in payload order. */
  function VideoStmts(m: MediaRef, vs: seq<VideoItem>): (ss: seq<Stmt>)
    ensures |ss| == |vs|
    ensures forall i :: 0 <= i < |vs| ==> ss[i] == InsertVideo(VideoRowOf(m, vs[i]))
    ensures forall st :: st in ss ==> !PlainInsert(st)
    decreases |vs|
  {
    if vs == [] then [] else [InsertVideo(VideoRowOf(m, vs[0]))] + VideoStmts(m, vs[1..])
  }

  /** The statements for one record after its main-row statements `head`:
      a missing `genres`, `credits.cast` or `videos.results` array throws
      where the code first iterates it, after everything issued before. */
  function RecordPlan(head: seq<Stmt>, m: MediaRef, genres: Option<seq<GenreItem>>,
                      cast: Option<seq<CastMember>>, videos: Option<seq<VideoItem>>): (plan: Plan)
    ensures plan.fault.None? <==> genres.Some? && cast.Some? && videos.Some?
  {
    match genres
    case None => Plan(head, Some(MissingField("genres")))
    case Some(gs) =>
      var withGenres := head + GenreStmts(m, gs);
      match cast
      case None => Plan(withGenres, Some(MissingField("credits.cast")))
      case Some(cs) =>
        var withActors := withGenres + ActorStmts(m, cs);
        match videos
        case None => Plan(withActors, Some(MissingField("videos.results")))
        case Some(vs) => Plan(withActors + VideoStmts(m, vs), None)
  }

  lemma {:induction false} GenreStmtsReady(m: MediaRef, gs: seq<GenreItem>, have: set<Key>)
    requires MediaKey(m) in have
    ensures ReadyFrom(GenreStmts(m, gs), have)
    decreases |gs|
  {
    if gs != [] {
      var pair := [UpsertGenre(gs[0].id, gs[0].name), LinkGenre(m, gs[0].id)];
      assert pair[1..][1..] == [];
      assert ReadyFrom(pair, have);
      GenreStmtsReady(m, gs[1..], have + ProvidesAll(pair));
      ReadyAppend(pair, GenreStmts(m, gs[1..]), have);
    }
  }

  lemma {:induction false} ActorStmtsReady(m: MediaRef, cs: seq<CastMember>, have: set<Key>)
    requires MediaKey(m) in have
    ensures ReadyFrom(ActorStmts(m, cs), have)
    decreases |cs|
  {
    if cs != [] {
      var pair := [UpsertActor(cs[0].id, ActorRowOf(cs[0])), LinkActor(m, cs[0].id)];
      assert pair[1..][1..] == [];
      assert ReadyFrom(pair, have);
      ActorStmtsReady(m, cs[1..], have + ProvidesAll(pair));
      ReadyAppend(pair, ActorStmts(m, cs[1..]), have);
    }
  }

  lemma {:induction false} VideoStmtsReady(m: MediaRef, vs: seq<VideoItem>, have: set<Key>)
    requires MediaKey(m) in have
    ensures ReadyFrom(VideoStmts(m, vs), have)
    decreases |vs|
  {
    if vs != [] {
      var one := [InsertVideo(VideoRowOf(m, vs[0]))];
      assert one[1..] == [];
      assert ReadyFrom(one, have);
      VideoStmtsReady(m, vs[1..], have + ProvidesAll(one));
      ReadyAppend(one, VideoStmts(m, vs[1..]), have);
    }
  }

  /** Appending a block that is ready once `pre` has run keeps write order
      and keeps the media row among the rows provided. */
  lemma ReadyExtend(pre: seq<Stmt>, block: seq<Stmt>, m: MediaRef)
    requires ReadyFrom(pre, {}) && MediaKey(m) in ProvidesAll(pre)
    requires ReadyFrom(block, ProvidesAll(pre))
    ensures ReadyFrom(pre + block, {}) && MediaKey(m) in ProvidesAll(pre + block)
  {
    assert {} + ProvidesAll(pre) == ProvidesAll(pre);
    ReadyAppend(pre, block, {});
    ProvidesAllAppend(pre, block);
  }

  /** The statements a record plan issues, as the concatenation of its blocks. */
  function Issued(head: seq<Stmt>, m: MediaRef, genres: Option<seq<GenreItem>>,
                  cast: Option<seq<CastMember>>, videos: Option<seq<VideoItem>>): seq<Stmt>
  {
    head
      + (if genres.Some? then GenreStmts(m, genres.value) else [])
      + (if genres.Some? && cast.Some? then ActorStmts(m, cast.value) else [])
      + (if genres.Some? && cast.Some? && videos.Some? then VideoStmts(m, videos.value) else [])
  }

  lemma RecordPlanIssued(head: seq<Stmt>, m: MediaRef, genres: Option<seq<GenreItem>>,
                         cast: Option<seq<CastMember>>, videos: Option<seq<VideoItem>>)
    ensures RecordPlan(head, m, genres, cast, videos).stmts == Issued(head, m, genres, cast, videos)
  {
    var e: seq<Stmt> := [];
    assert head + e + e + e == head;
    if genres.Some? {
      var withGenres := head + GenreStmts(m, genres.value);
      assert withGenres + e + e == withGenres;
      if cast.Some? {
        var withActors := withGenres + ActorStmts(m, cast.value);
        assert withActors + e == withActors;
      }
    }
  }

  /** Write order of a whole record: when the head writes the media row first,
      every join and video row of the record comes after the rows it refers to. */
  lemma RecordPlanReady(head: seq<Stmt>, m: MediaRef, genres: Option<seq<GenreItem>>,
                        cast: Option<seq<CastMember>>, videos: Option<seq<VideoItem>>)
    requires ReadyFrom(head, {})
    requires MediaKey(m) in ProvidesAll(head)
    ensures ReadyFrom(RecordPlan(head, m, genres, cast, videos).stmts, {})
  {
    RecordPlanIssued(head, m, genres, cast, videos);
    var e: seq<Stmt> := [];
    var gss := if genres.Some? then GenreStmts(m, genres.value) else e;
    var css := if genres.Some? && cast.Some? then ActorStmts(m, cast.value) else e;
    var vss := if genres.Some? && cast.Some? && videos.Some? then VideoStmts(m, videos.value) else e;
    if genres.Some? {
      GenreStmtsReady(m, genres.value, ProvidesAll(head));
    }
    ReadyExtend(head, gss, m);
    if genres.Some? && cast.Some? {
      ActorStmtsReady(m, cast.value, ProvidesAll(head + gss));
    }
    ReadyExtend(head + gss, css, m);
    if genres.Some? && cast.Some? && videos.Some? {
      VideoStmtsReady(m, videos.value, ProvidesAll(head + gss + css));
    }
    ReadyExtend(head + gss + css, vss, m);
  }

  /** Only the head of a record plan holds plain INSERTs. */
  lemma RecordPlanTail(head: seq<Stmt>, m: MediaRef, genres: Option<seq<GenreItem>>,
                       cast: Option<seq<CastMember>>, videos: Option<seq<VideoItem>>)
    ensures var ss := RecordPlan(head, m, genres, cast, videos).stmts;
      && |head| <= |ss| && ss[..|head|] == head
      && (forall i :: |head| <= i < |ss| ==> !PlainInsert(ss[i]))
      && (genres.None? ==> ss == head)
  {
    var ss := RecordPlan(head, m, genres, cast, videos).stmts;
    RecordPlanBlocks(head, m, genres, cast, videos);
    BlocksNoPlainInserts(m, genres, cast, videos);
    HeadThenTail(head, Blocks(m, genres, cast, videos), ss);
  }

  /** The statements of a record after its head: the loops the code reaches
      before the first absent array. */
  function Blocks(m: MediaRef, genres: Option<seq<GenreItem>>,
                  cast: Option<seq<CastMember>>, videos: Option<seq<VideoItem>>): seq<Stmt>
  {
    match genres
    case None => []
    case Some(gs) =>
      match cast
      case None => GenreStmts(m, gs)
      case Some(cs) =>
        match videos
        case None => GenreStmts(m, gs) + ActorStmts(m, cs)
        case Some(vs) => GenreStmts(m, gs) + ActorStmts(m, cs) + VideoStmts(m, vs)
  }

  lemma RecordPlanBlocks(head: seq<Stmt>, m: MediaRef, genres: Option<seq<GenreItem>>,
                         cast: Option<seq<CastMember>>, videos: Option<seq<VideoItem>>)
    ensures RecordPlan(head, m, genres, cast, videos).stmts == head + Blocks(m, genres, cast, videos)
  {
    match genres
    case None =>
      assert head + [] == head;
    case Some(gs) =>
      var gss := GenreStmts(m, gs);
      match cast
      case None =>
      case Some(cs) =>
        var css := ActorStmts(m, cs);
        assert head + gss + css == head + (gss + css);
        match videos
        case None =>
        case Some(vs) =>
          var vss := VideoStmts(m, vs);
          assert head + gss + css + vss == head + (gss + css + vss);
  }

  lemma BlocksNoPlainInserts(m: MediaRef, genres: Option<seq<GenreItem>>,
                             cast: Option<seq<CastMember>>, videos: Option<seq<VideoItem>>)
    ensures NoPlainInserts(Blocks(m, genres, cast, videos))
  {
    if genres.Some? && cast.Some? {
      var gss := GenreStmts(m, genres.value);
      var css := ActorStmts(m, cast.value);
      NoPlainInsertsAppend(gss, css);
      if videos.Some? {
        NoPlainInsertsAppend(gss + css, VideoStmts(m, videos.value));
      }
    }
  }

  /** Statements issued after `head` that are no plain INSERTs leave `head` as
      the only place one can occur. */
  lemma HeadThenTail(head: seq<Stmt>, tail: seq<Stmt>, ss: seq<Stmt>)
    requires NoPlainInserts(tail) && ss == head + tail
    ensures |head| <= |ss| && ss[..|head|] == head
    ensures forall i :: |head| <= i < |ss| ==> !PlainInsert(ss[i])
    ensures tail == [] ==> ss == head
  {
    forall i | |head| <= i < |ss|
      ensures !PlainInsert(ss[i])
    {
      assert ss[i] == tail[i - |head|];
    }
  }

  /** No statement of `ss` is a plain INSERT. */
  predicate NoPlainInserts(ss: seq<Stmt>)
  {
    forall st :: st in ss ==> !PlainInsert(st)
  }

  lemma NoPlainInsertsAppend(a: seq<Stmt>, b: seq<Stmt>)
    requires NoPlainInserts(a) && NoPlainInserts(b)
    ensures NoPlainInserts(a + b)
  {
  }

  lemma {:induction false} GenreStmtsNoVideos(m: MediaRef, gs: seq<GenreItem>)
    ensures VideosOf(GenreStmts(m, gs)) == []
    decreases |gs|
  {
    if gs != [] {
      var pair := [UpsertGenre(gs[0].id, gs[0].name), LinkGenre(m, gs[0].id)];
      assert pair[1..][1..] == [];
      GenreStmtsNoVideos(m, gs[1..]);
      VideosOfAppend(pair, GenreStmts(m, gs[1..]));
    }
  }

  lemma {:induction false} ActorStmtsNoVideos(m: MediaRef, cs: seq<CastMember>)
    ensures VideosOf(ActorStmts(m, cs)) == []
    decreases |cs|
  {
    if cs != [] {
      var pair := [UpsertActor(cs[0].id, ActorRowOf(cs[0])), LinkActor(m, cs[0].id)];
      assert pair[1..][1..] == [];
      ActorStmtsNoVideos(m, cs[1..]);
      VideosOfAppend(pair, ActorStmts(m, cs[1..]));
    }
  }

  lemma {:induction false} VideoStmtsVideos(m: MediaRef, vs: seq<VideoItem>)
    ensures VideosOf(VideoStmts(m, vs)) == VideoRows(m, vs)
    decreases |vs|
  {
    if vs != [] {
      var one := [InsertVideo(VideoRowOf(m, vs[0]))];
      assert one[1..] == [];
      VideoStmtsVideos(m, vs[1..]);
      VideosOfAppend(one, VideoStmts(m, vs[1..]));
      VideoRowsCons(m, vs);
    }
  }

  lemma VideoRowsCons(m: MediaRef, vs: seq<VideoItem>)
    requires vs != []
    ensures VideoRows(m, vs) == [VideoRowOf(m, vs[0])] + VideoRows(m, vs[1..])
  {
    var rows := VideoRows(m, vs);
    var rest := VideoRows(m, vs[1..]);
    forall i | 0 <= i < |rows|
      ensures rows[i] == ([VideoRowOf(m, vs[0])] + rest)[i]
    {
      if i > 0 {
        assert vs[1..][i - 1] == vs[i];
      }
    }
  }

  lemma GenreStmtsContain(m: MediaRef, gs: seq<GenreItem>, g: GenreItem)
    requires g in gs
    ensures UpsertGenre(g.id, g.name) in GenreStmts(m, gs) && LinkGenre(m, g.id) in GenreStmts(m, gs)
  {
    var ss := GenreStmts(m, gs);
    var i :| 0 <= i < |gs| && gs[i] == g;
    assert ss[2 * i] == UpsertGenre(g.id, g.name) && ss[2 * i + 1] == LinkGenre(m, g.id);
  }

  lemma ActorStmtsContain(m: MediaRef, cs: seq<CastMember>, c: CastMember)
    requires c in cs
    ensures UpsertActor(c.id, ActorRowOf(c)) in ActorStmts(m, cs) && LinkActor(m, c.id) in ActorStmts(m, cs)
  {
    var ss := ActorStmts(m, cs);
    var i :| 0 <= i < |cs| && cs[i] == c;
    assert ss[2 * i] == UpsertActor(c.id, ActorRowOf(c)) && ss[2 * i + 1] == LinkActor(m, c.id);
  }

  lemma BlocksVideos(head: seq<Stmt>, m: MediaRef, gs: seq<GenreItem>,
                     cs: seq<CastMember>, vs: seq<VideoItem>)
    ensures VideosOf(head + GenreStmts(m, gs) + ActorStmts(m, cs) + VideoStmts(m, vs))
         == VideosOf(head) + VideoRows(m, vs)
  {
    var gss := GenreStmts(m, gs);
    var css := ActorStmts(m, cs);
    var vss := VideoStmts(m, vs);
    VideosOfAppend(head + gss + css, vss);
    VideosOfAppend(head + gss, css);
    VideosOfAppend(head, gss);
    GenreStmtsNoVideos(m, gs);
    ActorStmtsNoVideos(m, cs);
    VideoStmtsVideos(m, vs);
    assert VideosOf(head + gss) == VideosOf(head);
    assert VideosOf(head + gss + css) == VideosOf(head);
  }

  /** A record plan without a fault issues, besides its head, a row and a join
      row for every genre and every cast member, and exactly one video row per
      payload video, in payload order. */
  lemma RecordPlanComplete(head: seq<Stmt>, m: MediaRef, gs: seq<GenreItem>,
                           cs: seq<CastMember>, vs: seq<VideoItem>)
    ensures var ss := RecordPlan(head, m, Some(gs), Some(cs), Some(vs)).stmts;
      && (forall g :: g in gs ==> UpsertGenre(g.id, g.name) in ss && LinkGenre(m, g.id) in ss)
      && (forall c :: c in cs ==> UpsertActor(c.id, ActorRowOf(c)) in ss && LinkActor(m, c.id) in ss)
      && VideosOf(ss) == VideosOf(head) + VideoRows(m, vs)
  {
    var gss := GenreStmts(m, gs);
    var css := ActorStmts(m, cs);
    var vss := VideoStmts(m, vs);
    var ss := head + gss + css + vss;
    RecordPlanIssued(head, m, Some(gs), Some(cs), Some(vs));
    assert RecordPlan(head, m, Some(gs), Some(cs), Some(vs)).stmts == ss;
    forall g | g in gs
      ensures UpsertGenre(g.id, g.name) in ss && LinkGenre(m, g.id) in ss
    {
      GenreStmtsContain(m, gs, g);
    }
    forall c | c in cs
      ensures UpsertActor(c.id, ActorRowOf(c)) in ss && LinkActor(m, c.id) in ss
    {
      ActorStmtsContain(m, cs, c);
    }
    BlocksVideos(head, m, gs, cs, vs);
  }

  /** When every statement of a complete record plan holds in a store, so do
      the row and join row of each genre and each cast member. */
  lemma RecordPlanHolds(head: seq<Stmt>, m: MediaRef, gs: seq<GenreItem>,
                        cs: seq<CastMember>, vs: seq<VideoItem>, t: Store)
    requires forall st :: st in RecordPlan(head, m, Some(gs), Some(cs), Some(vs)).stmts ==> Holds(st, t)
    ensures forall g :: g in gs ==> Holds(UpsertGenre(g.id, g.name), t) && Holds(LinkGenre(m, g.id), t)
    ensures forall c :: c in cs ==> Holds(UpsertActor(c.id, ActorRowOf(c)), t) && Holds(LinkActor(m, c.id), t)
  {
    RecordPlanComplete(head, m, gs, cs, vs);
  }

  /** A record whose statements all took effect holds its main rows, its
      genre and actor rows with their joins, and appended exactly its videos. */
  lemma RecordPlanStores(head: seq<Stmt>, m: MediaRef, gs: seq<GenreItem>,
                         cs: seq<CastMember>, vs: seq<VideoItem>, s: Store, t: Store)
    requires VideosOf(head) == []
    requires forall st :: st in RecordPlan(head, m, Some(gs), Some(cs), Some(vs)).stmts ==> Holds(st, t)
    requires t.videos == s.videos + VideosOf(RecordPlan(head, m, Some(gs), Some(cs), Some(vs)).stmts)
    ensures forall st :: st in head ==> Holds(st, t)
    ensures forall g :: g in gs ==> Holds(UpsertGenre(g.id, g.name), t) && Holds(LinkGenre(m, g.id), t)
    ensures forall c :: c in cs ==> Holds(UpsertActor(c.id, ActorRowOf(c)), t) && Holds(LinkActor(m, c.id), t)
    ensures t.videos == s.videos + VideoRows(m, vs)
  {
    var ss := RecordPlan(head, m, Some(gs), Some(cs), Some(vs)).stmts;
    RecordPlanHolds(head, m, gs, cs, vs, t);
    RecordPlanComplete(head, m, gs, cs, vs);
    assert VideosOf(ss) == VideoRows(m, vs) by {
      assert VideosOf(head) + VideoRows(m, vs) == VideoRows(m, vs);
    }
    RecordPlanTail(head, m, Some(gs), Some(cs), Some(vs));
    forall st | st in head
      ensures Holds(st, t)
    {
      var i :| 0 <= i < |head| && head[i] == st;
      assert ss[i] == ss[..|head|][i];
    }
  }
}
