/** The main-process request handlers that are more than a call into the
    store: the database folder, search, album existence, single-album info,
    the latest-albums query and the playlist save. `parseQuery`, the album
    folder scan, the track-list loader and the engine's `find` and full-text
    `search` are parameters. */
module DatabaseInit {
  import opened Wrappers
  import opened Seqs
  import opened DocumentStore
  import opened Playlists
  import AlbumStore
  import TrackStore

  type Album = AlbumStore.Album
  type Track = TrackStore.Track

  /** The fields full-text search looks in. */
  const DefaultSearchFields := ["title", "artist"]

  datatype Environment = Prod | Dev | Fresh | Other(name: string)

  /** `getDatabaseFolder`: `prod` and every unknown environment share the
      production folder. */
  function DatabaseFolder(environment: Environment): (r: string)
    ensures environment.Dev? <==> r == "databases_dev"
    ensures environment.Fresh? <==> r == "databases_fresh"
    ensures (environment.Prod? || environment.Other?) <==> r == "databases"
  {
    match environment
    case Dev => "databases_dev"
    case Fresh => "databases_fresh"
    case _ => "databases"
  }

  /** The folder the databases are opened in:
      `userDataPath + sep + folder + sep`. */
  function DatabasePath(userDataPath: string, sep: string, environment: Environment): (r: string)
    ensures |r| == |userDataPath| + 2 * |sep| + |DatabaseFolder(environment)|
    ensures r[..|userDataPath|] == userDataPath
    ensures r[|userDataPath| + |sep|..|userDataPath| + |sep| + |DatabaseFolder(environment)|] == DatabaseFolder(environment)
  {
    userDataPath + sep + DatabaseFolder(environment) + sep
  }

  /** Opening a database at start-up: the `fresh` environment removes the
      folder first, so its store starts empty; every other environment opens
      what an earlier run persisted there. */
  method OpenDatabase(environment: Environment, persisted: map<string, Doc>) returns (db: Database)
    requires Persisted(persisted)
    ensures fresh(db) && db.Valid()
    ensures db.docs == if environment.Fresh? then map[] else persisted
  {
    var onDisk := if environment.Fresh? then map[] else persisted;
    db := new Database(onDisk);
  }

  /** `x[f]` on a document returned by the engine. */
  function FieldOf(d: Doc, f: string): (r: Option<Value>)
    ensures f != "_id" && f != "_rev" ==> (r.Some? <==> f in d.fields)
    ensures f != "_id" && f != "_rev" && f in d.fields ==> r == Some(d.fields[f])
  {
    if f == "_id" then (if d.id.Some? then Some(Str(d.id.value)) else None)
    else if f == "_rev" then (if d.rev.Some? then Some(Str(d.rev.value)) else None)
    else if f in d.fields then Some(d.fields[f])
    else None
  }

  /** `filters.every(f => x[f] === selector[f])`: a string or a number is
      strictly equal only to itself, and an array to nothing here. */
  predicate Matches(d: Doc, selector: map<string, Value>) {
    forall f :: f in selector ==> !selector[f].Strs? && FieldOf(d, f) == Some(selector[f])
  }

  /** What `parseQuery` answers: a field selector (default `{}`) and the
      free-text part of the query. */
  datatype ParsedQuery = ParsedQuery(selector: Option<map<string, Value>>, query: Option<string>)

  /** The search handler. Without a free-text part it is a plain `find` on
      the selector; with one it is a full-text search narrowed to the
      results whose every selected field equals the selector's value. */
  function Search(parsed: ParsedQuery, find: map<string, Value> -> seq<Doc>,
                  search: (string, seq<string>) -> seq<Doc>): (r: seq<Doc>)
    ensures !Truthy(parsed.query) ==> r == find(parsed.selector.GetOr(map[]))
    ensures Truthy(parsed.query) && parsed.selector.GetOr(map[]) == map[] ==>
              r == search(parsed.query.value, DefaultSearchFields)
    ensures Truthy(parsed.query) ==> IsSubseq(r, search(parsed.query.value, DefaultSearchFields))
    ensures Truthy(parsed.query) ==>
              forall d :: d in r <==>
                d in search(parsed.query.value, DefaultSearchFields) && Matches(d, parsed.selector.GetOr(map[]))
  {
    var selector := parsed.selector.GetOr(map[]);
    if !Truthy(parsed.query) then find(selector)
    else
      var results := search(parsed.query.value, DefaultSearchFields);
      if selector == map[] then
        IsSubseqRefl(results);
        results
      else
        FilterIsSubseq(results, d => Matches(d, selector));
        Filter(results, d => Matches(d, selector))
  }

  /** Without free text the full-text engine is never consulted: any two
      search engines give the same answer. */
  lemma SearchWithoutTextIgnoresFullText(parsed: ParsedQuery, find: map<string, Value> -> seq<Doc>,
                                         s1: (string, seq<string>) -> seq<Doc>,
                                         s2: (string, seq<string>) -> seq<Doc>)
    requires !Truthy(parsed.query)
    ensures Search(parsed, find, s1) == Search(parsed, find, s2)
  {
  }

  /** With free text, `find` is never consulted. */
  lemma SearchWithTextIgnoresFind(parsed: ParsedQuery, f1: map<string, Value> -> seq<Doc>,
                                  f2: map<string, Value> -> seq<Doc>,
                                  search: (string, seq<string>) -> seq<Doc>)
    requires Truthy(parsed.query)
    ensures Search(parsed, f1, search) == Search(parsed, f2, search)
  {
  }

  /** The selector `{ path: folder }`. */
  function PathSelector(folder: string): (s: map<string, Value>)
    ensures s == map["path" := Str(folder)]
  {
    map["path" := Str(folder)]
  }

  /** The album-exists handler: some album is stored under the folder. */
  function AlbumExists(folder: string, find: map<string, Value> -> seq<Doc>): (r: bool)
    ensures r <==> find(PathSelector(folder)) != []
  {
    |find(PathSelector(folder))| > 0
  }

  /** A `find` that answers exactly the stored documents matching a
      selector, in store order. */
  ghost predicate FindsIn(find: map<string, Value> -> seq<Doc>, stored: seq<Doc>) {
    forall s :: find(s) == Filter(stored, d => Matches(d, s))
  }

  /** Over such a `find`, an album exists for a folder exactly when a stored
      document has that `path`. */
  lemma AlbumExistsIffStored(folder: string, find: map<string, Value> -> seq<Doc>, stored: seq<Doc>)
    requires FindsIn(find, stored)
    ensures AlbumExists(folder, find) <==> exists i :: 0 <= i < |stored| && FieldOf(stored[i], "path") == Some(Str(folder))
  {
    var sel := PathSelector(folder);
    assert find(sel) == Filter(stored, d => Matches(d, sel));
    forall d
      ensures Matches(d, sel) <==> FieldOf(d, "path") == Some(Str(folder))
    {
      assert "path" in sel;
    }
    if AlbumExists(folder, find) {
      var d := find(sel)[0];
      assert d in stored && Matches(d, sel);
      var i :| 0 <= i < |stored| && stored[i] == d;
    }
    if i :| 0 <= i < |stored| && FieldOf(stored[i], "path") == Some(Str(folder)) {
      assert Matches(stored[i], sel);
      assert stored[i] in find(sel);
    }
  }

  /** What the single-info handler answers. */
  datatype AlbumInfo = AlbumInfo(album: Album, tracks: seq<Track>)

  /** The track paths the single-info handler uses: the stored list, or the
      folder scan when that list is empty. */
  function InfoTracks(album: Album, scan: string -> seq<string>): (r: seq<string>)
    ensures album.tracks != [] ==> r == album.tracks
    ensures album.tracks == [] ==> r == scan(album.path)
  {
    if album.tracks == [] then scan(album.path) else album.tracks
  }

  /** The single-info handler: the first listed album with its track list
      (the stored one, or the scanned folder when none is stored) and the
      loaded tracks. With no album listed, `albums[0].tracks` throws. */
  function SingleInfo(listed: seq<Album>, scan: string -> seq<string>,
                      loadTracklist: seq<string> -> seq<Track>): (r: Option<AlbumInfo>)
    ensures listed == [] <==> r.None?
    ensures r.Some? ==> r.value.album.(tracks := listed[0].tracks) == listed[0]
    ensures r.Some? ==> r.value.album.tracks == InfoTracks(listed[0], scan)
    ensures r.Some? ==> r.value.tracks == loadTracklist(r.value.album.tracks)
  {
    if listed == [] then None
    else
      var tracks := InfoTracks(listed[0], scan);
      Some(AlbumInfo(listed[0].(tracks := tracks), loadTracklist(tracks)))
  }

  /** Asking again with the answered album changes nothing: once it carries
      a track list, the folder is not scanned again. */
  lemma SingleInfoSettles(listed: seq<Album>, scan: string -> seq<string>, rescan: string -> seq<string>,
                          loadTracklist: seq<string> -> seq<Track>)
    requires SingleInfo(listed, scan, loadTracklist).Some?
    requires SingleInfo(listed, scan, loadTracklist).value.album.tracks != []
    ensures SingleInfo([SingleInfo(listed, scan, loadTracklist).value.album], rescan, loadTracklist) ==
            SingleInfo(listed, scan, loadTracklist)
  {
  }

  /** The latest-albums handler: newest first, on `created`, from the given
      date (or now) and with the given limit (or the default). */
  function LatestRequest(dateFrom: Option<int>, limit: Option<int>, now: int): (q: LatestQuery)
    ensures q.order == "desc" && q.field == "created" && q.sortField == "created"
    ensures q.after == dateFrom.GetOr(now)
    ensures limit.None? ==> q.limit == 20
    ensures limit.Some? ==> q.limit == limit.value
  {
    LatestQueryOf(dateFrom, None, limit, Some("desc"), now)
  }

  /** The stored form of a playlist. */
  function PlaylistDoc(p: Playlist): (d: Doc)
    ensures d.id == p.id && d.rev == p.rev && !d.deleted
  {
    Doc(p.id, p.rev, false, map["title" := Str(p.title), "albums" := Strs(p.albums),
                                "created" := Num(p.created), "accessed" := Num(p.accessed)])
  }

  /** A stored document read back as a playlist, when it has the fields. */
  function DocPlaylist(d: Doc): (r: Option<Playlist>)
    ensures r.Some? ==> r.value.id == d.id && r.value.rev == d.rev
  {
    if "title" in d.fields && d.fields["title"].Str? && "albums" in d.fields && d.fields["albums"].Strs?
       && "created" in d.fields && d.fields["created"].Num? && "accessed" in d.fields && d.fields["accessed"].Num?
    then Some(Playlist(d.id, d.rev, d.fields["title"].s, d.fields["albums"].items,
                       d.fields["created"].n, d.fields["accessed"].n))
    else None
  }

  /** Reading a stored playlist back gives the playlist, under any
      revision the store hands out. */
  lemma PlaylistDocRoundTrip(p: Playlist, rev: Option<string>)
    ensures DocPlaylist(PlaylistDoc(p).(rev := rev)) == Some(p.(rev := rev))
  {
  }

  /** The playlist-save handler's stamp: only `accessed` changes. */
  function StampAccessed(p: Playlist, now: int): (r: Playlist)
    ensures r.accessed == now
    ensures r.(accessed := p.accessed) == p
  {
    p.(accessed := now)
  }

  /** The playlist-save handler: stamp `accessed` with now and save the
      playlist; the answer is the stamped playlist under its new revision. */
  method SavePlaylist(db: Database, playlist: Playlist, now: int, getFailure: Option<string>,
                      put: Doc -> PutResponse) returns (r: Result<Playlist, DbError>)
    requires playlist.id.Some?
    requires db.Valid()
    modifies db
    ensures db.Valid()
    ensures r.Success? ==> r.value == StampAccessed(playlist, now).(rev := r.value.rev) && r.value.rev.Some?
    ensures r.Success? ==> db.Get(playlist.id.value, None).Success? &&
                             DocPlaylist(db.Get(playlist.id.value, None).value) == Some(r.value)
    ensures r.Success? ==> db.docs == old(db.docs)[playlist.id.value := PlaylistDoc(r.value)]
    ensures r.Failure? ==> db.docs == old(db.docs)
  {
    var stamped := StampAccessed(playlist, now);
    var saved := db.Save(PlaylistDoc(stamped), getFailure, put);
    if saved.Failure? {
      return Failure(saved.error);
    }
    PlaylistDocRoundTrip(stamped, saved.value.rev);
    assert saved.value == PlaylistDoc(stamped).(rev := saved.value.rev);
    assert PlaylistDoc(stamped.(rev := saved.value.rev)) == saved.value;
    return Success(stamped.(rev := saved.value.rev));
  }
}
