/** The library slice of the renderer store: the latest albums, the artist
    statistics, and the `removeAlbums` and `getArtists` thunks. A thunk is
    modelled as the list of effects it performs in order; what the main
    process answers to each request is a parameter. */
module LibraryStore {
  import opened Wrappers
  import opened Seqs
  import opened StoreUtils
  import AlbumStore
  import opened Playlists

  type Album = AlbumStore.Album

  const DefaultLatestAlbumLimit: nat := 10

  /** An entry of the artist statistics. */
  datatype ArtistCount = ArtistCount(name: string, count: int)

  /** A row of the `stats('artist')` answer. */
  datatype StatRow = StatRow(key: string, value: int)

  /** One entry of the answer to a bulk playlist save. */
  datatype SaveResult = SaveResult(id: string, rev: string, ok: bool)

  /** What a saved playlist becomes in the dispatched list: the playlist
      with its new revision, or only `{ _rev }` when no playlist sent had the
      answered id. */
  datatype SavedRecord = Revised(playlist: Playlist) | RevOnly(rev: string)

  datatype LibraryEffect =
    | InvokeDeleteAlbums(albums: seq<Album>)
    | DispatchLatestResponse(results: seq<Album>)
    | DispatchUpdateQueue(queue: seq<string>)
    | InvokeSavePlaylists(playlists: seq<Playlist>)
    | DispatchPlaylistListResponse(records: seq<SavedRecord>)
    | InvokeStats(field: string)
    | DispatchArtistsResponse(artists: seq<ArtistCount>)
    | Crash

  function AlbumIds(albums: seq<Album>): (r: seq<Id>)
    ensures |r| == |albums| && forall i :: 0 <= i < |albums| ==> r[i] == albums[i].id
  {
    seq(|albums|, i requires 0 <= i < |albums| => albums[i].id)
  }

  // ---------------------------------------------------------------------
  // The latest album

  /** The position of the first album with the greatest `created`: the one
      a stable newest-first sort puts in front. */
  function LatestIndex(albums: seq<Album>): (i: nat)
    requires albums != []
    ensures i < |albums|
    ensures forall j :: 0 <= j < |albums| ==> albums[j].created <= albums[i].created
    ensures forall j :: 0 <= j < i ==> albums[j].created < albums[i].created
  {
    var n := |albums| - 1;
    if n == 0 then 0
    else
      var k := LatestIndex(albums[..n]);
      assert forall j :: 0 <= j < n ==> albums[..n][j] == albums[j];
      if albums[n].created > albums[k].created then n else k
  }

  /** `getLatestAlbumId`: `'0'` for no albums, otherwise the id of the first
      album created last. It sorts a copy, so nothing else changes. */
  function LatestAlbumId(albums: seq<Album>): (r: Id)
    ensures albums == [] ==> r == Some("0")
    ensures albums != [] ==>
              exists i :: 0 <= i < |albums| && r == albums[i].id &&
                (forall j :: 0 <= j < |albums| ==> albums[j].created <= albums[i].created) &&
                (forall j :: 0 <= j < i ==> albums[j].created < albums[i].created)
  {
    if albums == [] then Some("0") else albums[LatestIndex(albums)].id
  }

  // ---------------------------------------------------------------------
  // The reducer

  datatype LibraryState = LibraryState(latestAlbumId: Id, latest: seq<Id>, artists: seq<ArtistCount>)

  datatype LibraryAction =
    | GetLatestRequest
    | GetLatestResponse(results: seq<Album>)
    | AddToLatestAlbums(albums: seq<Album>)
    | GetArtistsRequest
    | GetArtistsResponse(artists: seq<ArtistCount>)
    | Unknown

  function InitialState(): (s: LibraryState)
    ensures s.latest == [] && s.latestAlbumId.None? && s.artists == []
  {
    LibraryState(None, [], [])
  }

  function Reduce(state: LibraryState, action: LibraryAction): (r: LibraryState)
    ensures action.GetLatestResponse? ==>
              && |r.latest| == |action.results|
              && (forall i :: 0 <= i < |r.latest| ==> r.latest[i] == action.results[i].id)
              && r.latestAlbumId == LatestAlbumId(action.results)
              && r.artists == state.artists
    ensures action.AddToLatestAlbums? ==>
              && Distinct(r.latest)
              && r.latest == Uniq(AlbumIds(action.albums)) + Outside(Uniq(state.latest), AlbumIds(action.albums))
              && r.latestAlbumId == LatestAlbumId(action.albums)
              && r.artists == state.artists
    ensures action.GetArtistsResponse? ==> r == state.(artists := action.artists)
    ensures action.GetLatestRequest? || action.GetArtistsRequest? || action.Unknown? ==> r == state
  {
    match action
    case GetLatestResponse(results) =>
      state.(latestAlbumId := LatestAlbumId(results), latest := AlbumIds(results))
    case AddToLatestAlbums(albums) =>
      UniqConcat(AlbumIds(albums), state.latest);
      UniqSpec(AlbumIds(albums) + state.latest);
      state.(latestAlbumId := LatestAlbumId(albums), latest := Uniq(AlbumIds(albums) + state.latest))
    case GetArtistsResponse(artists) => state.(artists := artists)
    case _ => state
  }

  /** After adding albums, the latest list holds exactly the new ids and
      the previous ones, each once, and the new ones come first. */
  lemma {:induction false} AddToLatestPrependsNew(state: LibraryState, albums: seq<Album>)
    ensures var r := Reduce(state, AddToLatestAlbums(albums)).latest;
            && (forall x :: x in r <==> x in AlbumIds(albums) || x in state.latest)
            && r[..|Uniq(AlbumIds(albums))|] == Uniq(AlbumIds(albums))
            && IsSubseq(r, AlbumIds(albums) + state.latest)
  {
    var ids := AlbumIds(albums);
    var r := Reduce(state, AddToLatestAlbums(albums)).latest;
    var all := ids + state.latest;
    assert r == Uniq(all);
    UniqIsSubseq(all);
    UniqSpec(all);
    forall x
      ensures x in r <==> x in ids || x in state.latest
    {
      if x in all {
        var k :| 0 <= k < |all| && all[k] == x;
      }
    }
    assert r[..|Uniq(ids)|] == Uniq(ids) by {
      UniqConcat(ids, state.latest);
    }
  }

  // ---------------------------------------------------------------------
  // removeAlbums

  /** `library.latest.map(id => albums.allById[id])`, or `None` when an id
      has no stored album (the entry is then `undefined`). */
  function CurrentAlbums(latest: seq<Id>, albums: EntityHashMap<Album>): (r: Option<seq<Album>>)
    ensures r.Some? <==> forall i :: 0 <= i < |latest| ==> PropertyKey(latest[i]) in albums.byId
    ensures r.Some? ==> |r.value| == |latest|
    ensures r.Some? ==> forall i :: 0 <= i < |latest| ==> r.value[i] == albums.byId[PropertyKey(latest[i])]
  {
    if latest == [] then Some([])
    else
      var key := PropertyKey(latest[0]);
      match CurrentAlbums(latest[1..], albums)
      case None => None
      case Some(rest) =>
        if key in albums.byId then Some([albums.byId[key]] + rest) else None
  }

  /** The latest albums that survive the removal, in their order, each as
      often as before. */
  function LatestAfterRemoval(current: seq<Album>, removed: seq<Id>): (r: seq<Album>)
    ensures forall a :: a in r <==> a in current && a.id !in removed
    ensures forall a :: multiset(r)[a] == if a.id in removed then 0 else multiset(current)[a]
    ensures IsSubseq(r, current)
  {
    var keep := (a: Album) => a.id !in removed;
    FilterIsSubseq(current, keep);
    assert forall a :: multiset(Filter(current, keep))[a] == if a.id in removed then 0 else multiset(current)[a] by {
      forall a
        ensures multiset(Filter(current, keep))[a] == if a.id in removed then 0 else multiset(current)[a]
      {
        FilterMultiset(current, keep, a);
      }
    }
    Filter(current, keep)
  }

  /** `queue.filter(id => removedIds.indexOf(id) < 0)`. */
  function QueueAfterRemoval(queue: seq<string>, removed: seq<Id>): (r: seq<string>)
    ensures IsSubseq(r, queue)
  {
    FilterIsSubseq(queue, q => Some(q) !in removed);
    Filter(queue, q => Some(q) !in removed)
  }

  /** Every occurrence of a removed id leaves the queue; every other id keeps
      its number of occurrences. */
  lemma QueueAfterRemovalCounts(queue: seq<string>, removed: seq<Id>, q: string)
    ensures multiset(QueueAfterRemoval(queue, removed))[q] == if Some(q) in removed then 0 else multiset(queue)[q]
  {
    FilterMultiset(queue, q => Some(q) !in removed, q);
  }

  /** `intersection(playlist.albums, removedIds).length > 0`. */
  predicate HasRemoved(p: Playlist, removed: seq<Id>) {
    exists j :: 0 <= j < |p.albums| && Some(p.albums[j]) in removed
  }

  /** `{ ...playlist, albums: without(playlist.albums, ...removedIds) }`. */
  function Strip(p: Playlist, removed: seq<Id>): (r: Playlist)
    ensures r == p.(albums := r.albums)
    ensures IsSubseq(r.albums, p.albums)
    ensures forall x :: x in r.albums <==> x in p.albums && Some(x) !in removed
    ensures forall x :: multiset(r.albums)[x] == if Some(x) in removed then 0 else multiset(p.albums)[x]
  {
    var keep := x => Some(x) !in removed;
    FilterIsSubseq(p.albums, keep);
    assert forall x :: multiset(Filter(p.albums, keep))[x] == if Some(x) in removed then 0 else multiset(p.albums)[x] by {
      forall x
        ensures multiset(Filter(p.albums, keep))[x] == if Some(x) in removed then 0 else multiset(p.albums)[x]
      {
        FilterMultiset(p.albums, keep, x);
      }
    }
    p.(albums := Filter(p.albums, keep))
  }

  /** The playlists to re-save: those holding a removed album, each with the
      removed albums stripped, in store order. */
  function PlaylistsToUpdate(playlists: seq<Playlist>, removed: seq<Id>): (r: seq<Playlist>)
    ensures |r| <= |playlists|
  {
    var affected := Filter(playlists, p => HasRemoved(p, removed));
    seq(|affected|, i requires 0 <= i < |affected| => Strip(affected[i], removed))
  }

  /** Every playlist to re-save is a stored playlist holding a removed album,
      stripped; every such playlist is re-saved; and there is nothing to
      re-save exactly when no playlist holds a removed album. */
  lemma PlaylistsToUpdateSpec(playlists: seq<Playlist>, removed: seq<Id>)
    ensures var r := PlaylistsToUpdate(playlists, removed);
            && (forall q :: q in r ==> exists p :: p in playlists && HasRemoved(p, removed) && q == Strip(p, removed))
            && (forall p :: p in playlists && HasRemoved(p, removed) ==> Strip(p, removed) in r)
            && (r == [] <==> forall i :: 0 <= i < |playlists| ==> !HasRemoved(playlists[i], removed))
  {
    var affected := Filter(playlists, p => HasRemoved(p, removed));
    UpdatedAreAffected(playlists, removed, affected);
    AffectedAreUpdated(playlists, removed, affected);
    NoneAffected(playlists, removed, affected);
  }

  lemma UpdatedAreAffected(playlists: seq<Playlist>, removed: seq<Id>, affected: seq<Playlist>)
    requires affected == Filter(playlists, p => HasRemoved(p, removed))
    ensures forall q :: q in PlaylistsToUpdate(playlists, removed) ==>
              exists p :: p in playlists && HasRemoved(p, removed) && q == Strip(p, removed)
  {
    var r := PlaylistsToUpdate(playlists, removed);
    forall q | q in r
      ensures exists p :: p in playlists && HasRemoved(p, removed) && q == Strip(p, removed)
    {
      var i :| 0 <= i < |r| && r[i] == q;
      var p := affected[i];
      assert p in playlists && HasRemoved(p, removed) && q == Strip(p, removed);
    }
  }

  lemma AffectedAreUpdated(playlists: seq<Playlist>, removed: seq<Id>, affected: seq<Playlist>)
    requires affected == Filter(playlists, p => HasRemoved(p, removed))
    ensures forall p :: p in playlists && HasRemoved(p, removed) ==> Strip(p, removed) in PlaylistsToUpdate(playlists, removed)
  {
    var r := PlaylistsToUpdate(playlists, removed);
    forall p | p in playlists && HasRemoved(p, removed)
      ensures Strip(p, removed) in r
    {
      var j :| 0 <= j < |playlists| && playlists[j] == p;
      assert p in affected;
      var k :| 0 <= k < |affected| && affected[k] == p;
      assert r[k] == Strip(p, removed);
    }
  }

  lemma NoneAffected(playlists: seq<Playlist>, removed: seq<Id>, affected: seq<Playlist>)
    requires affected == Filter(playlists, p => HasRemoved(p, removed))
    ensures PlaylistsToUpdate(playlists, removed) == [] <==> forall i :: 0 <= i < |playlists| ==> !HasRemoved(playlists[i], removed)
  {
    var r := PlaylistsToUpdate(playlists, removed);
    if r != [] {
      assert affected[0] in playlists && HasRemoved(affected[0], removed);
      var j :| 0 <= j < |playlists| && playlists[j] == affected[0];
    } else {
      assert affected == [];
    }
  }

  /** `playlistsToUpdate.find(({ _id }) => _id === id)`. */
  function FindPlaylist(playlists: seq<Playlist>, id: string): (r: Option<Playlist>)
    ensures r.None? <==> forall i :: 0 <= i < |playlists| ==> playlists[i].id != Some(id)
    ensures r.Some? ==> exists i :: 0 <= i < |playlists| && playlists[i] == r.value && r.value.id == Some(id) &&
                          forall j :: 0 <= j < i ==> playlists[j].id != Some(id)
  {
    if playlists == [] then None
    else if playlists[0].id == Some(id) then Some(playlists[0])
    else
      var r := FindPlaylist(playlists[1..], id);
      assert forall i :: 1 <= i < |playlists| ==> playlists[i] == playlists[1..][i - 1];
      r
  }

  /** The records dispatched after the bulk save: one per answer entry, in
      answer order, each the sent playlist with that id carrying the new
      revision. The `ok` flag of an entry is not looked at. */
  function SavedPlaylists(results: seq<SaveResult>, sent: seq<Playlist>): (r: seq<SavedRecord>)
    ensures |r| == |results|
    ensures forall i :: 0 <= i < |results| ==>
              match FindPlaylist(sent, results[i].id)
              case Some(p) => r[i] == Revised(p.(rev := Some(results[i].rev)))
              case None => r[i] == RevOnly(results[i].rev)
  {
    seq(|results|, i requires 0 <= i < |results| =>
      match FindPlaylist(sent, results[i].id)
      case Some(p) => Revised(p.(rev := Some(results[i].rev)))
      case None => RevOnly(results[i].rev))
  }

  /** `removeAlbums`: ask the main process to delete the albums; when it
      reports no deletion stop; otherwise dispatch the latest albums and the
      queue without the removed ids, and, only if some playlist held a
      removed album, save those playlists stripped of them and dispatch the
      saved records. `deleted` is the number of entries the delete answers
      with and `saveResults` the answer to the playlist save. A latest id
      without a stored album makes the latest-albums filter throw. */
  method RemoveAlbums(
    latest: seq<Id>, albums: EntityHashMap<Album>, queue: seq<string>, playlists: EntityHashMap<Playlist>,
    albumsToRemove: seq<Album>, deleted: nat, saveResults: seq<SaveResult>)
    returns (effects: seq<LibraryEffect>)
    ensures |effects| >= 1 && effects[0] == InvokeDeleteAlbums(albumsToRemove)
    ensures deleted == 0 ==> effects == [InvokeDeleteAlbums(albumsToRemove)]
    ensures deleted > 0 && CurrentAlbums(latest, albums).None? ==>
              effects == [InvokeDeleteAlbums(albumsToRemove), Crash]
    ensures deleted > 0 && CurrentAlbums(latest, albums).Some? ==>
              var removed := AlbumIds(albumsToRemove);
              var toUpdate := PlaylistsToUpdate(ToArray(playlists), removed);
              && |effects| >= 3
              && effects[1] == DispatchLatestResponse(LatestAfterRemoval(CurrentAlbums(latest, albums).value, removed))
              && effects[2] == DispatchUpdateQueue(QueueAfterRemoval(queue, removed))
              && (toUpdate == [] ==> |effects| == 3)
              && (toUpdate != [] ==>
                    effects[3..] == [InvokeSavePlaylists(toUpdate), DispatchPlaylistListResponse(SavedPlaylists(saveResults, toUpdate))])
  {
    var current := CurrentAlbums(latest, albums);
    var removed := AlbumIds(albumsToRemove);
    if deleted == 0 {
      return [InvokeDeleteAlbums(albumsToRemove)];
    }
    if current.None? {
      return [InvokeDeleteAlbums(albumsToRemove), Crash];
    }
    var first := [
      InvokeDeleteAlbums(albumsToRemove),
      DispatchLatestResponse(LatestAfterRemoval(current.value, removed)),
      DispatchUpdateQueue(QueueAfterRemoval(queue, removed))];
    var toUpdate := PlaylistsToUpdate(ToArray(playlists), removed);
    if toUpdate == [] {
      return first;
    }
    var rest := [InvokeSavePlaylists(toUpdate), DispatchPlaylistListResponse(SavedPlaylists(saveResults, toUpdate))];
    effects := first + rest;
    assert effects[3..] == rest;
  }

  /** No playlist that survives the cascade still lists a removed album. */
  lemma StrippedPlaylistsHoldNoRemoved(playlists: seq<Playlist>, removed: seq<Id>)
    ensures forall i :: 0 <= i < |PlaylistsToUpdate(playlists, removed)| ==>
              !HasRemoved(PlaylistsToUpdate(playlists, removed)[i], removed)
  {
    var r := PlaylistsToUpdate(playlists, removed);
    PlaylistsToUpdateSpec(playlists, removed);
    forall i | 0 <= i < |r|
      ensures !HasRemoved(r[i], removed)
    {
      assert r[i] in r;
      var p :| p in playlists && HasRemoved(p, removed) && r[i] == Strip(p, removed);
      assert forall j :: 0 <= j < |r[i].albums| ==> r[i].albums[j] in r[i].albums;
    }
  }

  // ---------------------------------------------------------------------
  // getArtists

  /** `getArtists`: nothing when artists are already loaded; otherwise ask
      for the artist statistics (`stats` is the answer) and dispatch them as
      `{ name, count }` entries in the same order. */
  method GetArtists(library: LibraryState, stats: seq<StatRow>) returns (effects: seq<LibraryEffect>)
    ensures |library.artists| > 0 ==> effects == []
    ensures |library.artists| == 0 ==>
              && |effects| == 2
              && effects[0] == InvokeStats("artist")
              && effects[1].DispatchArtistsResponse?
              && |effects[1].artists| == |stats|
              && forall i :: 0 <= i < |stats| ==>
                   effects[1].artists[i] == ArtistCount(stats[i].key, stats[i].value)
  {
    if |library.artists| > 0 {
      return [];
    }
    effects := [InvokeStats("artist")];
    var artists: seq<ArtistCount> := [];
    var i := 0;
    while i < |stats|
      invariant 0 <= i <= |stats|
      invariant |artists| == i
      invariant forall j :: 0 <= j < i ==> artists[j] == ArtistCount(stats[j].key, stats[j].value)
    {
      artists := artists + [ArtistCount(stats[i].key, stats[i].value)];
      i := i + 1;
    }
    effects := effects + [DispatchArtistsResponse(artists)];
  }
}
