/** The album slice of the renderer store: albums keyed by `_id`. */
module AlbumStore {
  import opened Wrappers
  import opened StoreUtils

  /** An album record. `created` is an ISO timestamp in the source; it is
      kept here as an opaque comparable number. */
  datatype Album = Album(
    id: Id,
    artist: string,
    title: string,
    year: Option<int>,
    albumType: string,
    created: int,
    path: string,
    tracks: seq<string>)

  /** The key an album is stored under. */
  function Key(a: Album): string {
    PropertyKey(a.id)
  }

  /** A fresh album: no id, no year, empty text fields and track list,
      type `album`, created at `now`. */
  function DefaultAlbum(now: int): (a: Album)
    ensures a.id.None? && Key(a) == "null"
    ensures a.artist == "" && a.title == "" && a.path == "" && a.tracks == []
    ensures a.albumType == "album" && a.year.None? && a.created == now
  {
    Album(None, "", "", None, "album", now, "", [])
  }

  datatype AlbumState = AlbumState(allById: EntityHashMap<Album>)

  datatype AlbumAction =
    | GetListRequest(ids: seq<string>)
    | GetListResponse(results: seq<Album>)
    | GetContentRequest(requested: Album)
    | GetContentResponse(album: Album)
    | Unknown

  function InitialState(): (s: AlbumState)
    ensures s.allById.byId == map[] && s.allById.keys == []
  {
    AlbumState(Empty())
  }

  /** The album reducer. `ensureAll` fills missing fields from the default
      album; every modelled album already has all of them, so it is the
      identity here. */
  function Reduce(state: AlbumState, action: AlbumAction): (r: AlbumState)
    ensures action.GetContentResponse? ==>
              r.allById.byId == state.allById.byId[Key(action.album) := action.album]
    ensures action.GetListResponse? ==>
              forall k :: k in state.allById.byId ==> k in r.allById.byId
    ensures !action.GetListResponse? && !action.GetContentResponse? ==> r == state
  {
    match action
    case GetListResponse(results) => AlbumState(Merge(state.allById, ToObj(results, Key)))
    case GetContentResponse(album) => AlbumState(UpdateId(state.allById, Key(album), album))
    case _ => state
  }

  /** After a list response every result can be found under its id (the
      last one wins for a repeated id), the albums not in the response are
      untouched, and no other key appears. */
  lemma ListResponseMerges(state: AlbumState, results: seq<Album>)
    ensures forall i :: 0 <= i < |results| && (forall j :: i < j < |results| ==> Key(results[j]) != Key(results[i])) ==>
              Reduce(state, GetListResponse(results)).allById.byId[Key(results[i])] == results[i]
    ensures forall k :: k in state.allById.byId && (forall i :: 0 <= i < |results| ==> Key(results[i]) != k) ==>
              Reduce(state, GetListResponse(results)).allById.byId[k] == state.allById.byId[k]
    ensures forall k :: k in Reduce(state, GetListResponse(results)).allById.byId ==>
              k in state.allById.byId || exists i :: 0 <= i < |results| && Key(results[i]) == k
  {
    MergeToObj(state.allById, results, Key);
  }
}
