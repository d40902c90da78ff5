/** The track slice of the renderer store: tracks keyed by `_id`. */
module TrackStore {
  import opened Wrappers
  import opened StoreUtils

  /** A track record; `number` and `duration` are `null` until known. */
  datatype Track = Track(
    id: Id,
    path: string,
    found: bool,
    artist: string,
    title: string,
    number: Option<int>,
    duration: Option<int>)

  /** The key a track is stored under. */
  function Key(t: Track): string {
    PropertyKey(t.id)
  }

  /** A fresh track: no id, not found, empty text fields, no number and no
      duration. */
  function DefaultTrack(): (t: Track)
    ensures t.id.None? && Key(t) == "null"
    ensures !t.found && t.number.None? && t.duration.None?
    ensures t.path == "" && t.artist == "" && t.title == ""
  {
    Track(None, "", false, "", "", None, None)
  }

  datatype TrackState = TrackState(allById: EntityHashMap<Track>)

  datatype TrackAction =
    | GetListRequest(ids: seq<string>)
    | GetListResponse(results: seq<Track>)
    | Unknown

  function InitialState(): (s: TrackState)
    ensures s.allById.byId == map[] && s.allById.keys == []
  {
    TrackState(Empty())
  }

  /** The track reducer; `ensureAll` is the identity on complete tracks. */
  function Reduce(state: TrackState, action: TrackAction): (r: TrackState)
    ensures action.GetListResponse? ==>
              forall k :: k in state.allById.byId ==> k in r.allById.byId
    ensures !action.GetListResponse? ==> r == state
  {
    match action
    case GetListResponse(results) => TrackState(Merge(state.allById, ToObj(results, Key)))
    case _ => state
  }

  /** A list response adds every result under its id (a later result
      replaces an earlier one and any stored track with that id), keeps every
      track not in the response, and adds no other key. */
  lemma ListResponseMerges(state: TrackState, results: seq<Track>)
    ensures forall i :: 0 <= i < |results| ==> Key(results[i]) in Reduce(state, GetListResponse(results)).allById.byId
    ensures forall i :: 0 <= i < |results| && (forall j :: i < j < |results| ==> Key(results[j]) != Key(results[i])) ==>
              Reduce(state, GetListResponse(results)).allById.byId[Key(results[i])] == results[i]
    ensures forall k :: k in state.allById.byId && (forall i :: 0 <= i < |results| ==> Key(results[i]) != k) ==>
              Reduce(state, GetListResponse(results)).allById.byId[k] == state.allById.byId[k]
    ensures forall k :: k in Reduce(state, GetListResponse(results)).allById.byId ==>
              k in state.allById.byId || exists i :: 0 <= i < |results| && Key(results[i]) == k
  {
    MergeToObj(state.allById, results, Key);
  }
}
