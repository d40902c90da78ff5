/** The waveform slice of the renderer store: the saved waveform image path
    of each track, keyed by track `_id`. */
module WaveformStore {
  import opened StoreUtils
  import TrackStore

  type Track = TrackStore.Track

  datatype WaveformState = WaveformState(allById: EntityHashMap<string>)

  datatype WaveformAction =
    | GetRequest(requested: Track)
    | GetResponse(track: Track, path: string)
    | Unknown

  function InitialState(): (s: WaveformState)
    ensures s.allById.byId == map[] && s.allById.keys == []
  {
    WaveformState(Empty())
  }

  /** The waveform reducer: `{ ...allById, ...{ [track._id]: path } }`. */
  function Reduce(state: WaveformState, action: WaveformAction): (r: WaveformState)
    ensures action.GetResponse? ==>
              && TrackStore.Key(action.track) in r.allById.byId
              && r.allById.byId[TrackStore.Key(action.track)] == action.path
              && (forall k :: k != TrackStore.Key(action.track) ==>
                    (k in r.allById.byId <==> k in state.allById.byId))
              && (forall k :: k != TrackStore.Key(action.track) && k in state.allById.byId ==>
                    r.allById.byId[k] == state.allById.byId[k])
    ensures !action.GetResponse? ==> r == state
  {
    match action
    case GetResponse(track, path) =>
      var key := TrackStore.Key(track);
      var single := UpdateId(Empty(), key, path);
      var merged := Merge(state.allById, single);
      MergeSingle(state.allById, key, path);
      WaveformState(merged)
    case _ => state
  }
}
