/** The album context-menu actions: one action creator per entry of
    `AlbumActionsMap`, the groups of `actionGroupsMap`, and `getActionGroups`,
    which lays the groups out with a separator between consecutive groups.
    A creator that reads `albums[0]` throws on an empty album list; that is
    modelled as `None`. */
module AlbumActions {
  import opened Wrappers
  import opened Seqs
  import opened StoreUtils
  import opened Menus
  import LibraryStore

  /** What every album action creator is given. */
  datatype ActionParams = ActionParams(albums: seq<Album>, queue: Option<seq<string>>, playlistId: Id, trackId: Id)

  /** An action: the menu label and the click handler. */
  datatype Action = Action(title: string, click: Command)

  /** `createSearchAction(url, siteName)`: search for the first album's
      artist and title. */
  function SearchAction(url: SearchUrl, siteName: string, params: ActionParams): (r: Option<Action>)
    ensures r.None? <==> params.albums == []
    ensures r.Some? ==> r.value.title == "Search '" + FullTitle(params.albums[0]) + "' on " + siteName
    ensures r.Some? ==> r.value.click == Perform([SendOpenUrl(url, params.albums[0].artist + " " + params.albums[0].title)])
  {
    if params.albums == [] then None
    else
      var album := params.albums[0];
      Some(Action("Search '" + FullTitle(album) + "' on " + siteName,
                  Perform([SendOpenUrl(url, album.artist + " " + album.title)])))
  }

  /** `createSearchArtistAction(url, siteName)`: search for the first
      album's artist alone. */
  function SearchArtistAction(url: SearchUrl, siteName: string, params: ActionParams): (r: Option<Action>)
    ensures r.None? <==> params.albums == []
    ensures r.Some? ==> r.value.title == "Search '" + params.albums[0].artist + "' on " + siteName
    ensures r.Some? ==> r.value.click == Perform([SendOpenUrl(url, params.albums[0].artist)])
  {
    if params.albums == [] then None
    else
      var artist := params.albums[0].artist;
      Some(Action("Search '" + artist + "' on " + siteName, Perform([SendOpenUrl(url, artist)])))
  }

  /** The search actions read only the first album's artist and title, and
      the artist variant only its artist. */
  lemma SearchReadsFirstAlbum(url: SearchUrl, siteName: string, p: ActionParams, q: ActionParams)
    requires p.albums != [] && q.albums != []
    requires p.albums[0].artist == q.albums[0].artist
    ensures p.albums[0].title == q.albums[0].title ==> SearchAction(url, siteName, p) == SearchAction(url, siteName, q)
    ensures SearchArtistAction(url, siteName, p) == SearchArtistAction(url, siteName, q)
  {
  }

  /** `playAlbumAction`: replace the queue, then play the first album in
      the given playlist from the given track. */
  function PlayAlbumAction(params: ActionParams): (r: Option<Action>)
    ensures r.None? <==> params.albums == []
    ensures r.Some? ==> r.value.title == "Play '" + FullTitle(params.albums[0]) + "'"
    ensures r.Some? ==> r.value.click.Perform? && |r.value.click.effects| == 2
    ensures r.Some? ==> r.value.click.effects[0] == DispatchUpdateQueue(params.queue)
    ensures r.Some? ==> r.value.click.effects[1] ==
                          DispatchPlayTrack(params.playlistId, params.albums[0].id, params.trackId)
  {
    if params.albums == [] then None
    else
      var album := params.albums[0];
      Some(Action("Play '" + FullTitle(album) + "'",
                  Perform([DispatchUpdateQueue(params.queue),
                           DispatchPlayTrack(params.playlistId, album.id, params.trackId)])))
  }

  /** `enqueueAfterCurrentAction`: enqueue the ids of all given albums, in
      order, after the current album. */
  function EnqueueAfterCurrentAction(params: ActionParams): (r: Action)
    ensures r.title == "Enqueue after current album"
    ensures r.click == Perform([DispatchEnqueueAfterCurrent(LibraryStore.AlbumIds(params.albums))])
  {
    Action("Enqueue after current album",
           Perform([DispatchEnqueueAfterCurrent(LibraryStore.AlbumIds(params.albums))]))
  }

  /** `enqueueAtEndAction`: enqueue the ids of all given albums, in order,
      at the end. */
  function EnqueueAtEndAction(params: ActionParams): (r: Action)
    ensures r.title == "Enqueue at the end"
    ensures r.click == Perform([DispatchEnqueueAtEnd(LibraryStore.AlbumIds(params.albums))])
  {
    Action("Enqueue at the end", Perform([DispatchEnqueueAtEnd(LibraryStore.AlbumIds(params.albums))]))
  }

  /** `removeFromQueueAction`: dispatch the queue without the given albums;
      with no queue given, `queue.filter` throws when clicked. */
  function RemoveFromQueueAction(params: ActionParams): (r: Action)
    ensures r.title == "Remove from queue"
    ensures params.queue.None? ==> r.click == Perform([Crash])
    ensures params.queue.Some? ==>
              r.click == Perform([DispatchUpdateQueue(Some(LibraryStore.QueueAfterRemoval(
                                    params.queue.value, LibraryStore.AlbumIds(params.albums))))])
  {
    Action("Remove from queue",
           match params.queue
           case None => Perform([Crash])
           case Some(queue) =>
             Perform([DispatchUpdateQueue(Some(LibraryStore.QueueAfterRemoval(queue, LibraryStore.AlbumIds(params.albums))))]))
  }

  /** The queue the remove-from-queue click dispatches keeps every other
      entry, as often as it occurs and in order, and drops every occurrence
      of a given album. */
  lemma RemoveFromQueueKeepsOthers(params: ActionParams, q: string)
    requires params.queue.Some?
    ensures var c := RemoveFromQueueAction(params).click;
            c.Perform? && |c.effects| == 1 && c.effects[0].DispatchUpdateQueue? && c.effects[0].queue.Some? &&
            IsSubseq(c.effects[0].queue.value, params.queue.value) &&
            multiset(c.effects[0].queue.value)[q] ==
              if Some(q) in LibraryStore.AlbumIds(params.albums) then 0
              else multiset(params.queue.value)[q]
  {
    LibraryStore.QueueAfterRemovalCounts(params.queue.value, LibraryStore.AlbumIds(params.albums), q);
  }

  /** `revealInFinderAction`: show the first album's folder. */
  function RevealInFinderAction(params: ActionParams): (r: Option<Action>)
    ensures r.None? <==> params.albums == []
    ensures r.Some? ==> r.value.title == "Reveal '" + FullTitle(params.albums[0]) + "' in Finder"
    ensures r.Some? ==> r.value.click == Perform([SendRevealInFinder(params.albums[0].path)])
  {
    if params.albums == [] then None
    else
      var album := params.albums[0];
      Some(Action("Reveal '" + FullTitle(album) + "' in Finder", Perform([SendRevealInFinder(album.path)])))
  }

  /** `reloadAlbumContentAction`: reload the first album's tracks. */
  function ReloadAlbumContentAction(params: ActionParams): (r: Option<Action>)
    ensures r.None? <==> params.albums == []
    ensures r.Some? ==> r.value.title == "Reload '" + FullTitle(params.albums[0]) + "' tracks"
    ensures r.Some? ==> r.value.click == Perform([DispatchReloadAlbumContent(params.albums[0])])
  {
    if params.albums == [] then None
    else
      var album := params.albums[0];
      Some(Action("Reload '" + FullTitle(album) + "' tracks", Perform([DispatchReloadAlbumContent(album)])))
  }

  datatype AlbumActionId =
    | PlayAlbum | EnqueueAfterCurrent | EnqueueAtEnd | RemoveFromQueue | RevealInFinder
    | ReloadAlbumContent | SearchOnRym | SearchOnDiscogs | SearchOnYoutube | SearchArtistOnRym

  /** The actions that read `albums[0]` when created. */
  predicate NeedsAlbum(id: AlbumActionId) {
    !(id.EnqueueAfterCurrent? || id.EnqueueAtEnd? || id.RemoveFromQueue?)
  }

  /** `AlbumActionsMap[id](params)`. */
  function CreateAction(id: AlbumActionId, params: ActionParams): (r: Option<Action>)
    ensures r.None? <==> NeedsAlbum(id) && params.albums == []
  {
    match id
    case PlayAlbum => PlayAlbumAction(params)
    case EnqueueAfterCurrent => Some(EnqueueAfterCurrentAction(params))
    case EnqueueAtEnd => Some(EnqueueAtEndAction(params))
    case RemoveFromQueue => Some(RemoveFromQueueAction(params))
    case RevealInFinder => RevealInFinderAction(params)
    case ReloadAlbumContent => ReloadAlbumContentAction(params)
    case SearchOnRym => SearchAction(Rym, "rateyourmusic", params)
    case SearchOnDiscogs => SearchAction(Discogs, "Discogs", params)
    case SearchOnYoutube => SearchAction(Youtube, "Youtube", params)
    case SearchArtistOnRym => SearchArtistAction(RymArtist, "rateyourmusic", params)
  }

  datatype ActionGroup = Playback | Enqueue | Queue | System | SearchOnline | Artist

  /** `actionGroupsMap`. */
  function GroupActions(g: ActionGroup): (r: seq<AlbumActionId>)
    ensures g.Playback? ==> r == [PlayAlbum]
    ensures g.Enqueue? ==> r == [EnqueueAfterCurrent, EnqueueAtEnd]
    ensures g.Queue? ==> r == [RemoveFromQueue]
    ensures g.System? ==> r == [RevealInFinder, ReloadAlbumContent]
    ensures g.SearchOnline? ==> r == [SearchOnRym, SearchOnDiscogs, SearchOnYoutube]
    ensures g.Artist? ==> r == [SearchArtistOnRym]
  {
    match g
    case Playback => [PlayAlbum]
    case Enqueue => [EnqueueAfterCurrent, EnqueueAtEnd]
    case Queue => [RemoveFromQueue]
    case System => [RevealInFinder, ReloadAlbumContent]
    case SearchOnline => [SearchOnRym, SearchOnDiscogs, SearchOnYoutube]
    case Artist => [SearchArtistOnRym]
  }

  /** The menu items of a list of actions, `{ label: title, click: handler }`
      each, in order; `None` when a creator throws. */
  function ActionItems(ids: seq<AlbumActionId>, params: ActionParams): (r: Option<seq<MenuItem>>)
    ensures r.None? <==> params.albums == [] && exists i :: 0 <= i < |ids| && NeedsAlbum(ids[i])
    ensures r.Some? ==> |r.value| == |ids|
    ensures r.Some? ==> forall i :: 0 <= i < |ids| ==>
              r.value[i] == Item(CreateAction(ids[i], params).value.title, CreateAction(ids[i], params).value.click)
  {
    if ids == [] then Some([])
    else
      var head := CreateAction(ids[0], params);
      var rest := ActionItems(ids[1..], params);
      assert forall i :: 1 <= i < |ids| ==> ids[i] == ids[1..][i - 1];
      if head.None? || rest.None? then None
      else Some([Item(head.value.title, head.value.click)] + rest.value)
  }

  /** The items of every group, `None` when a creator throws. */
  function GroupItems(groups: seq<ActionGroup>, params: ActionParams): (r: Option<seq<seq<MenuItem>>>)
    ensures r.Some? ==> |r.value| == |groups|
    ensures r.Some? ==> forall k :: 0 <= k < |groups| ==> Some(r.value[k]) == ActionItems(GroupActions(groups[k]), params)
    ensures r.None? ==> exists k :: 0 <= k < |groups| && ActionItems(GroupActions(groups[k]), params).None?
    ensures params.albums != [] ==> r.Some?
  {
    if groups == [] then Some([])
    else
      var head := ActionItems(GroupActions(groups[0]), params);
      var rest := GroupItems(groups[1..], params);
      assert forall k :: 1 <= k < |groups| ==> groups[k] == groups[1..][k - 1];
      if head.None? || rest.None? then None
      else Some([head.value] + rest.value)
  }

  /** `getActionGroups`: the groups' items in order with one separator
      between consecutive groups; no groups give an empty menu. */
  function GetActionGroups(actionGroups: Option<seq<ActionGroup>>, params: ActionParams): (r: Option<seq<MenuItem>>)
    ensures actionGroups.GetOr([]) == [] ==> r == Some([])
    ensures r.Some? <==> GroupItems(actionGroups.GetOr([]), params).Some?
    ensures r.Some? ==> r.value == Joined(GroupItems(actionGroups.GetOr([]), params).value)
    ensures params.albums != [] ==> r.Some?
  {
    var items := GroupItems(actionGroups.GetOr([]), params);
    if items.None? then None else Some(BetweenGroups(items.value))
  }

  /** The number of actions in a group. */
  function GroupSize(g: ActionGroup): nat {
    |GroupActions(g)|
  }

  function SumSizes(groups: seq<ActionGroup>): nat {
    if groups == [] then 0 else GroupSize(groups[0]) + SumSizes(groups[1..])
  }

  lemma {:induction false} GroupItemsShape(groups: seq<ActionGroup>, params: ActionParams)
    requires GroupItems(groups, params).Some?
    ensures SumLengths(GroupItems(groups, params).value) == SumSizes(groups)
    ensures Plain(GroupItems(groups, params).value)
  {
    var items := GroupItems(groups, params).value;
    if groups != [] {
      var head := ActionItems(GroupActions(groups[0]), params);
      var rest := GroupItems(groups[1..], params);
      assert head.Some? && rest.Some? && items == [head.value] + rest.value;
      GroupItemsShape(groups[1..], params);
      assert |head.value| == GroupSize(groups[0]);
      assert items[1..] == rest.value;
      PlainCons(head.value, rest.value);
    }
  }

  /** With at least one album, the menu holds every action of every group
      once, in the order of the group map, plus one separator between
      consecutive groups: its length is the sum of the group sizes plus the
      number of groups less one, of which exactly that many are separators. */
  lemma GetActionGroupsCounts(actionGroups: seq<ActionGroup>, params: ActionParams)
    requires actionGroups != [] && params.albums != []
    ensures var r := GetActionGroups(Some(actionGroups), params).value;
            |r| == SumSizes(actionGroups) + |actionGroups| - 1 &&
            |Filter(r, IsSeparator)| == |actionGroups| - 1 &&
            Filter(r, (m: MenuItem) => !IsSeparator(m)) == Flatten(GroupItems(actionGroups, params).value)
  {
    GroupItemsShape(actionGroups, params);
    JoinedSeparators(GroupItems(actionGroups, params).value);
  }
}
