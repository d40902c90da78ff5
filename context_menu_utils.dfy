/** The album and playlist context menus (`contextMenuUtils`): their item
    builders, the after-every-group layout, and `openContextMenu`, which
    fills an Electron `Menu` item by item. */
module ContextMenuUtils {
  import opened Wrappers
  import opened Seqs
  import opened StoreUtils
  import opened Playlists
  import opened Menus
  import LibraryStore

  const RemoveFromPlaylistTitle := "Remove selected album(s) from playlist"

  /** `removeAlbumActions`: one item that saves the playlist without the
      selected albums. */
  function RemoveAlbumItems(playlist: Playlist, selection: seq<Id>): (r: seq<MenuItem>)
    ensures |r| == 1 && r[0] == Item(RemoveFromPlaylistTitle,
                                     Perform([DispatchSavePlaylist(LibraryStore.Strip(playlist, selection))]))
  {
    [Item(RemoveFromPlaylistTitle, Perform([DispatchSavePlaylist(LibraryStore.Strip(playlist, selection))]))]
  }

  /** The playlist saved by the remove item keeps every field but `albums`,
      and its albums are the old ones, in order, less the selection, each
      kept album as often as before. */
  lemma RemoveAlbumItemsSaves(playlist: Playlist, selection: seq<Id>)
    ensures var saved := RemoveAlbumItems(playlist, selection)[0].click.effects[0].playlist;
            saved.(albums := playlist.albums) == playlist &&
            IsSubseq(saved.albums, playlist.albums) &&
            (forall x :: x in saved.albums <==> x in playlist.albums && Some(x) !in selection) &&
            forall x :: multiset(saved.albums)[x] == if Some(x) in selection then 0 else multiset(playlist.albums)[x]
  {
  }

  /** `playbackActions`: play the album. */
  function PlaybackItems(album: Album): (r: seq<MenuItem>)
    ensures |r| == 1
    ensures r[0] == Item("Play '" + FullTitle(album) + "'", Perform([DispatchPlayTrack(None, album.id, None)]))
  {
    [Item("Play '" + FullTitle(album) + "'", Perform([DispatchPlayTrack(None, album.id, None)]))]
  }

  /** `enqueueActions`: enqueue the album's id after the current album, or
      at the end. */
  function EnqueueItems(album: Album): (r: seq<MenuItem>)
    ensures |r| == 2
    ensures r[0] == Item("Enqueue '" + FullTitle(album) + "' after current album",
                         Perform([DispatchEnqueueOneAfterCurrent(album.id)]))
    ensures r[1] == Item("Enqueue '" + FullTitle(album) + "' at the end", Perform([DispatchEnqueueOneAtEnd(album.id)]))
  {
    [Item("Enqueue '" + FullTitle(album) + "' after current album", Perform([DispatchEnqueueOneAfterCurrent(album.id)])),
     Item("Enqueue '" + FullTitle(album) + "' at the end", Perform([DispatchEnqueueOneAtEnd(album.id)]))]
  }

  /** `systemActions`: reveal the folder, reload the tracks. */
  function SystemItems(album: Album): (r: seq<MenuItem>)
    ensures |r| == 2
    ensures r[0] == Item("Reveal '" + FullTitle(album) + "' in Finder", Perform([SendRevealInFinder(album.path)]))
    ensures r[1] == Item("Reload '" + FullTitle(album) + "' tracks", Perform([DispatchReloadAlbumContent(album)]))
  {
    [Item("Reveal '" + FullTitle(album) + "' in Finder", Perform([SendRevealInFinder(album.path)])),
     Item("Reload '" + FullTitle(album) + "' tracks", Perform([DispatchReloadAlbumContent(album)]))]
  }

  /** `searchOnlineActions`: search rateyourmusic and Discogs for the
      album's artist and title. */
  function SearchOnlineItems(album: Album): (r: seq<MenuItem>)
    ensures |r| == 2
    ensures r[0] == Item("Search '" + FullTitle(album) + "' on rateyourmusic",
                         Perform([SendOpenUrl(Rym, album.artist + " " + album.title)]))
    ensures r[1] == Item("Search '" + FullTitle(album) + "' on Discogs",
                         Perform([SendOpenUrl(Discogs, album.artist + " " + album.title)]))
  {
    var query := album.artist + " " + album.title;
    [Item("Search '" + FullTitle(album) + "' on rateyourmusic", Perform([SendOpenUrl(Rym, query)])),
     Item("Search '" + FullTitle(album) + "' on Discogs", Perform([SendOpenUrl(Discogs, query)]))]
  }

  datatype AlbumActionItem = Playback | Enqueue | System | SearchOnline

  /** `actionsMap[action](album)`. */
  function ActionItems(action: AlbumActionItem, album: Album): (r: seq<MenuItem>)
    ensures |r| == (if action.Playback? then 1 else 2)
    ensures forall j :: 0 <= j < |r| ==> r[j].Item?
  {
    match action
    case Playback => PlaybackItems(album)
    case Enqueue => EnqueueItems(album)
    case System => SystemItems(album)
    case SearchOnline => SearchOnlineItems(album)
  }

  function AllActionItems(actions: seq<AlbumActionItem>, album: Album): (r: seq<seq<MenuItem>>)
    ensures |r| == |actions|
    ensures forall k :: 0 <= k < |actions| ==> r[k] == ActionItems(actions[k], album)
    ensures Plain(r)
  {
    seq(|actions|, k requires 0 <= k < |actions| => ActionItems(actions[k], album))
  }

  /** `getAlbumContextMenuActions`: the groups' items, each group followed
      by a separator (the last one too); no actions give an empty menu. */
  function GetAlbumContextMenuActions(album: Album, actions: Option<seq<AlbumActionItem>>): (r: seq<MenuItem>)
    ensures actions.GetOr([]) == [] ==> r == []
    ensures r == Terminated(AllActionItems(actions.GetOr([]), album))
  {
    AfterEachGroup(AllActionItems(actions.GetOr([]), album))
  }

  /** The number of items an album action group holds. */
  function GroupSize(action: AlbumActionItem): nat {
    if action.Playback? then 1 else 2
  }

  function SumSizes(actions: seq<AlbumActionItem>): nat {
    if actions == [] then 0 else GroupSize(actions[0]) + SumSizes(actions[1..])
  }

  lemma {:induction false} AllActionItemsSize(actions: seq<AlbumActionItem>, album: Album)
    ensures SumLengths(AllActionItems(actions, album)) == SumSizes(actions)
  {
    if actions != [] {
      AllActionItemsSize(actions[1..], album);
      assert AllActionItems(actions, album)[1..] == AllActionItems(actions[1..], album);
    }
  }

  /** The album menu has one entry per item of every group plus one
      separator per group, the last entry being a separator. */
  lemma AlbumMenuShape(album: Album, actions: seq<AlbumActionItem>)
    ensures var r := GetAlbumContextMenuActions(album, Some(actions));
            |r| == SumSizes(actions) + |actions| &&
            |Filter(r, IsSeparator)| == |actions| &&
            Filter(r, (m: MenuItem) => !IsSeparator(m)) == Flatten(AllActionItems(actions, album)) &&
            (actions != [] ==> r[|r| - 1] == Separator)
  {
    AllActionItemsSize(actions, album);
    TerminatedSeparators(AllActionItems(actions, album));
  }

  /** `getPlaylistContextMenuActions`: the remove item; no selection means
      none. */
  function GetPlaylistContextMenuActions(playlist: Playlist, selection: Option<seq<Id>>): (r: seq<MenuItem>)
    ensures r == RemoveAlbumItems(playlist, selection.GetOr([]))
  {
    RemoveAlbumItems(playlist, selection.GetOr([]))
  }

  /** With the default empty selection, the playlist menu's only item saves
      the playlist unchanged. */
  lemma PlaylistMenuDefault(playlist: Playlist)
    ensures GetPlaylistContextMenuActions(playlist, None) ==
            [Item(RemoveFromPlaylistTitle, Perform([DispatchSavePlaylist(playlist)]))]
  {
    var stripped := LibraryStore.Strip(playlist, []);
    FilterAll(playlist.albums, x => Some(x) !in []);
    assert stripped == playlist;
  }

  /** What `openContextMenu` is given for one group. */
  datatype ContextMenuParams =
    | AlbumMenu(album: Album, actions: Option<seq<AlbumActionItem>>)
    | PlaylistMenu(playlist: Playlist, selection: Option<seq<Id>>)

  function GroupOf(p: ContextMenuParams): (r: seq<MenuItem>)
    ensures p.AlbumMenu? ==> r == GetAlbumContextMenuActions(p.album, p.actions)
    ensures p.PlaylistMenu? ==> r == GetPlaylistContextMenuActions(p.playlist, p.selection)
  {
    match p
    case AlbumMenu(album, actions) => GetAlbumContextMenuActions(album, actions)
    case PlaylistMenu(playlist, selection) => GetPlaylistContextMenuActions(playlist, selection)
  }

  function GroupsOf(params: seq<ContextMenuParams>): (r: seq<seq<MenuItem>>)
    ensures |r| == |params|
    ensures forall k :: 0 <= k < |params| ==> r[k] == GroupOf(params[k])
  {
    seq(|params|, k requires 0 <= k < |params| => GroupOf(params[k]))
  }

  /** An Electron `Menu`: the items appended so far. */
  class ContextMenu {
    var items: seq<MenuItem>

    constructor ()
      ensures items == []
    {
      items := [];
    }

    /** `menu.append(new MenuItem(item))`. */
    method Append(item: MenuItem)
      modifies this
      ensures items == old(items) + [item]
    {
      items := items + [item];
    }

    /** `group.forEach(item => menu.append(new MenuItem(item)))`. */
    method AppendAll(group: seq<MenuItem>)
      modifies this
      ensures items == old(items) + group
    {
      var j := 0;
      while j < |group|
        invariant 0 <= j <= |group|
        invariant items == old(items) + group[..j]
      {
        Append(group[j]);
        assert group[..j + 1] == group[..j] + [group[j]];
        j := j + 1;
      }
      assert group[..j] == group;
    }
  }

  /** `openContextMenu`: a fresh menu holding every group's items in order,
      each group followed by a separator (`index < groups.length` always
      holds). Showing the menu is not modelled. */
  method OpenContextMenu(params: seq<ContextMenuParams>) returns (menu: ContextMenu)
    ensures fresh(menu)
    ensures menu.items == Terminated(GroupsOf(params))
    ensures |menu.items| == SumLengths(GroupsOf(params)) + |params|
  {
    menu := new ContextMenu();
    var groups := GroupsOf(params);
    var index := 0;
    while index < |groups|
      invariant 0 <= index <= |groups|
      invariant menu.items == Terminated(groups[..index])
    {
      var group := groups[index];
      menu.AppendAll(group);
      if index < |groups| {
        menu.Append(Separator);
      }
      assert menu.items == Terminated(groups[..index + 1]) by {
        TakeSnoc(groups, index);
        TerminatedSnoc(groups[..index], group);
      }
      index := index + 1;
    }
    assert groups[..index] == groups;
    TerminatedLength(groups);
  }
}
