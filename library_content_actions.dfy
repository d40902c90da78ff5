/** The library-content context menu: the remove-from-library action with
    its "album in playback" guard, and `getActionGroups`, which puts a
    separator after every group. */
module LibraryContentActions {
  import opened Wrappers
  import opened Seqs
  import opened StoreUtils
  import opened Text
  import opened Menus
  import LibraryStore

  const RemoveAlbumsTitle := "Remove selected album(s) from library"

  /** The confirmation the remove action asks for. */
  function ConfirmMessage(count: nat): (r: string)
    ensures r == "You are about to delete " + NatToString(count) + " album(s) from your library, are you sure?"
  {
    "You are about to delete " + NatToString(count) + " album(s) from your library, are you sure?"
  }

  /** The click handler of `removeAlbumsAction`: refuse with a dialog when
      the playing album is selected; otherwise ask for confirmation and
      remove the selection only when it is given. */
  function RemoveAlbumsHandler(selection: seq<Album>, playingAlbumId: Id): (c: Command)
    ensures IndexOf(LibraryStore.AlbumIds(selection), playingAlbumId) > -1 ==>
              c == Perform([DispatchShowDialog("Album in play", "Album is currently in playback!")])
    ensures IndexOf(LibraryStore.AlbumIds(selection), playingAlbumId) == -1 ==>
              c == Confirmed("Playlist Delete", ConfirmMessage(|selection|), [DispatchRemoveAlbums(selection)])
  {
    if IndexOf(LibraryStore.AlbumIds(selection), playingAlbumId) > -1 then
      Perform([DispatchShowDialog("Album in play", "Album is currently in playback!")])
    else
      Confirmed("Playlist Delete", ConfirmMessage(|selection|), [DispatchRemoveAlbums(selection)])
  }

  /** Clicking remove: the albums are removed exactly when the playing
      album is not among them and the user confirms, and never when the
      guard dialog is shown. */
  lemma RemoveAlbumsGuard(selection: seq<Album>, playingAlbumId: Id, confirmed: bool)
    ensures var effects := Run(RemoveAlbumsHandler(selection, playingAlbumId), confirmed);
            (DispatchRemoveAlbums(selection) in effects <==>
               (forall i :: 0 <= i < |selection| ==> selection[i].id != playingAlbumId) && confirmed) &&
            ((exists i :: 0 <= i < |selection| && selection[i].id == playingAlbumId) ==>
               effects == [DispatchShowDialog("Album in play", "Album is currently in playback!")])
  {
    var ids := LibraryStore.AlbumIds(selection);
    assert (playingAlbumId in ids) <==> exists i :: 0 <= i < |selection| && selection[i].id == playingAlbumId;
    var effects := Run(RemoveAlbumsHandler(selection, playingAlbumId), confirmed);
    if playingAlbumId !in ids && !confirmed {
      assert effects == [AskConfirm("Playlist Delete", ConfirmMessage(|selection|))];
    }
  }

  /** `removeAlbumsAction`; a missing selection means none. */
  function RemoveAlbumsAction(selection: Option<seq<Album>>, playingAlbumId: Id): (r: MenuItem)
    ensures r == Item(RemoveAlbumsTitle, RemoveAlbumsHandler(selection.GetOr([]), playingAlbumId))
  {
    Item(RemoveAlbumsTitle, RemoveAlbumsHandler(selection.GetOr([]), playingAlbumId))
  }

  datatype LibraryContentGroup = Albums

  /** The items of one group: `ALBUMS` is the remove action alone. */
  function GroupItems(g: LibraryContentGroup, selection: Option<seq<Album>>, playingAlbumId: Id): (r: seq<MenuItem>)
    ensures |r| == 1 && r[0].Item? && r[0].caption == RemoveAlbumsTitle
  {
    match g
    case Albums => [RemoveAlbumsAction(selection, playingAlbumId)]
  }

  function AllGroupItems(groups: seq<LibraryContentGroup>, selection: Option<seq<Album>>, playingAlbumId: Id)
    : (r: seq<seq<MenuItem>>)
    ensures |r| == |groups|
    ensures forall k :: 0 <= k < |groups| ==> r[k] == GroupItems(groups[k], selection, playingAlbumId)
  {
    seq(|groups|, k requires 0 <= k < |groups| => GroupItems(groups[k], selection, playingAlbumId))
  }

  /** `getActionGroups`: the groups (default `[ALBUMS]`), each followed by a
      separator. */
  function GetActionGroups(actionGroups: Option<seq<LibraryContentGroup>>, selection: Option<seq<Album>>,
                           playingAlbumId: Id): (r: seq<MenuItem>)
    ensures actionGroups.None? ==> r == [RemoveAlbumsAction(selection, playingAlbumId), Separator]
    ensures r == Terminated(AllGroupItems(actionGroups.GetOr([Albums]), selection, playingAlbumId))
  {
    var groups := AllGroupItems(actionGroups.GetOr([Albums]), selection, playingAlbumId);
    assert actionGroups.None? ==> groups == [[RemoveAlbumsAction(selection, playingAlbumId)]];
    assert actionGroups.None? ==> Terminated(groups) == groups[0] + [Separator] + Terminated(groups[1..]);
    AfterEachGroup(groups)
  }

  lemma {:induction false} AllGroupItemsSize(groups: seq<LibraryContentGroup>, selection: Option<seq<Album>>,
                                             playingAlbumId: Id)
    ensures SumLengths(AllGroupItems(groups, selection, playingAlbumId)) == |groups|
    ensures Plain(AllGroupItems(groups, selection, playingAlbumId))
  {
    var items := AllGroupItems(groups, selection, playingAlbumId);
    if groups != [] {
      AllGroupItemsSize(groups[1..], selection, playingAlbumId);
      assert items[1..] == AllGroupItems(groups[1..], selection, playingAlbumId);
    }
  }

  /** Every group gives one remove item followed by a separator, the last
      group included: twice as many entries as groups, half of them
      separators, and the last entry a separator. */
  lemma GetActionGroupsShape(actionGroups: seq<LibraryContentGroup>, selection: Option<seq<Album>>, playingAlbumId: Id)
    ensures var r := GetActionGroups(Some(actionGroups), selection, playingAlbumId);
            |r| == 2 * |actionGroups| &&
            |Filter(r, IsSeparator)| == |actionGroups| &&
            (actionGroups != [] ==> r[|r| - 1] == Separator)
  {
    var groups := AllGroupItems(actionGroups, selection, playingAlbumId);
    var r := GetActionGroups(Some(actionGroups), selection, playingAlbumId);
    assert r == Terminated(groups);
    assert |r| == 2 * |actionGroups| by {
      AllGroupItemsSize(actionGroups, selection, playingAlbumId);
      TerminatedLength(groups);
    }
    assert |Filter(r, IsSeparator)| == |actionGroups| by {
      AllGroupItemsSize(actionGroups, selection, playingAlbumId);
      TerminatedSeparators(groups);
    }
    assert actionGroups != [] ==> r[|r| - 1] == Separator by {
      assert r == AfterEachGroup(groups);
    }
  }
}
