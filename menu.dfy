/** Context-menu items and the two ways the menu builders lay groups of
    items out: a separator between consecutive groups (album actions), or a
    separator after every group (library-content actions, album and
    playlist context menus, `openContextMenu`). */
module Menus {
  import opened Wrappers
  import opened Seqs
  import opened StoreUtils
  import opened Playlists
  import AlbumStore

  type Album = AlbumStore.Album

  /** The search sites a menu item can open (`SEARCH_URLS`). */
  datatype SearchUrl = Rym | RymArtist | Discogs | Youtube

  /** What a click sends to the store or to the main process. */
  datatype Effect =
    | DispatchUpdateQueue(queue: Option<seq<string>>)
    | DispatchPlayTrack(playlistId: Id, albumId: Id, trackId: Id)
    | DispatchEnqueueAfterCurrent(ids: seq<Id>)
    | DispatchEnqueueAtEnd(ids: seq<Id>)
    | DispatchEnqueueOneAfterCurrent(id: Id)
    | DispatchEnqueueOneAtEnd(id: Id)
    | SendRevealInFinder(path: string)
    | DispatchReloadAlbumContent(album: Album)
    | SendOpenUrl(url: SearchUrl, query: string)
    | DispatchSavePlaylist(playlist: Playlist)
    | DispatchShowDialog(title: string, message: string)
    | AskConfirm(title: string, message: string)
    | DispatchRemoveAlbums(selection: seq<Album>)
    | Crash

  /** A click handler. Every handler here depends only on what its creator
      captured, except for the answer of a confirmation dialog. */
  datatype Command =
    | Perform(effects: seq<Effect>)
    | Confirmed(title: string, message: string, next: seq<Effect>)

  /** What a click does, given the answer a confirmation dialog returns. */
  function Run(c: Command, confirmed: bool): (r: seq<Effect>)
    ensures c.Perform? ==> r == c.effects
    ensures c.Confirmed? ==> |r| >= 1 && r[0] == AskConfirm(c.title, c.message)
    ensures c.Confirmed? ==> r[1..] == if confirmed then c.next else []
  {
    match c
    case Perform(effects) => effects
    case Confirmed(title, message, next) => [AskConfirm(title, message)] + (if confirmed then next else [])
  }

  /** An Electron menu item: a labelled entry with its click handler, or a
      separator. */
  datatype MenuItem = Item(caption: string, click: Command) | Separator

  /** `` `${artist} - ${title}` ``. */
  function FullTitle(album: Album): (r: string)
    ensures r == album.artist + " - " + album.title
  {
    album.artist + " - " + album.title
  }

  // ---------------------------------------------------------------------
  // The two `reduce` layouts, as the source folds them

  /** The first `n` steps of
      `groups.reduce((memo, g, index, original) => [...memo, ...g,
        ...index < original.length - 1 ? [separator] : []], [])`. */
  function ReduceBetween(groups: seq<seq<MenuItem>>, n: nat): (r: seq<MenuItem>)
    requires n <= |groups|
    ensures 0 < n < |groups| ==> r != [] && r[|r| - 1] == Separator
    ensures n == |groups| && n > 0 ==> |r| >= |groups[n - 1]| && r[|r| - |groups[n - 1]|..] == groups[n - 1]
  {
    if n == 0 then []
    else ReduceBetween(groups, n - 1) + groups[n - 1] + (if n - 1 < |groups| - 1 then [Separator] else [])
  }

  /** The first `n` steps of the same fold with the guard
      `index < original.length`, which every index meets. */
  function ReduceAfter(groups: seq<seq<MenuItem>>, n: nat): (r: seq<MenuItem>)
    requires n <= |groups|
    ensures n > 0 ==> r != [] && r[|r| - 1] == Separator
  {
    if n == 0 then []
    else ReduceAfter(groups, n - 1) + groups[n - 1] + (if n - 1 < |groups| then [Separator] else [])
  }

  /** The groups in order with one separator between consecutive groups. */
  function Joined(groups: seq<seq<MenuItem>>): seq<MenuItem>
  {
    if groups == [] then []
    else if |groups| == 1 then groups[0]
    else groups[0] + [Separator] + Joined(groups[1..])
  }

  /** The groups in order, each followed by a separator. */
  function Terminated(groups: seq<seq<MenuItem>>): seq<MenuItem>
  {
    if groups == [] then [] else groups[0] + [Separator] + Terminated(groups[1..])
  }

  lemma {:induction false} TerminatedSnoc(groups: seq<seq<MenuItem>>, g: seq<MenuItem>)
    ensures Terminated(groups + [g]) == Terminated(groups) + g + [Separator]
  {
    if groups == [] {
      assert groups + [g] == [g];
      assert Terminated([g]) == g + [Separator] + Terminated([]);
    } else {
      assert (groups + [g])[0] == groups[0] && (groups + [g])[1..] == groups[1..] + [g];
      TerminatedSnoc(groups[1..], g);
      ConcatAssoc(groups[0] + [Separator], Terminated(groups[1..]), g + [Separator]);
      ConcatAssoc(Terminated(groups), g, [Separator]);
    }
  }

  /** After `n` steps either fold holds the first `n` groups, each followed
      by a separator, as long as the last group has not been reached. */
  lemma {:induction false} ReducePrefix(groups: seq<seq<MenuItem>>, n: nat)
    requires n <= |groups|
    ensures ReduceAfter(groups, n) == Terminated(groups[..n])
    ensures n < |groups| ==> ReduceBetween(groups, n) == Terminated(groups[..n])
  {
    if n > 0 {
      ReducePrefix(groups, n - 1);
      assert groups[..n] == groups[..n - 1] + [groups[n - 1]];
      TerminatedSnoc(groups[..n - 1], groups[n - 1]);
    }
  }

  /** A group list split off its last group joins as the terminated prefix
      followed by that last group. */
  lemma {:induction false} JoinedSplit(groups: seq<seq<MenuItem>>)
    requires groups != []
    ensures Joined(groups) == Terminated(groups[..|groups| - 1]) + groups[|groups| - 1]
  {
    if |groups| == 1 {
      assert groups[..0] == [];
    } else {
      var rest := groups[1..];
      JoinedSplit(rest);
      assert rest[..|rest| - 1] == groups[1..|groups| - 1];
      assert groups[..|groups| - 1][1..] == groups[1..|groups| - 1];
      assert Terminated(groups[..|groups| - 1]) ==
             groups[0] + [Separator] + Terminated(groups[1..|groups| - 1]);
      ConcatAssoc(groups[0] + [Separator], Terminated(groups[1..|groups| - 1]), groups[|groups| - 1]);
    }
  }

  /** The between-groups fold is the join of the groups. */
  lemma BetweenIsJoined(groups: seq<seq<MenuItem>>)
    ensures ReduceBetween(groups, |groups|) == Joined(groups)
  {
    if groups != [] {
      var n := |groups|;
      ReducePrefix(groups, n - 1);
      JoinedSplit(groups);
    }
  }

  /** The after-every-group fold terminates every group. */
  lemma AfterIsTerminated(groups: seq<seq<MenuItem>>)
    ensures ReduceAfter(groups, |groups|) == Terminated(groups)
  {
    ReducePrefix(groups, |groups|);
    assert groups[..|groups|] == groups;
  }

  lemma {:induction false} TerminatedLength(groups: seq<seq<MenuItem>>)
    ensures |Terminated(groups)| == SumLengths(groups) + |groups|
  {
    if groups != [] {
      TerminatedLength(groups[1..]);
    }
  }

  lemma {:induction false} JoinedLength(groups: seq<seq<MenuItem>>)
    requires groups != []
    ensures |Joined(groups)| == SumLengths(groups) + |groups| - 1
  {
    if |groups| > 1 {
      JoinedLength(groups[1..]);
    }
  }

  /** A layout with a separator between consecutive groups: no menu for no
      groups, otherwise the items of every group plus one separator fewer
      than there are groups. */
  function BetweenGroups(groups: seq<seq<MenuItem>>): (r: seq<MenuItem>)
    ensures groups == [] ==> r == []
    ensures groups != [] ==> |r| == SumLengths(groups) + |groups| - 1
    ensures r == Joined(groups)
  {
    BetweenIsJoined(groups);
    if groups == [] then []
    else
      JoinedLength(groups);
      ReduceBetween(groups, |groups|)
  }

  /** A layout with a separator after every group, the last one included. */
  function AfterEachGroup(groups: seq<seq<MenuItem>>): (r: seq<MenuItem>)
    ensures |r| == SumLengths(groups) + |groups|
    ensures groups != [] ==> r[|r| - 1] == Separator
    ensures r == Terminated(groups)
  {
    AfterIsTerminated(groups);
    TerminatedLength(groups);
    ReduceAfter(groups, |groups|)
  }

  predicate IsSeparator(m: MenuItem) {
    m.Separator?
  }

  /** A group of actions carries no separator of its own. */
  predicate Plain(groups: seq<seq<MenuItem>>) {
    forall i, j :: 0 <= i < |groups| && 0 <= j < |groups[i]| ==> !groups[i][j].Separator?
  }

  lemma PlainCons(g: seq<MenuItem>, rest: seq<seq<MenuItem>>)
    requires forall j :: 0 <= j < |g| ==> g[j].Item?
    requires Plain(rest)
    ensures Plain([g] + rest)
  {
    var all: seq<seq<MenuItem>> := [g] + rest;
    forall i, j | 0 <= i < |all| && 0 <= j < |all[i]|
      ensures !all[i][j].Separator?
    {
      if i > 0 {
        assert all[i] == rest[i - 1];
      }
    }
  }

  lemma {:induction false} PlainTail(groups: seq<seq<MenuItem>>)
    requires groups != [] && Plain(groups)
    ensures Plain(groups[1..])
    ensures Filter(groups[0], IsSeparator) == []
  {
    assert forall i :: 0 <= i < |groups| - 1 ==> groups[1..][i] == groups[i + 1];
    FilterNone(groups[0], IsSeparator);
  }

  /** Over plain groups, the after-every layout holds exactly one separator
      per group, and dropping the separators gives the groups' items in
      order. */
  lemma {:induction false} TerminatedSeparators(groups: seq<seq<MenuItem>>)
    requires Plain(groups)
    ensures |Filter(Terminated(groups), IsSeparator)| == |groups|
    ensures Filter(Terminated(groups), (m: MenuItem) => !IsSeparator(m)) == Flatten(groups)
  {
    var notSep := (m: MenuItem) => !IsSeparator(m);
    if groups != [] {
      PlainTail(groups);
      TerminatedSeparators(groups[1..]);
      var g := groups[0];
      FilterAll(g, notSep);
      assert Terminated(groups) == (g + [Separator]) + Terminated(groups[1..]);
      SeparatorFilters(g, Terminated(groups[1..]));
    }
  }

  /** Over plain groups, the between layout holds one separator fewer than
      there are groups, and dropping the separators gives the groups' items
      in order. */
  lemma {:induction false} JoinedSeparators(groups: seq<seq<MenuItem>>)
    requires groups != [] && Plain(groups)
    ensures |Filter(Joined(groups), IsSeparator)| == |groups| - 1
    ensures Filter(Joined(groups), (m: MenuItem) => !IsSeparator(m)) == Flatten(groups)
  {
    var notSep := (m: MenuItem) => !IsSeparator(m);
    PlainTail(groups);
    var g := groups[0];
    var rest := groups[1..];
    FilterAll(g, notSep);
    assert Flatten(groups) == g + Flatten(rest);
    if |groups| == 1 {
      assert rest == [];
    } else {
      JoinedSeparators(rest);
      var jr := Joined(rest);
      assert Joined(groups) == (g + [Separator]) + jr;
      SeparatorFilters(g, jr);
    }
  }

  /** The filters of one plain group, a separator and whatever follows. */
  lemma SeparatorFilters(g: seq<MenuItem>, tail: seq<MenuItem>)
    requires Filter(g, IsSeparator) == [] && Filter(g, (m: MenuItem) => !IsSeparator(m)) == g
    ensures |Filter((g + [Separator]) + tail, IsSeparator)| == 1 + |Filter(tail, IsSeparator)|
    ensures Filter((g + [Separator]) + tail, (m: MenuItem) => !IsSeparator(m)) ==
            g + Filter(tail, (m: MenuItem) => !IsSeparator(m))
  {
    var notSep := (m: MenuItem) => !IsSeparator(m);
    FilterConcat(g + [Separator], tail, IsSeparator);
    FilterConcat(g, [Separator], IsSeparator);
    FilterConcat(g + [Separator], tail, notSep);
    FilterConcat(g, [Separator], notSep);
    assert Filter([Separator], notSep) == [];
    assert g + [] == g;
  }
}
