/** The artist slice of the renderer store: its selectors (by id, by index
    letter, albums of an artist, name search), the picture-request thunk
    and the reducer. */
module ArtistStore {
  import opened Wrappers
  import opened Seqs
  import opened Text
  import opened StoreUtils
  import AlbumStore

  type Album = AlbumStore.Album

  const VariousArtistsId: string := "V/A"

  /** An artist record. `picture` is absent or a path; an empty path is
      falsy like an absent one. */
  datatype Artist = Artist(
    id: Id,
    rev: Option<string>,
    name: string,
    picture: Option<string>,
    noDiscogsResults: bool)

  function ArtistKey(a: Artist): string {
    PropertyKey(a.id)
  }

  /** A fresh artist: no id, no revision, empty name, no picture and
      `noDiscogsResults` false. */
  function DefaultArtist(): (a: Artist)
    ensures a.id.None? && a.rev.None? && a.name == "" && a.picture.None? && !a.noDiscogsResults
  {
    Artist(None, None, "", None, false)
  }

  /** The pseudo-artist that groups compilations: the default artist with
      id and name `V/A`. */
  function VariousArtist(): (a: Artist)
    ensures a == DefaultArtist().(id := Some(VariousArtistsId), name := VariousArtistsId)
  {
    Artist(Some(VariousArtistsId), None, VariousArtistsId, None, false)
  }

  datatype ArtistState = ArtistState(allById: EntityHashMap<Artist>, isLoading: bool)

  function InitialState(): (s: ArtistState)
    ensures s.allById.byId == map[] && !s.isLoading
  {
    ArtistState(Empty(), false)
  }

  /** `selectors.findById`: the stored artist, or the default artist when
      the id is not stored. */
  function FindById(state: ArtistState, id: Id): (r: Artist)
    ensures PropertyKey(id) in state.allById.byId ==> r == state.allById.byId[PropertyKey(id)]
    ensures PropertyKey(id) !in state.allById.byId ==> r == DefaultArtist()
  {
    Lookup(state.allById, PropertyKey(id)).GetOr(DefaultArtist())
  }

  /** The filter of `findByLetter` for one artist name. */
  predicate LetterMatches(name: string, letter: string, numericKey: string) {
    || (HasAsciiLower(letter) && Lower(CharAt0(name)) == letter)
    || (!HasAsciiLower(Lower(CharAt0(name))) && name != VariousArtistsId && letter == numericKey)
  }

  /** `selectors.findByLetter`. The index keys come from a helper module
      that is not part of this model, so they are parameters. */
  function FindByLetter(state: ArtistState, letter: string, variousArtistKey: string, numericKey: string): (r: seq<Artist>)
    ensures letter == variousArtistKey ==> r == [VariousArtist()]
    ensures letter != variousArtistKey ==> IsSubseq(r, ToArray(state.allById))
    ensures letter != variousArtistKey && HasAsciiLower(letter) && letter != numericKey ==>
              forall a :: a in r <==> a in ToArray(state.allById) && Lower(CharAt0(a.name)) == letter
    ensures letter != variousArtistKey && letter == numericKey && !HasAsciiLower(letter) ==>
              forall a :: a in r <==> a in ToArray(state.allById) && !HasAsciiLower(Lower(CharAt0(a.name))) && a.name != VariousArtistsId
    ensures letter != variousArtistKey && letter != numericKey && !HasAsciiLower(letter) ==> r == []
  {
    if letter == variousArtistKey then [VariousArtist()]
    else
      var all := ToArray(state.allById);
      FilterIsSubseq(all, (a: Artist) => LetterMatches(a.name, letter, numericKey));
      var r := Filter(all, (a: Artist) => LetterMatches(a.name, letter, numericKey));
      assert letter != numericKey && !HasAsciiLower(letter) ==> forall i :: 0 <= i < |r| ==> !LetterMatches(r[i].name, letter, numericKey);
      r
  }

  /** The sort key of `a.year - b.year`. An album without a year makes the
      comparator return `NaN` in the source; here it sorts as year 0. */
  function YearKey(a: Album): int {
    a.year.GetOr(0)
  }

  ghost predicate SortedByYear(s: seq<Album>) {
    forall i, j :: 0 <= i < j < |s| ==> YearKey(s[i]) <= YearKey(s[j])
  }

  /** The albums of `s` with the given year key, in their order in `s`. */
  function WithYear(s: seq<Album>, y: int): seq<Album> {
    Filter(s, (a: Album) => YearKey(a) == y)
  }

  /** Places `x` after every album whose year is not later than its own. */
  function InsertByYear(x: Album, t: seq<Album>): (r: seq<Album>)
    ensures multiset(r) == multiset(t) + multiset{x}
    ensures forall i :: 0 <= i < |r| ==> r[i] == x || r[i] in t
    ensures SortedByYear(t) ==> SortedByYear(r)
  {
    if t == [] then [x]
    else if YearKey(t[0]) > YearKey(x) then [x] + t
    else
      var rest := InsertByYear(x, t[1..]);
      ConsTail(t);
      InsertByYearSortedStep(x, t, rest);
      [t[0]] + rest
  }

  lemma InsertByYearSortedStep(x: Album, t: seq<Album>, rest: seq<Album>)
    requires t != [] && YearKey(t[0]) <= YearKey(x)
    requires forall i :: 0 <= i < |rest| ==> rest[i] == x || rest[i] in t[1..]
    requires SortedByYear(t) ==> SortedByYear(rest)
    ensures SortedByYear(t) ==> SortedByYear([t[0]] + rest)
  {
    if SortedByYear(t) {
      forall j | 0 <= j < |rest|
        ensures YearKey(t[0]) <= YearKey(rest[j])
      {
        if rest[j] != x {
          var k :| 0 <= k < |t[1..]| && t[1..][k] == rest[j];
          assert t[k + 1] == rest[j];
        }
      }
    }
  }

  /** The stable sort `Array.prototype.sort` performs with the comparator
      `a.year - b.year`. */
  function SortByYear(s: seq<Album>): (r: seq<Album>)
    ensures SortedByYear(r)
    ensures multiset(r) == multiset(s)
  {
    if s == [] then []
    else
      var n := |s| - 1;
      assert s == s[..n] + [s[n]];
      InsertByYear(s[n], SortByYear(s[..n]))
  }

  /** Inserting keeps the albums of every year in their order, with the new
      one after those already there. */
  lemma {:induction false} InsertByYearStable(x: Album, t: seq<Album>, y: int)
    requires SortedByYear(t)
    ensures WithYear(InsertByYear(x, t), y) == WithYear(t, y) + (if YearKey(x) == y then [x] else [])
  {
    var tail := if YearKey(x) == y then [x] else [];
    if t == [] {
      assert [x] == [x] + t;
      WithYearCons(x, t, y);
    } else if YearKey(t[0]) > YearKey(x) {
      InsertFrontStable(x, t, y);
    } else {
      SortedTail(t);
      InsertByYearStable(x, t[1..], y);
      WithYearPrepend(t, InsertByYear(x, t[1..]), y, tail);
    }
  }

  lemma SortedTail(t: seq<Album>)
    requires t != [] && SortedByYear(t)
    ensures SortedByYear(t[1..])
  {
    forall i, j | 0 <= i < j < |t[1..]|
      ensures YearKey(t[1..][i]) <= YearKey(t[1..][j])
    {
      assert t[1..][i] == t[i + 1] && t[1..][j] == t[j + 1];
    }
  }

  /** An album earlier than every album of a sorted sequence goes in front,
      and it is the last of its year there. */
  lemma InsertFrontStable(x: Album, t: seq<Album>, y: int)
    requires SortedByYear(t) && t != [] && YearKey(t[0]) > YearKey(x)
    ensures WithYear([x] + t, y) == WithYear(t, y) + (if YearKey(x) == y then [x] else [])
  {
    WithYearCons(x, t, y);
    if YearKey(x) == y {
      assert WithYear(t, y) == [] by {
        FilterNone(t, (a: Album) => YearKey(a) == y);
      }
    }
  }

  /** Putting the head of `t` back in front of a sequence that has the
      same albums of year `y` as the tail of `t`, followed by `tail`. */
  lemma WithYearPrepend(t: seq<Album>, rest: seq<Album>, y: int, tail: seq<Album>)
    requires t != [] && WithYear(rest, y) == WithYear(t[1..], y) + tail
    ensures WithYear([t[0]] + rest, y) == WithYear(t, y) + tail
  {
    var h := if YearKey(t[0]) == y then [t[0]] else [];
    WithYearCons(t[0], rest, y);
    ConsTail(t);
    WithYearCons(t[0], t[1..], y);
    ConcatAssoc(h, WithYear(t[1..], y), tail);
  }

  lemma WithYearCons(a: Album, s: seq<Album>, y: int)
    ensures WithYear([a] + s, y) == (if YearKey(a) == y then [a] else []) + WithYear(s, y)
  {
    FilterConcat([a], s, (b: Album) => YearKey(b) == y);
    assert WithYear([a], y) == if YearKey(a) == y then [a] else [];
  }

  /** The sort is stable: albums of the same year keep their relative
      order. */
  lemma {:induction false} SortByYearStable(s: seq<Album>, y: int)
    ensures WithYear(SortByYear(s), y) == WithYear(s, y)
  {
    if s != [] {
      var n := |s| - 1;
      var init := s[..n];
      var sorted := SortByYear(init);
      assert s == init + [s[n]];
      assert SortByYear(s) == InsertByYear(s[n], sorted);
      SortByYearStable(init, y);
      InsertByYearStable(s[n], sorted, y);
      WithYearSnoc(init, s[n], y);
    }
  }

  lemma WithYearSnoc(s: seq<Album>, x: Album, y: int)
    ensures WithYear(s + [x], y) == WithYear(s, y) + (if YearKey(x) == y then [x] else [])
  {
    FilterConcat(s, [x], (a: Album) => YearKey(a) == y);
    assert WithYear([x], y) == if YearKey(x) == y then [x] else [];
  }

  /** `getAlbumsByArtist`: the stored albums whose `artist` is the id of the
      artist `findById` returns, by ascending year. The default artist has no
      id, so an unknown artist id has no albums. */
  function AlbumsByArtist(state: ArtistState, albums: EntityHashMap<Album>, id: Id): (r: seq<Album>)
    ensures SortedByYear(r)
    ensures forall a :: a in r <==> a in ToArray(albums) && Some(a.artist) == FindById(state, id).id
    ensures multiset(r) == multiset(OwnAlbums(albums, FindById(state, id).id))
    ensures forall y :: WithYear(r, y) == WithYear(OwnAlbums(albums, FindById(state, id).id), y)
    ensures PropertyKey(id) !in state.allById.byId ==> r == []
  {
    var own := OwnAlbums(albums, FindById(state, id).id);
    var r := SortByYear(own);
    assert forall a :: a in r <==> a in own by {
      assert forall a :: a in r <==> multiset(r)[a] > 0;
      assert forall a :: a in own <==> multiset(own)[a] > 0;
    }
    assert forall y :: WithYear(r, y) == WithYear(own, y) by {
      forall y
        ensures WithYear(r, y) == WithYear(own, y)
      {
        SortByYearStable(own, y);
      }
    }
    r
  }

  /** The stored albums whose `artist` is the given id, in store order. */
  function OwnAlbums(albums: EntityHashMap<Album>, artistId: Id): seq<Album> {
    Filter(ToArray(albums), (a: Album) => Some(a.artist) == artistId)
  }

  /** `searchArtists`: the artists whose name contains the query literally,
      ignoring case, in store order. */
  function SearchArtists(state: ArtistState, query: string): (r: seq<Artist>)
    ensures forall a :: a in r <==> a in ToArray(state.allById) && MatchesIgnoringCase(query, a.name)
    ensures IsSubseq(r, ToArray(state.allById))
  {
    FilterIsSubseq(ToArray(state.allById), (a: Artist) => MatchesIgnoringCase(query, a.name));
    Filter(ToArray(state.allById), (a: Artist) => MatchesIgnoringCase(query, a.name))
  }

  /** An empty query lists every artist. */
  lemma SearchEmptyQueryListsAll(state: ArtistState)
    ensures SearchArtists(state, "") == ToArray(state.allById)
  {
    var all := ToArray(state.allById);
    forall i | 0 <= i < |all|
      ensures MatchesIgnoringCase("", all[i].name)
    {
      EmptyQueryMatches(all[i].name);
    }
    FilterAll(all, (a: Artist) => MatchesIgnoringCase("", a.name));
  }

  /** The case of the query does not matter. */
  lemma SearchIgnoresQueryCase(state: ArtistState, query: string)
    ensures SearchArtists(state, query) == SearchArtists(state, Lower(query))
  {
    var all := ToArray(state.allById);
    forall i | 0 <= i < |all|
      ensures MatchesIgnoringCase(query, all[i].name) == MatchesIgnoringCase(Lower(query), all[i].name)
    {
      LowerIdempotent(query);
    }
    FilterExt(all, (a: Artist) => MatchesIgnoringCase(query, a.name), (a: Artist) => MatchesIgnoringCase(Lower(query), a.name));
  }

  /** A picture counts as present when it is a non-empty path. */
  predicate HasPicture(picture: Option<string>) {
    picture.Some? && picture.value != ""
  }

  datatype PictureEffect =
    | InvokePictureGet(artist: Artist)
    | InvokeSave(artist: Artist)
    | DispatchSaveResponse(artist: Artist)

  /** `getArtistPictureRequest`: nothing happens for an artist that has a
      picture or is known to have none on Discogs; otherwise the picture is
      fetched (`fetched` is what the main process answers), the artist is
      saved with it and with `noDiscogsResults` set iff none came back, and
      the saved artist (`saved`) is dispatched. */
  function PictureRequest(artist: Artist, fetched: Option<string>, saved: Artist): (effects: seq<PictureEffect>)
    ensures HasPicture(artist.picture) || artist.noDiscogsResults ==> effects == []
    ensures !HasPicture(artist.picture) && !artist.noDiscogsResults ==>
              && |effects| == 3
              && effects[0] == InvokePictureGet(artist)
              && effects[1] == InvokeSave(artist.(picture := fetched, noDiscogsResults := !HasPicture(fetched)))
              && effects[2] == DispatchSaveResponse(saved)
  {
    if HasPicture(artist.picture) || artist.noDiscogsResults then []
    else
      var toSave := artist.(picture := fetched, noDiscogsResults := !HasPicture(fetched));
      [InvokePictureGet(artist), InvokeSave(toSave), DispatchSaveResponse(saved)]
  }

  /** The record a picture request saves never triggers a second fetch:
      it has either a picture or the no-results flag. */
  lemma PictureRequestSettles(artist: Artist, fetched: Option<string>, saved: Artist, fetched2: Option<string>, saved2: Artist)
    requires PictureRequest(artist, fetched, saved) != []
    ensures PictureRequest(PictureRequest(artist, fetched, saved)[1].artist, fetched2, saved2) == []
  {
  }

  datatype ArtistAction =
    | GetAllRequest
    | GetAllResponse(artists: seq<Artist>)
    | GetListResponse(listed: seq<Artist>)
    | SaveRequest(toSave: Artist)
    | SaveResponse(savedArtist: Artist)
    | DeleteRequest(toDelete: Artist)
    | DeleteResponse(deleted: Artist)
    | Unknown

  /** The artist reducer; `ensureAll` is the identity on complete artists. */
  function Reduce(state: ArtistState, action: ArtistAction): (r: ArtistState)
    ensures action.GetAllRequest? ==> r == state.(isLoading := true)
    ensures action.GetAllResponse? ==>
              && !r.isLoading
              && (forall i :: 0 <= i < |action.artists| ==> ArtistKey(action.artists[i]) in r.allById.byId)
    ensures action.GetListResponse? ==>
              r.isLoading == state.isLoading && forall k :: k in state.allById.byId ==> k in r.allById.byId
    ensures action.SaveResponse? ==>
              && !r.isLoading
              && r.allById.byId == state.allById.byId[ArtistKey(action.savedArtist) := action.savedArtist]
    ensures action.DeleteResponse? ==>
              && r.isLoading == state.isLoading
              && r.allById.byId == state.allById.byId - {ArtistKey(action.deleted)}
    ensures action.SaveRequest? || action.DeleteRequest? || action.Unknown? ==> r == state
  {
    match action
    case GetAllRequest => state.(isLoading := true)
    case GetAllResponse(artists) => state.(allById := ToObj(artists, ArtistKey), isLoading := false)
    case GetListResponse(listed) => state.(allById := Merge(state.allById, ToObj(listed, ArtistKey)))
    case SaveResponse(a) => state.(allById := UpdateId(state.allById, ArtistKey(a), a), isLoading := false)
    case DeleteResponse(a) =>
      RemoveIdRemoves(state.allById, ArtistKey(a));
      state.(allById := RemoveIds(state.allById, [ArtistKey(a)]))
    case _ => state
  }

  /** A full response replaces the store: exactly the listed artists are
      kept, whatever was stored before, each key holding the last listed
      artist with that key. */
  lemma GetAllResponseReplaces(state: ArtistState, artists: seq<Artist>)
    ensures forall k :: k in Reduce(state, GetAllResponse(artists)).allById.byId <==>
              exists i :: 0 <= i < |artists| && ArtistKey(artists[i]) == k
    ensures forall i :: 0 <= i < |artists| && (forall j :: i < j < |artists| ==> ArtistKey(artists[j]) != ArtistKey(artists[i])) ==>
              Reduce(state, GetAllResponse(artists)).allById.byId[ArtistKey(artists[i])] == artists[i]
  {
    var m := Reduce(state, GetAllResponse(artists)).allById;
    forall k | k in m.byId
      ensures exists i :: 0 <= i < |artists| && ArtistKey(artists[i]) == k
    {
      ToObjKeysFromItems(artists, ArtistKey, k);
    }
    forall i | 0 <= i < |artists| && (forall j :: i < j < |artists| ==> ArtistKey(artists[j]) != ArtistKey(artists[i]))
      ensures m.byId[ArtistKey(artists[i])] == artists[i]
    {
      ToObjLastWins(artists, ArtistKey, i);
    }
  }

  /** A list response adds or replaces the listed artists, keeps the
      others and invents no key. */
  lemma GetListResponseMerges(state: ArtistState, listed: seq<Artist>)
    ensures forall k :: k in Reduce(state, GetListResponse(listed)).allById.byId <==>
              k in state.allById.byId || exists i :: 0 <= i < |listed| && ArtistKey(listed[i]) == k
    ensures forall i :: 0 <= i < |listed| && (forall j :: i < j < |listed| ==> ArtistKey(listed[j]) != ArtistKey(listed[i])) ==>
              Reduce(state, GetListResponse(listed)).allById.byId[ArtistKey(listed[i])] == listed[i]
    ensures forall k :: k in state.allById.byId && (forall i :: 0 <= i < |listed| ==> ArtistKey(listed[i]) != k) ==>
              Reduce(state, GetListResponse(listed)).allById.byId[k] == state.allById.byId[k]
  {
    MergeToObj(state.allById, listed, ArtistKey);
  }
}
