# playa core, modelled in Dafny

This project models the core logic of playa, a desktop music player built on
Electron, React/Redux and PouchDB. The model covers three parts of the
program and proves properties of each.

- **Main process**
  - The document-store wrapper `Database`: `get`, `getList`, `save`, `delete`, the `deleteBulk` payload and the `getLatest` defaults.
  - The request handlers with logic of their own: folder selection, search, album existence, single-album info, the latest query and the playlist save.
- **Renderer store**: the album, track, waveform, artist, UI and library slices. This includes:
  - the `removeAlbums` cascade and `getArtists`;
  - the latest-albums reducer;
  - the artist selectors;
  - the id-keyed object maps (`EntityHashMap`) that every slice keeps.
- **Renderer UI logic**
  - The keyboard grid hook `useGrid`: layout thresholds, locating the selection, the arrow/enter/backspace/select-all/click handlers.
  - The five-column album grid.
  - The three context-menu builders and `openContextMenu`.

## How the model is built

- **Immutable state.** Reducers, selectors and menu builders are pure functions over datatypes.
- **Thunks and click handlers** become the list of effects they perform, in order: IPC invocations and dispatches. What the main process answers is a parameter.
- **Crashes.** A handler that would throw in JavaScript produces a `Crash` effect, `None`, a `Failure`, or `ok == false`, whichever applies.
- **Mutable state.** The stateful objects are classes:
  - `Database` holds a map from id to the latest document revision.
  - The grid hook's state is a class with `hasFocus`, `selection`, `rows` and `threshold`. It also holds `boundFocus`, the `hasFocus` the key handlers captured when they were last bound.
  - The Electron `Menu` that `openContextMenu` fills is a class.
- **Loops.** The source's loops are methods with loop invariants: the `getRows` threshold search, `locateSelection`, the `rows` reduce of AlbumGridView, the `getArtists` push loop and `openContextMenu`'s nested `forEach`.
- **Object maps.** A JavaScript object lists array-index keys (`"0"`, `"1"`, ...) first, ascending, and its other keys after them in first-insertion order; `toArray`/`Object.values` follow that order. `EntityHashMap` is a key sequence plus a map, kept in agreement by a subset-type invariant. The key sequence is in first-insertion order, which matches JavaScript for ids that are not array-index strings (see "## Left out").
- **Null ids.** An `_id` may be `null`, which is modelled as `None`. As an object key it becomes the string `"null"`.
- **Abstract PouchDB.** PouchDB is not modelled.
  - A read takes an optional engine error.
  - A write takes a `put` oracle, which answers `ok` and the new revision, or rejects with a named engine error.
  - A database opens on the documents persisted at its path, which are a parameter.
  - `find` and full-text `search` are function parameters.
- **Abstract helper modules.** The helper modules the core imports are given their evident semantics: `storeUtils`, `artistUtils`, `searchUtils.parseQuery` and lodash's `chunk`, `uniq`, `without` and `intersection`. `VARIOUS_ARTIST_KEY` and `NUMERIC_KEY` are parameters.

Files:

| file | contents |
|---|---|
| `wrappers.dfy` | `Option`, `Result` |
| `seqs.dfy` | filter, `indexOf`, `uniq`, `chunk`, subsequences |
| `text.dfy` | lower-casing, `charAt`, the case-insensitive literal match, number printing |
| `store_utils.dfy` | `EntityHashMap`, `toObj`, `updateId`, `removeIds`, `toArray`, spread merge |
| `album.dfy`, `track.dfy`, `waveform.dfy`, `ui.dfy`, `artist.dfy`, `library.dfy`, `playlist.dfy` | the store slices |
| `database.dfy`, `init_database.dfy` | the main-process store wrapper and handlers |
| `grid.dfy` | `useGrid` |
| `album_grid_view.dfy` | AlbumGridView's rows |
| `menu.dfy` | menu items, effects, the two separator layouts |
| `album_actions.dfy`, `library_content_actions.dfy`, `context_menu_utils.dfy` | the context-menu builders |

**How `save` and `delete` treat revisions.** Neither compares the caller's `_rev` with the stored one. `save` reads the stored document and writes the caller's fields under the stored `_rev` (src/main/database.ts:136-143). `delete` writes the stored document itself as a tombstone (src/main/database.ts:159-164). So a caller holding an out-of-date revision is never refused for it. `DocumentStore.SavePayloadIgnoresCallerRev` proves that the caller's revision plays no part in what is written. A `put` can still reject, for instance when another write lands between the `get` and the `put`; `save` and `delete` then pass the engine's error on and store nothing.

## Model

| member | source | states |
|---|---|---|
| StoreUtils.PropertyKey | src/renderer/store/modules/artist.ts:44 | an `_id` used as an object key is that string, and a `null` id becomes the key `"null"` |
| StoreUtils.Empty | src/renderer/store/modules/album.ts:96-98 | the empty object `{}`: no keys, no entries |
| StoreUtils.Lookup | src/renderer/store/modules/artist.ts:44 | `allById[id]` is defined exactly when the key is stored, and then it is the stored value |
| StoreUtils.UpdateId | src/renderer/store/modules/album.ts:116 | `updateId` sets one key's value. The key keeps its position when already present and is appended when new (the JavaScript order for ids that are not array-index strings) |
| StoreUtils.Merge | src/renderer/store/modules/album.ts:108-111 | object spread `{ ...a, ...b }`: the entries are `a`'s overridden by `b`'s, and `a`'s keys keep their order at the front (the JavaScript order for ids that are not array-index strings) |
| StoreUtils.MergeSingle | src/renderer/store/modules/waveform.ts:61-64 | spreading a one-key object over a map is a single-key update |
| StoreUtils.ToObj | src/renderer/store/modules/album.ts:110 | every item's key is present in the object `toObj` builds |
| StoreUtils.ToObjLastWins | src/renderer/store/modules/artist.ts:233 | the value kept under a key is the last item with that key |
| StoreUtils.ToObjKeysFromItems | src/renderer/store/modules/artist.ts:233 | `toObj` invents no key: each one comes from some item |
| StoreUtils.MergeToObj | src/renderer/store/modules/track.ts:83-86 | `{ ...allById, ...toObj(items) }`: the keys are the old ones plus the items'; each item key holds its last item; every other old entry is unchanged |
| StoreUtils.RemoveIds | src/renderer/store/modules/artist.ts:253 | `removeIds` drops exactly the listed keys. The others keep their values, and the key order is a subsequence of the old one |
| StoreUtils.RemoveIdRemoves | src/renderer/store/modules/artist.ts:253 | removing one id removes exactly that key from the map |
| StoreUtils.ToArray | src/renderer/store/modules/library.ts:133 | `toArray` lists one value per key in the model's key order (JavaScript's order for ids that are not array-index strings), and every stored value appears |
| Seqs.Filter | src/renderer/store/modules/library.ts:125 | `filter` keeps exactly the elements passing the test and adds none |
| Seqs.FilterIsSubseq | src/renderer/store/modules/library.ts:129 | `filter` keeps the original order |
| Seqs.FilterMultiset | src/renderer/store/modules/library.ts:129 | `filter` keeps every occurrence of a kept value and drops every occurrence of the others |
| Seqs.IndexOf | src/renderer/hooks/useGrid/useGrid.ts:261 | `indexOf` gives the first position of the value, or -1 exactly when the value is absent |
| Seqs.Uniq | src/renderer/store/modules/library.ts:208 | lodash `uniq` keeps the first occurrence of each value and is never longer than its input; `UniqSpec` states the rest |
| Seqs.UniqSpec | src/renderer/store/modules/library.ts:208 | lodash `uniq` yields distinct values and drops or adds no value |
| Seqs.UniqIsSubseq | src/renderer/store/modules/library.ts:208 | `uniq` keeps the order of the input |
| Seqs.UniqSnoc | src/renderer/store/modules/library.ts:208 | appending a value to `uniq`'s input appends it to the output exactly when it is new |
| Seqs.Outside | src/renderer/store/modules/library.ts:208 | the elements outside a list, never more than the input; `OutsideSpec` states which |
| Seqs.OutsideSpec | src/renderer/store/modules/library.ts:208 | the helper keeps exactly the elements outside a given list |
| Seqs.UniqConcat | src/renderer/store/modules/library.ts:208 | `uniq([...a, ...b])` is `uniq(a)` followed by the values of `uniq(b)` not in `a` |
| Seqs.Chunk | src/renderer/hooks/useGrid/useGrid.ts:53 | lodash `chunk` never yields more rows than items; the lemmas below state its layout |
| Seqs.ChunkFlatten | src/renderer/hooks/useGrid/useGrid.ts:53 | with a size of at least 1, lodash `chunk`'s rows concatenate back to the input |
| Seqs.ChunkCount | src/renderer/hooks/useGrid/useGrid.ts:53 | `chunk` yields `ceil(n / size)` rows |
| Seqs.ChunkRowSizes | src/renderer/hooks/useGrid/useGrid.ts:53 | every row but the last has exactly `size` items, and the last has 1 to `size` |
| Seqs.ChunkAt | src/renderer/hooks/useGrid/useGrid.ts:53 | item `i` lands in row `i / size` at column `i % size` |
| Seqs.ChunkIndex | src/renderer/hooks/useGrid/useGrid.ts:53 | row `r`, column `k` holds item `r * size + k` |
| Seqs.ChunkSnoc | src/renderer/components/LibraryView/AlbumGridView/AlbumGridView.tsx:33-36 | appending an item opens a new row exactly when the item count is a multiple of the size, and otherwise extends the last row |
| Seqs.ChunkEmpty | src/renderer/hooks/useGrid/useGrid.ts:53 | `chunk` yields no rows exactly for no items |
| Text.Lower | src/renderer/store/modules/artist.ts:51 | `toLowerCase` preserves length and maps every character through the ASCII lower-casing |
| Text.CharAt0 | src/renderer/store/modules/artist.ts:51 | `charAt(0)` is the first character, or the empty string for an empty name |
| Text.EmptyQueryMatches | src/renderer/store/modules/artist.ts:211 | the escaped empty pattern matches every name |
| Text.MatchesIgnoringCase | src/renderer/store/modules/artist.ts:211 | the `gi` match of the escaped query: a literal, case-insensitive occurrence, impossible for a query longer than the name |
| Text.MatchIsCaseInsensitive | src/renderer/store/modules/artist.ts:211 | the `gi` match does not depend on the case of the query or of the name |
| Text.NatToString | src/renderer/actions/libraryContentActions.ts:32 | a count prints as a non-empty string of decimal digits without a leading zero |
| Text.NatToStringValue | src/renderer/actions/libraryContentActions.ts:32 | the printed digits read back as the count |
| AlbumStore.DefaultAlbum | src/renderer/store/modules/album.ts:24-35 | the default album has a null `_id` and empty artist, title, path and tracks. Its type is `album`, it has no year, and it is created now |
| AlbumStore.InitialState | src/renderer/store/modules/album.ts:96-98 | the album slice starts with no albums |
| AlbumStore.Reduce | src/renderer/store/modules/album.ts:100-123 | a content response replaces exactly the entry of that album's id; a list response keeps every stored key; request and unknown actions leave the state unchanged |
| AlbumStore.ListResponseMerges | src/renderer/store/modules/album.ts:105-112 | after a list response each result is stored under its id, the last one winning for a repeated id; albums not in the response are unchanged; no other key appears |
| TrackStore.DefaultTrack | src/renderer/store/modules/track.ts:21-31 | the default track has a null id, is not found, and has empty text fields with a null number and duration |
| TrackStore.InitialState | src/renderer/store/modules/track.ts:71-73 | the track slice starts empty |
| TrackStore.Reduce | src/renderer/store/modules/track.ts:75-92 | a list response keeps every stored key; the request and unknown actions leave the state unchanged |
| TrackStore.ListResponseMerges | src/renderer/store/modules/track.ts:80-87 | a list response adds every result under its id, and a later result wins over an earlier one or a stored track. Other tracks are kept, and no other key appears |
| WaveformStore.InitialState | src/renderer/store/modules/waveform.ts:49-51 | the waveform slice starts empty |
| WaveformStore.Reduce | src/renderer/store/modules/waveform.ts:53-70 | a response maps the track's id to the path, overwriting any earlier path; every other id keeps its presence and value; other actions change nothing |
| UiStore.TrimTitle | src/renderer/store/modules/ui.ts:8-14 | titles of up to 50 characters are unchanged; longer ones become their first 50 characters plus `…`; the result has at most 51 characters and starts with the title's first `min(len, 50)` |
| UiStore.TrimTitleIdempotent | src/renderer/store/modules/ui.ts:10-14 | trimming a trimmed title changes nothing |
| UiStore.InitialState | src/renderer/store/modules/ui.ts:66-68 | the UI slice starts as `{ started: true }` |
| UiStore.Reduce | src/renderer/store/modules/ui.ts:70-80 | every action, `STATE_UPDATE` and `TITLE_UPDATE` included, leaves the UI state as it is |
| ArtistStore.DefaultArtist | src/renderer/store/modules/artist.ts:25-33 | the default artist has a null id and revision, an empty name, no picture, and `noDiscogsResults` false |
| ArtistStore.VariousArtist | src/renderer/store/modules/artist.ts:35-39 | the compilation pseudo-artist is the default artist with id and name `V/A` |
| ArtistStore.InitialState | src/renderer/store/modules/artist.ts:215-218 | the artist slice starts empty and not loading |
| ArtistStore.FindById | src/renderer/store/modules/artist.ts:44 | the stored artist for the id, or the default artist when the id is not stored |
| ArtistStore.LetterMatches | src/renderer/store/modules/artist.ts:50-53 | the `findByLetter` filter for one name; `FindByLetter` states its meaning per key |
| ArtistStore.FindByLetter | src/renderer/store/modules/artist.ts:46-54 | the results per index letter: <br>• the various-artists key gives exactly `[VariousArtist]`; <br>• a letter gives the stored artists whose first character, lower-cased, is that letter; <br>• the numeric key gives those whose first character is not in `a-z` (empty names included), `V/A` excepted; <br>• any other key gives nothing. <br>Results are always in store order |
| ArtistStore.InsertByYear | src/renderer/store/modules/artist.ts:204 | inserting one album into a year-sorted list keeps it sorted, and the result is the old list plus that album as a multiset |
| ArtistStore.SortByYear | src/renderer/store/modules/artist.ts:204 | `sort((a, b) => a.year - b.year)` yields a year-ascending permutation of its input |
| ArtistStore.InsertByYearStable | src/renderer/store/modules/artist.ts:204 | an inserted album goes after the albums of its year that were already there |
| ArtistStore.SortByYearStable | src/renderer/store/modules/artist.ts:204 | the sort is stable: albums of one year keep their relative order |
| ArtistStore.AlbumsByArtist | src/renderer/store/modules/artist.ts:199-205 | `getAlbumsByArtist` yields the stored albums whose `artist` is the id of the artist `findById` gives: year-ascending, each exactly as often as in the store (a permutation), with the albums of one year in store order (the stable sort); nothing for an unknown artist id |
| ArtistStore.SearchArtists | src/renderer/store/modules/artist.ts:207-213 | the artists whose name contains the query literally, ignoring case, in store order |
| ArtistStore.SearchEmptyQueryListsAll | src/renderer/store/modules/artist.ts:207-213 | an empty query lists every artist in store order |
| ArtistStore.SearchIgnoresQueryCase | src/renderer/store/modules/artist.ts:211 | upper- and lower-case queries give the same artists |
| ArtistStore.PictureRequest | src/renderer/store/modules/artist.ts:160-175 | an artist with a picture or `noDiscogsResults` set causes no effect. Otherwise three effects: fetch the picture, save the artist with it and with `noDiscogsResults` set exactly when none came back, then dispatch the saved artist |
| ArtistStore.HasPicture | src/renderer/store/modules/artist.ts:162 | a picture counts only when it is a non-empty path, as a truthiness test does |
| ArtistStore.PictureRequestSettles | src/renderer/store/modules/artist.ts:162-170 | the artist a picture request saves never triggers a second fetch |
| ArtistStore.Reduce | src/renderer/store/modules/artist.ts:220-260 | the reducer per action: <br>• `GET_ALL_REQUEST` sets loading; <br>• `GET_ALL_RESPONSE` stores every listed artist and clears loading; <br>• `GET_LIST_RESPONSE` keeps every stored key and the loading flag; <br>• `SAVE_RESPONSE` upserts the artist by id and clears loading; <br>• `DELETE_RESPONSE` removes exactly that id; <br>• the other actions leave the state unchanged. <br>The stored values after the two responses are stated by the next two rows |
| ArtistStore.GetAllResponseReplaces | src/renderer/store/modules/artist.ts:230-235 | after a full response the stored ids are exactly the listed artists' ids, whatever was stored before, and each id holds the last listed artist with that id |
| ArtistStore.GetListResponseMerges | src/renderer/store/modules/artist.ts:236-243 | after a list response the stored ids are exactly the old ones plus the listed ones; each listed id holds the last listed artist with it; every other artist is kept |
| LibraryStore.AlbumIds | src/renderer/store/modules/library.ts:116 | `albums.map(({ _id }) => _id)`: the ids in album order |
| LibraryStore.LatestIndex | src/renderer/store/modules/library.ts:188-190 | the newest-first sort puts in front the first album with the greatest `created` |
| LibraryStore.LatestAlbumId | src/renderer/store/modules/library.ts:184-191 | `getLatestAlbumId` is `'0'` for no albums, and otherwise the id of the first album with the greatest `created` |
| LibraryStore.InitialState | src/renderer/store/modules/library.ts:178-182 | the library slice starts with no latest albums, a null latest id and no artists |
| LibraryStore.Reduce | src/renderer/store/modules/library.ts:193-220 | the reducer per action: <br>• a latest response sets `latest` to the result ids in order and the latest id from the results; <br>• adding albums gives the distinct new ids followed by the earlier distinct latest ids that are not new, with no repeats; <br>• an artists response replaces only `artists`; <br>• the requests and unknown actions change nothing |
| LibraryStore.AddToLatestPrependsNew | src/renderer/store/modules/library.ts:204-209 | after adding albums, `latest` holds each new and each earlier id (and nothing else) in order of first occurrence, and starts with the distinct new ids |
| LibraryStore.CurrentAlbums | src/renderer/store/modules/library.ts:114 | the latest ids mapped to their stored albums, index by index; it is missing exactly when some latest id has no stored album |
| LibraryStore.LatestAfterRemoval | src/renderer/store/modules/library.ts:123-126 | the latest albums left after a removal are those whose id was not removed, in their order: a removed album occurs no more, and every other album occurs exactly as often as before |
| LibraryStore.QueueAfterRemoval | src/renderer/store/modules/library.ts:127-130 | the queue left after a removal is an order-preserving subsequence of the old queue |
| LibraryStore.QueueAfterRemovalCounts | src/renderer/store/modules/library.ts:129 | every occurrence of a removed id leaves the queue, and every other id keeps its number of occurrences |
| LibraryStore.HasRemoved | src/renderer/store/modules/library.ts:134-136 | `intersection(playlist.albums, removedIds).length > 0`: some album of the playlist is removed; `PlaylistsToUpdateSpec` uses it |
| LibraryStore.Strip | src/renderer/store/modules/library.ts:136-141 | a stripped playlist keeps every field but `albums`; its albums are the old ones in order, with every occurrence of a removed id gone and every other id occurring exactly as often as before |
| LibraryStore.PlaylistsToUpdate | src/renderer/store/modules/library.ts:132-141 | there are never more playlists to re-save than stored playlists |
| LibraryStore.PlaylistsToUpdateSpec | src/renderer/store/modules/library.ts:132-145 | the three facts of the re-save list together: <br>• every playlist to re-save is a stored playlist holding a removed album, stripped; <br>• every such playlist is re-saved; <br>• the list is empty exactly when no playlist holds a removed album |
| LibraryStore.UpdatedAreAffected | src/renderer/store/modules/library.ts:134-141 | only playlists sharing an id with the removed set are re-saved, stripped of the removed ids |
| LibraryStore.AffectedAreUpdated | src/renderer/store/modules/library.ts:134-141 | every playlist sharing an id with the removed set is re-saved |
| LibraryStore.NoneAffected | src/renderer/store/modules/library.ts:132-145 | nothing is to be re-saved exactly when no playlist holds a removed album |
| LibraryStore.FindPlaylist | src/renderer/store/modules/library.ts:152 | `find` gives the first playlist with the id, and nothing exactly when no playlist has it |
| LibraryStore.SavedPlaylists | src/renderer/store/modules/library.ts:149-155 | one record per bulk-save answer, in answer order. Each record is the sent playlist with that id carrying the answered `_rev`, or `{ _rev }` alone when none matches |
| LibraryStore.RemoveAlbums | src/renderer/store/modules/library.ts:106-156 | the `removeAlbums` effect sequence: <br>• the delete is requested first, and nothing follows when it reports no deletion; <br>• an unknown latest id crashes; <br>• otherwise the filtered latest albums and the filtered queue are dispatched, in that order; <br>• the stripped playlists are saved, and the answer dispatched, only when some playlist is affected |
| LibraryStore.StrippedPlaylistsHoldNoRemoved | src/renderer/store/modules/library.ts:132-141 | no re-saved playlist still lists a removed album |
| LibraryStore.GetArtists | src/renderer/store/modules/library.ts:158-176 | no effect when artists are loaded. Otherwise the stats are requested and every `{ key, value }` row is dispatched as `{ name, count }`, same order and length |
| DocumentStore.SavePayload | src/main/database.ts:135-143 | `save` writes the caller's fields and id under the stored `_rev` when the stored document has one, and with no `_rev` otherwise |
| DocumentStore.SavePayloadIgnoresCallerRev | src/main/database.ts:136-143 | the caller's `_rev` has no effect on what `save` writes, and nothing else of the entity is changed |
| DocumentStore.ListedDocs | src/main/database.ts:130-132 | `getList`'s row filter keeps exactly the documents of rows without error, never gains length, and loses none exactly when every row is usable |
| DocumentStore.ListedDocsConcat | src/main/database.ts:130-132 | rows are filtered one by one, so the kept documents stay in row order |
| DocumentStore.Tombstones | src/main/database.ts:171-179 | `deleteBulk` submits every entity unchanged except `_deleted: true`, same count and order |
| DocumentStore.LatestQueryOf | src/main/database.ts:104-123 | `getLatest` queries `dateField > dateFrom` sorted on the same field. The defaults are `created`, limit 20, order `asc` and from now |
| DocumentStore.Database.constructor | src/main/database.ts:40-51 | opening the database gives the documents persisted at its path |
| DocumentStore.Database.Get | src/main/database.ts:90-102 | `get` gives the live document, or `{}` for a missing document or a `not_found` error; any other engine error is rethrown |
| DocumentStore.Database.Put | src/main/database.ts:144 | an accepted `put` stores the document under its id with the new revision; a refused or rejected one stores nothing |
| DocumentStore.Database.Rows | src/main/database.ts:126-129 | `allDocs({ keys })` answers one row per id, usable exactly when the id is live and then holding its document |
| DocumentStore.Database.GetList | src/main/database.ts:125-133 | `getList` gives the live documents among the ids, never more than there are ids, and all of them exactly when every id is live |
| DocumentStore.Database.Save | src/main/database.ts:135-149 | `save` outcomes: <br>• a read error is passed on and nothing is stored; <br>• otherwise the payload is written under the stored revision; <br>• an ok write answers the entity with the new `_rev` and stores it, and nothing else changes; <br>• a refused write answers `DatabaseError` and stores nothing; <br>• a rejected `put` passes the engine's error on and stores nothing |
| DocumentStore.Database.Delete | src/main/database.ts:159-169 | `delete` writes the stored document, not the caller's, as a tombstone, answers it with the new `_rev`, and the id then reads as `{}`. A refused write answers `DatabaseError`, and a rejected `put` passes the engine's error on; neither stores anything |
| DatabaseInit.DatabaseFolder | src/main/initializers/initDatabase.ts:43-53 | dev gives `databases_dev`, fresh gives `databases_fresh`, and prod or any other environment gives `databases` |
| DatabaseInit.DatabasePath | src/main/initializers/initDatabase.ts:60 | the database path is the user data path, the separator, the folder and the separator |
| DatabaseInit.OpenDatabase | src/main/initializers/initDatabase.ts:55-63 | the `fresh` environment removes the database folder first, so its store opens empty; every other environment opens what an earlier run persisted |
| DatabaseInit.FieldOf | src/main/initializers/initDatabase.ts:124 | `x[f]` on a returned document is the field's value, and is undefined exactly when the field is absent |
| DatabaseInit.Matches | src/main/initializers/initDatabase.ts:123-125 | `filters.every(f => x[f] === selector[f])`; `Search` states the filter it gives |
| DatabaseInit.Search | src/main/initializers/initDatabase.ts:109-126 | the three search cases: <br>• without free text, exactly `find(selector)`; <br>• with free text and no filter, the full-text results unchanged; <br>• with filters, the order-preserving subsequence of the results whose every filtered field equals the selector's value |
| DatabaseInit.SearchWithoutTextIgnoresFullText | src/main/initializers/initDatabase.ts:112-114 | without free text the full-text engine is never consulted |
| DatabaseInit.SearchWithTextIgnoresFind | src/main/initializers/initDatabase.ts:116-125 | with free text `find` is never consulted |
| DatabaseInit.AlbumExists | src/main/initializers/initDatabase.ts:169-174 | an album exists exactly when `find({ path: folder })` is non-empty |
| DatabaseInit.AlbumExistsIffStored | src/main/initializers/initDatabase.ts:169-174 | the handler queries `find` with the selector `{ path: folder }`. Over a `find` that answers the matching stored documents, an album exists exactly when a stored document has that path |
| DatabaseInit.SingleInfo | src/main/initializers/initDatabase.ts:153-167 | single-album info throws exactly when no album is listed. Otherwise it answers the first album, changed only in `tracks` (set to the chosen list), with the tracks loaded for that list |
| DatabaseInit.SingleInfoSettles | src/main/initializers/initDatabase.ts:155-158 | the track list is the stored one, or the folder scan when that is empty. Once the answered album carries a track list, asking again does not scan the folder and gives the same answer |
| DatabaseInit.LatestRequest | src/main/initializers/initDatabase.ts:145-147 | the latest-albums handler asks for newest first on `created`, from the given date or now, with the given limit or 20 |
| DatabaseInit.PlaylistDoc | src/main/initializers/initDatabase.ts:93-99 | a playlist is stored under its own id and revision, not as a tombstone |
| DatabaseInit.DocPlaylist | src/main/initializers/initDatabase.ts:93-99 | a stored document read back as a playlist keeps its id and revision |
| DatabaseInit.PlaylistDocRoundTrip | src/main/initializers/initDatabase.ts:93-99 | storing a playlist and reading it back gives the playlist, under whatever revision the store hands out |
| DatabaseInit.StampAccessed | src/main/initializers/initDatabase.ts:95-98 | the playlist-save stamp changes `accessed` to now and nothing else |
| DatabaseInit.SavePlaylist | src/main/initializers/initDatabase.ts:93-99 | the playlist save stores the stamped playlist under its id, answers it under its new revision and changes no other document; reading the id back gives that playlist; a failed save changes nothing |
| Menus.Run | src/renderer/actions/libraryContentActions.ts:25-37 | a plain handler performs its effects; a confirming handler first asks, then performs its effects only when confirmed |
| Menus.ReduceBetween | src/renderer/actions/albumActions.ts:204-213 | the `index < length - 1` fold step by step: a separator ends every step before the last, and the last step ends in the last group |
| Menus.ReduceAfter | src/renderer/actions/libraryContentActions.ts:73-82 | the `index < length` fold step by step: every step ends in a separator |
| Menus.TerminatedSnoc | src/renderer/utils/contextMenuUtils.ts:156-161 | appending a group to the after-every layout appends its items and one separator |
| Menus.ReducePrefix | src/renderer/actions/albumActions.ts:204-213 | before the last group both folds have put a separator after every group so far |
| Menus.JoinedSplit | src/renderer/actions/albumActions.ts:204-213 | the between layout is the after-every layout of all groups but the last, followed by the last group |
| Menus.BetweenIsJoined | src/renderer/actions/albumActions.ts:204-213 | the `index < length - 1` fold puts one separator between consecutive groups and none after the last |
| Menus.AfterIsTerminated | src/renderer/actions/libraryContentActions.ts:73-82 | the `index < length` fold puts a separator after every group, the last one included |
| Menus.TerminatedLength | src/renderer/actions/libraryContentActions.ts:73-82 | the after-every layout has the groups' items plus one entry per group |
| Menus.JoinedLength | src/renderer/actions/albumActions.ts:204-213 | the between layout has the groups' items plus one entry fewer than there are groups |
| Menus.BetweenGroups | src/renderer/actions/albumActions.ts:204-213 | the between layout: the empty menu for no groups, otherwise the items plus groups − 1 separators |
| Menus.AfterEachGroup | src/renderer/actions/libraryContentActions.ts:73-82 | the after-every layout has the items plus one separator per group and ends in a separator |
| Menus.TerminatedSeparators | src/renderer/actions/libraryContentActions.ts:73-82 | over groups holding no separator, the after-every layout holds exactly one separator per group; dropping them gives the items in order |
| Menus.JoinedSeparators | src/renderer/actions/albumActions.ts:204-213 | over groups holding no separator, the between layout holds groups − 1 separators; dropping them gives the items in order |
| AlbumActions.SearchAction | src/renderer/actions/albumActions.ts:33-46 | the search action is titled with the first album's full title and site, and opens the site with `artist title`; it throws for no album |
| AlbumActions.SearchArtistAction | src/renderer/actions/albumActions.ts:48-61 | the artist search uses the first album's artist alone for both title and query |
| AlbumActions.SearchReadsFirstAlbum | src/renderer/actions/albumActions.ts:37-59 | the search actions depend only on the first album: its artist and title, or for the artist variant its artist alone |
| AlbumActions.PlayAlbumAction | src/renderer/actions/albumActions.ts:63-79 | the play action replaces the queue and then plays the first album with the given playlist and track |
| AlbumActions.RemoveFromQueueAction | src/renderer/actions/albumActions.ts:95-104 | remove-from-queue dispatches the queue without the given albums' ids, and crashes on click when no queue is given |
| AlbumActions.RemoveFromQueueKeepsOthers | src/renderer/actions/albumActions.ts:99-101 | the dispatched queue is an order-preserving subsequence of the old one. Each other entry occurs as often as before, and every occurrence of a given album is gone |
| AlbumActions.RevealInFinderAction | src/renderer/actions/albumActions.ts:106-113 | reveal shows the first album's folder |
| AlbumActions.ReloadAlbumContentAction | src/renderer/actions/albumActions.ts:115-122 | reload reloads the first album's tracks |
| AlbumActions.NeedsAlbum | src/renderer/actions/albumActions.ts:145-156 | the creators that read `albums[0]`; `CreateAction` fails exactly for these without an album |
| AlbumActions.CreateAction | src/renderer/actions/albumActions.ts:145-156 | an action creator throws exactly when it reads `albums[0]` and there is no album |
| AlbumActions.ActionItems | src/renderer/actions/albumActions.ts:206-211 | one `{ label, click }` item per action in order, failing exactly when a creator throws |
| AlbumActions.GroupItems | src/renderer/actions/albumActions.ts:204-211 | the items of each group in order; never failing when there is an album |
| AlbumActions.GetActionGroups | src/renderer/actions/albumActions.ts:200-214 | the album menu is the groups' items with one separator between consecutive groups, and the empty menu for no groups |
| AlbumActions.GroupItemsShape | src/renderer/actions/albumActions.ts:206-211 | each group contributes one item per action of its group |
| AlbumActions.GetActionGroupsCounts | src/renderer/actions/albumActions.ts:175-213 | the group map gives each group its fixed actions; for example the enqueue actions pass the ids of all given albums in order. With an album the menu has the sum of the group sizes plus (groups − 1) entries; exactly groups − 1 are separators; the rest are the groups' items in order |
| LibraryContentActions.RemoveAlbumsHandler | src/renderer/actions/libraryContentActions.ts:25-37 | the remove handler shows the "in playback" dialog when the playing album is selected, and otherwise asks to confirm the removal of the selection |
| LibraryContentActions.RemoveAlbumsGuard | src/renderer/actions/libraryContentActions.ts:26-36 | the albums are removed if and only if the playing album is not among them and the user confirms; when it is among them, only the dialog is shown |
| LibraryContentActions.GroupItems | src/renderer/actions/libraryContentActions.ts:63-65 | the `ALBUMS` group yields exactly one item, the remove action |
| LibraryContentActions.AllGroupItems | src/renderer/actions/libraryContentActions.ts:75-80 | the items of each group in order |
| LibraryContentActions.GetActionGroups | src/renderer/actions/libraryContentActions.ts:67-83 | the library-content menu is the groups' items each followed by a separator; the default groups give the remove action and one separator |
| LibraryContentActions.AllGroupItemsSize | src/renderer/actions/libraryContentActions.ts:75-80 | every group contributes exactly one plain item |
| LibraryContentActions.GetActionGroupsShape | src/renderer/actions/libraryContentActions.ts:73-82 | the menu has twice as many entries as groups, half of them separators, and ends in a separator |
| ContextMenuUtils.RemoveAlbumItems | src/renderer/utils/contextMenuUtils.ts:19-33 | the playlist menu has one item, which saves the playlist stripped of the selection |
| ContextMenuUtils.RemoveAlbumItemsSaves | src/renderer/utils/contextMenuUtils.ts:27-30 | the saved playlist keeps every field but `albums`; its albums are the old ones in order, with every occurrence of a selected id gone and every other id occurring exactly as often as before |
| ContextMenuUtils.EnqueueItems | src/renderer/utils/contextMenuUtils.ts:53-66 | the enqueue group is two items enqueuing the album's id after the current album or at the end |
| ContextMenuUtils.SystemItems | src/renderer/utils/contextMenuUtils.ts:68-81 | the system group is two items revealing the folder and reloading the tracks |
| ContextMenuUtils.SearchOnlineItems | src/renderer/utils/contextMenuUtils.ts:83-97 | the search group is two items searching rateyourmusic and Discogs for `artist title` |
| ContextMenuUtils.ActionItems | src/renderer/utils/contextMenuUtils.ts:99-105 | the group sizes are: playback 1, enqueue 2, system 2, search online 2, none holding a separator |
| ContextMenuUtils.AllActionItems | src/renderer/utils/contextMenuUtils.ts:121 | the items of each action group in order |
| ContextMenuUtils.GetAlbumContextMenuActions | src/renderer/utils/contextMenuUtils.ts:114-124 | the album menu puts a separator after every action group, the last included; no actions give an empty menu |
| ContextMenuUtils.AllActionItemsSize | src/renderer/utils/contextMenuUtils.ts:121 | the groups hold the sum of their sizes in items |
| ContextMenuUtils.AlbumMenuShape | src/renderer/utils/contextMenuUtils.ts:42-123 | the groups are playback (play the album), enqueue, system and search online, titled with the album's `artist - title`. The album menu has the sum of the group sizes plus one separator per group; dropping the separators gives the items in order; the last entry is a separator |
| ContextMenuUtils.PlaylistMenuDefault | src/renderer/utils/contextMenuUtils.ts:133-139 | the playlist menu is the remove item, with a missing selection taken as empty; with that default the single item saves the playlist unchanged |
| ContextMenuUtils.GroupsOf | src/renderer/utils/contextMenuUtils.ts:147-154 | one group per parameter, in order |
| ContextMenuUtils.ContextMenu.constructor | src/renderer/utils/contextMenuUtils.ts:146 | a new menu is empty |
| ContextMenuUtils.ContextMenu.Append | src/renderer/utils/contextMenuUtils.ts:159 | appending adds one item at the end |
| ContextMenuUtils.ContextMenu.AppendAll | src/renderer/utils/contextMenuUtils.ts:157 | appending a group adds its items at the end, in order |
| ContextMenuUtils.OpenContextMenu | src/renderer/utils/contextMenuUtils.ts:145-164 | the menu holds every group's items in order, each group followed by a separator: the items plus one entry per group |
| UseGrid.GetRows | src/renderer/hooks/useGrid/useGrid.ts:37-56 | the chosen threshold is the first one the window is strictly wider than, or the last when none is. The rows are the items chunked by its column count. With no thresholds the function throws |
| UseGrid.SearchRows | src/renderer/hooks/useGrid/useGrid.ts:72-79 | the search finds the column and row of the first row from `i` on holding the id, or `(0, 0)` when there is none |
| UseGrid.Locate | src/renderer/hooks/useGrid/useGrid.ts:58-81 | the selection's position: <br>• `(0, 0)` for an empty selection; <br>• otherwise the column and row of the first selected id in the first row that holds it; <br>• `(0, 0)` when no row holds it |
| UseGrid.LocateSelection | src/renderer/hooks/useGrid/useGrid.ts:58-81 | the `locateSelection` loop computes that position |
| UseGrid.JsRem | src/renderer/hooks/useGrid/useGrid.ts:200 | JavaScript's `%` truncates toward zero, so the remainder takes the dividend's sign |
| UseGrid.Without | src/renderer/hooks/useGrid/useGrid.ts:262 | lodash `without` drops every occurrence of the id, keeps every other id exactly as often as before, and keeps their order |
| UseGrid.Toggle | src/renderer/hooks/useGrid/useGrid.ts:260-266 | a meta-click flips the clicked id's membership and no other id's |
| UseGrid.ChunkSize | src/renderer/hooks/useGrid/useGrid.ts:53 | the row size handed to `chunk`: the column count when it is at least 1, and no rows otherwise |
| UseGrid.UpRow | src/renderer/hooks/useGrid/useGrid.ts:171 | Up's row: one row higher, never above row 0 |
| UseGrid.UpIndex | src/renderer/hooks/useGrid/useGrid.ts:175 | Up's index `columns * newY + x`; `UpInGrid` and `UpBound` state where it lands |
| UseGrid.DownRow | src/renderer/hooks/useGrid/useGrid.ts:186 | Down's row: one row lower, never past the last row |
| UseGrid.DownIndex | src/renderer/hooks/useGrid/useGrid.ts:190 | Down's index, never past the last item |
| UseGrid.LeftIndex | src/renderer/hooks/useGrid/useGrid.ts:199-202 | Left's index through JavaScript's `%`, never negative; `LeftIsPrevious` states which item it is |
| UseGrid.RightIndex | src/renderer/hooks/useGrid/useGrid.ts:210-213 | Right's index, never past the last item; `RightIsNext` states which item it is |
| UseGrid.ToggleTwice | src/renderer/hooks/useGrid/useGrid.ts:260-266 | meta-clicking an unselected item twice restores the selection |
| UseGrid.LocateInGrid | src/renderer/hooks/useGrid/useGrid.ts:67-80 | in a grid chunked from items, the located position is a cell, and a found selection is the item at that cell |
| UseGrid.ChunkHolds | src/renderer/hooks/useGrid/useGrid.ts:53 | every item lies in some row of the grid |
| UseGrid.UpInGrid | src/renderer/hooks/useGrid/useGrid.ts:171-177 | below the first row, Up selects the item directly above, and it never leaves the items |
| UseGrid.DownInGrid | src/renderer/hooks/useGrid/useGrid.ts:186-192 | Down's clamped index always names an item |
| UseGrid.LeftIsPrevious | src/renderer/hooks/useGrid/useGrid.ts:199-203 | Left selects linear index `max(0, columns*y + x - 1)`: the previous item, with the first staying put |
| UseGrid.RightIsNext | src/renderer/hooks/useGrid/useGrid.ts:210-214 | Right selects `min(items - 1, columns*y + x + 1)`: the next item, with the last staying put |
| UseGrid.ArrowsStayInGrid | src/renderer/hooks/useGrid/useGrid.ts:165-215 | in a laid-out grid with items, no arrow key throws: every target index names an item |
| UseGrid.CellTargetsInRange | src/renderer/hooks/useGrid/useGrid.ts:171-214 | from any cell before the end of the items, all four arrow targets are item indexes |
| UseGrid.UpBound | src/renderer/hooks/useGrid/useGrid.ts:171-177 | Up's target stays inside the items |
| UseGrid.Grid.constructor | src/renderer/hooks/useGrid/useGrid.ts:118-121 | the hook starts without focus, with handlers bound unfocused, the initial selection, no rows and the first threshold |
| UseGrid.Grid.Recompute | src/renderer/hooks/useGrid/useGrid.ts:145-153 | recompute lays the items out by the threshold `getRows` chooses. The new `rows` rebinds the key handlers to the current focus, and nothing else changes |
| UseGrid.Grid.SetItems | src/renderer/hooks/useGrid/useGrid.ts:145-157 | a new `items` prop is laid out again by the threshold `getRows` chooses; selection and focus survive, and the key handlers (which depend on `items`) are rebound to the current focus |
| UseGrid.Grid.OnUp | src/renderer/hooks/useGrid/useGrid.ts:165-178 | when the handlers were bound unfocused nothing changes. Otherwise the selection becomes the item at `columns * max(0, y - 1) + x`, and a top overflow at column `x` is reported exactly on row 0 |
| UseGrid.Grid.OnDown | src/renderer/hooks/useGrid/useGrid.ts:180-193 | when the handlers were bound unfocused nothing changes. Otherwise the selection moves to row `min(rows - 1, y + 1)` with the index capped at the last item, and a bottom overflow is reported exactly on the last row |
| UseGrid.Grid.OnLeft | src/renderer/hooks/useGrid/useGrid.ts:195-204 | when the handlers were bound unfocused nothing changes; otherwise the item at Left's index is selected |
| UseGrid.Grid.OnRight | src/renderer/hooks/useGrid/useGrid.ts:206-215 | when the handlers were bound unfocused nothing changes; otherwise the item at Right's index is selected |
| UseGrid.Grid.OnEnter | src/renderer/hooks/useGrid/useGrid.ts:217-222 | Enter hands the selection to the callback only when the handlers were bound while focused |
| UseGrid.Grid.OnBackspace | src/renderer/hooks/useGrid/useGrid.ts:224-229 | Backspace hands the selection to the callback only when the handlers were bound while focused |
| UseGrid.Grid.OnAll | src/renderer/hooks/useGrid/useGrid.ts:231-236 | select-all selects every item when the handlers were bound while focused, and otherwise changes nothing |
| UseGrid.Grid.OnItemClick | src/renderer/hooks/useGrid/useGrid.ts:258-269 | a click focuses the grid and, since it always sets a new selection, rebinds the handlers focused; a meta-click toggles the id; a plain click selects exactly that id |
| UseGrid.Grid.RequestFocus | src/renderer/hooks/useGrid/useGrid.ts:271-276 | requesting focus focuses the grid. When the first item has a non-empty id it is selected and the handlers are rebound focused; otherwise the selection and the handlers' focus stay as they were |
| AlbumGridView.Rows | src/renderer/components/LibraryView/AlbumGridView/AlbumGridView.tsx:31-38 | the album rows: <br>• there are `ceil(n / 5)` rows (none for no albums); <br>• each row holds 1 to 5 albums; <br>• the rows concatenate back to the albums in order; <br>• album `i` is in row `i / 5` at position `i % 5` |
| AlbumGridView.RowOfNext | src/renderer/components/LibraryView/AlbumGridView/AlbumGridView.tsx:32-35 | album `index` opens a new row exactly when `index` is a multiple of 5, and otherwise goes to the last row |

## Left out

- **IPC, Electron, the file system and the network.** Main-process answers are parameters. This leaves out:
  - `ipc.handle` registration;
  - `fs.remove`/`ensureDir` in `initDatabase`;
  - `loadAlbum`, `loadTracklist` and the album-content handler;
  - `remote.Menu.popup`, `document.title` and `ipc.send` in `updateState`.
- **PouchDB internals.** PouchDB is not modelled beyond the read and `put` oracles. This leaves out:
  - index creation and Mango query evaluation behind `find`;
  - full-text ranking behind `search`;
  - `findAll`, `saveBulk`, `removeBulk` and live replication.
- **The effect of `deleteBulk`.** Only its payload is modelled, because the store effect and the per-item results of `bulkDocs` are up to the engine.
- **DocumentStore.Database.Save:** requires an `_id`. With no `_id` the source asks the engine for `undefined`, and what the engine does then is not modelled.
- **DocumentStore.Database.Delete:** requires an `_id`, for the same reason.
- **DatabaseInit.SavePlaylist:** requires an `_id`, for the same reason.
- **StoreUtils.UpdateId:** assumes ids are not array-index strings such as `"1"` or `"666"`. JavaScript lists such keys first, in ascending numeric order, but the model appends every new key, so for them "appended when new" is not the program's order.
- **StoreUtils.Merge:** under the same assumption. When `b` brings array-index keys, JavaScript lists them ahead of `a`'s other keys.
- **StoreUtils.ToArray:** under the same assumption. For array-index ids `Object.values` lists values in ascending numeric key order, not first-insertion order. Which values are listed is unaffected.
- **Key order downstream.** For array-index ids, the order also differs wherever values are listed through `ToArray`: `ArtistStore.FindByLetter`, the year-tie order of `ArtistStore.AlbumsByArtist`, `ArtistStore.SearchArtists`, and the order of the playlists `LibraryStore.RemoveAlbums` re-saves.
- **Which writes the engine rejects.** Whether `put` rejects is up to the oracle. The model does not derive a conflict from concurrent writes, because interleaving between the `get` and the `put` is not modelled.
- **Dates.** `new Date().toISOString()` defaults and the date parsing in `getLatestAlbumId` are not modelled. Timestamps are opaque comparable integers, and "now" is a parameter.
- **Text.Lower:** folds ASCII letters only. JavaScript's `toLowerCase` folds all of Unicode.
- **UiStore.TrimTitle:** counts characters, whereas `substr` counts UTF-16 code units.
- **ArtistStore.AlbumsByArtist:** an album without a year sorts as year 0. In the source `a.year - b.year` is then `NaN`, and the result order depends on the engine's sort.
- **UseGrid.Grid.constructor:** requires a non-empty threshold list. With none, `useState(thresholds[0])` only stores `undefined`; the throw comes at the first `recompute`, where `getRows` takes the `undefined` last threshold and reads its `columns`. `UseGrid.GetRows` models that failure itself.
- **UseGrid.** `window.innerWidth` and the resize listener are left out; the width is a parameter of `Recompute`. Also left out:
  - the `document` click listener that drops focus (and maybe the selection) on an outside click. The model never clears `hasFocus`, so it does not show the handlers that, after a blur with `clearSelectionOnBlur` off, still act as if focused;
  - the `direction` option, which only decides which Mousetrap keys are bound;
  - the `preventDefault`/`stopPropagation` calls.
- **UseGrid.Grid.OnUp and the other arrow handlers:** when the target index has no item the source throws reading `_id`. The model answers `ok == false` and leaves the selection unchanged.
- **The player engine.** The player slice and the player library, which `updateQueue`, `playTrack`, `enqueueAfterCurrent`, `enqueueAtEnd` and the queue belong to, are not part of this model. Their dispatches are recorded as effects only.
- **Thunks that only relay one IPC answer to one dispatch:**
  - `getLatestRequest` and `addAlbumsToLibrary`;
  - the album, track and waveform request thunks;
  - `getArtistReleases`, `getAllArtistsRequest`, `saveArtistRequest`, `deleteArtistRequest` and `getArtistPictureFromUrlRequest`.
- **The `findByList` selector.**
- **`actionsMap` in contextMenuUtils.** Its keys `REMOVE_ALBUMS` and `PLAYBACK` are both `0`, so the playback builder wins that key. The model indexes album actions by their own datatype, and the playlist menu calls the remove builder directly, as the source does.
- **LibraryStore.RemoveAlbums:** sees only the number of entries the bulk delete answers, since nothing else of that answer is read. It does not look at the `ok` flags of the playlist-save answer, and neither does the source.
- **The playlist store slice.** The playlist slice and `savePlaylistRequest` are not part of this model. The saved playlist is recorded as an effect.
