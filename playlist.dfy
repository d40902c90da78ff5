/** The playlist record shared by the library cascade, the context menus and
    the database handlers. The playlist slice itself is not part of this
    model. */
module Playlists {
  import opened Wrappers
  import opened StoreUtils

  /** A playlist: its album ids in play order, and `created`/`accessed`
      timestamps kept as opaque comparable numbers. */
  datatype Playlist = Playlist(
    id: Id,
    rev: Option<string>,
    title: string,
    albums: seq<string>,
    created: int,
    accessed: int)
}
