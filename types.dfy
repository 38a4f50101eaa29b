/** The shapes of the stored documents the modelled code reads: songs,
    their artwork, and playlists. Optional fields (`T | undefined`) are
    `Option<T>`. Fields the modelled code never reads are left out. */
module Types {
  import opened Wrappers

  /** A Firestore timestamp: whole seconds and the nanoseconds past them. */
  datatype Timestamp = Timestamp(seconds: int, nanoseconds: int)

  datatype Artwork = Artwork(hash: string, kind: string)

  datatype Song = Song(
    id: string,
    fileName: string,
    downloadUrl: Option<string>,
    title: string,
    /** Duration in milliseconds. */
    duration: int,
    artist: Option<string>,
    albumName: Option<string>,
    albumArtist: Option<string>,
    liked: Option<bool>,
    whenLiked: Option<Timestamp>,
    lastPlayed: Option<Timestamp>,
    createdAt: Timestamp,
    artwork: Option<Artwork>,
    updatedAt: Timestamp,
    deleted: bool,
    /** The element id a song carries when it is listed through a playlist. */
    playlistId: Option<string>)

  /** One entry of a playlist: the song, and the entry's own id, since a song
      may be listed more than once. */
  datatype PlaylistItem = PlaylistItem(songId: string, id: string)

  datatype Playlist = Playlist(
    id: string,
    name: string,
    songs: Option<seq<PlaylistItem>>,
    createdAt: Timestamp,
    updatedAt: Timestamp,
    deleted: bool)
}
