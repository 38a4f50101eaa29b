/** Playlist documents and the edits the web app makes to them: creating
    a playlist, appending a song, removing one entry, renaming, soft
    deletion, and listing a playlist's songs through the song lookup.
    Fresh ids and server timestamps are parameters; the transaction around
    each edit is not modelled. */
module Playlists {
  import opened Wrappers
  import opened Types

  /** `usePlaylistCreate`: an empty name creates nothing; otherwise a new,
      empty and not deleted playlist. */
  function Create(name: string, newId: string, now: Timestamp): (r: Option<Playlist>)
    ensures r.None? <==> name == ""
    ensures r.Some? ==> r.value.id == newId && r.value.name == name
    ensures r.Some? ==> r.value.songs == Some([]) && !r.value.deleted
  {
    if name == "" then None
    else Some(Playlist(newId, name, Some([]), now, now, false))
  }

  /** The song list after `usePlaylistAdd`: a new entry at the end of the
      list, or a list of just that entry when the playlist had none. */
  function Appended(songs: Option<seq<PlaylistItem>>, songId: string, itemId: string): (r: seq<PlaylistItem>)
    ensures |r| == |songs.GetOr([])| + 1
    ensures r[..|r| - 1] == songs.GetOr([])
    ensures r[|r| - 1] == PlaylistItem(songId, itemId)
  {
    match songs
    case Some(items) => items + [PlaylistItem(songId, itemId)]
    case None => [PlaylistItem(songId, itemId)]
  }

  /** `usePlaylistAdd`: nothing happens to a playlist that does not exist;
      otherwise its songs become `Appended(...)` and nothing else but the
      update time changes. */
  function Add(data: Option<Playlist>, songId: string, itemId: string, now: Timestamp): (r: Option<Playlist>)
    ensures r.None? <==> data.None?
    ensures r.Some? ==> r.value == data.value.(songs := Some(Appended(data.value.songs, songId, itemId)), updatedAt := now)
  {
    match data
    case None => None
    case Some(p) => Some(p.(songs := Some(Appended(p.songs, songId, itemId)), updatedAt := now))
  }

  /** `findIndex` on the entry ids: the first entry with id `targetId`, or -1. */
  function FindIndex(items: seq<PlaylistItem>, targetId: string): (r: int)
    ensures -1 <= r < |items|
    ensures r >= 0 ==> items[r].id == targetId && forall k :: 0 <= k < r ==> items[k].id != targetId
    ensures r == -1 <==> forall k :: 0 <= k < |items| ==> items[k].id != targetId
  {
    if items == [] then -1
    else if items[0].id == targetId then 0
    else
      var rest := FindIndex(items[1..], targetId);
      if rest == -1 then -1 else rest + 1
  }

  /** The song list `usePlaylistRemoveSong` writes, if it writes one. */
  function Removed(playlistId: Option<string>, data: Option<Playlist>, targetId: string): Option<seq<PlaylistItem>> {
    if playlistId.None? || data.None? || data.value.songs.None? then None
    else
      var items := data.value.songs.value;
      var i := FindIndex(items, targetId);
      if i == -1 then None else Some(items[..i] + items[i + 1..])
  }

  /** `usePlaylistRemoveSong`: the entry whose element id (not song id) is
      `targetId` is found with a scan and spliced out of the list. */
  method RemoveSong(playlistId: Option<string>, data: Option<Playlist>, targetId: string)
    returns (r: Option<seq<PlaylistItem>>)
    ensures r == Removed(playlistId, data, targetId)
  {
    if playlistId.None? {
      return None;
    }
    if data.None? || data.value.songs.None? {
      return None;
    }
    var songs := data.value.songs.value;
    var indexToDelete := -1;
    var k := 0;
    while k < |songs|
      invariant 0 <= k <= |songs|
      invariant forall j :: 0 <= j < k ==> songs[j].id != targetId
    {
      if songs[k].id == targetId {
        indexToDelete := k;
        break;
      }
      k := k + 1;
    }
    if indexToDelete == -1 {
      return None;
    }
    songs := songs[..indexToDelete] + songs[indexToDelete + 1..];
    return Some(songs);
  }

  /** Nothing is written exactly when no entry has the element id. */
  lemma RemoveNoMatch(playlistId: string, p: Playlist, targetId: string)
    requires p.songs.Some?
    ensures Removed(Some(playlistId), Some(p), targetId).None? <==>
            forall k :: 0 <= k < |p.songs.value| ==> p.songs.value[k].id != targetId
  {
  }

  /** What is written is the list without its first entry with the element
      id, the others in their order. */
  lemma RemoveFirstMatch(playlistId: string, p: Playlist, targetId: string)
    requires p.songs.Some?
    ensures var items := p.songs.value;
      var r := Removed(Some(playlistId), Some(p), targetId);
      r.Some? ==> exists i :: 0 <= i < |items| && items[i].id == targetId
                    && (forall k :: 0 <= k < i ==> items[k].id != targetId)
                    && r.value == items[..i] + items[i + 1..]
  {
    var i := FindIndex(p.songs.value, targetId);
  }

  /** Exactly one entry goes: the list loses one occurrence of an entry
      with the element id and nothing else. */
  lemma RemoveExactlyOne(playlistId: string, p: Playlist, targetId: string)
    requires p.songs.Some?
    ensures var items := p.songs.value;
      var r := Removed(Some(playlistId), Some(p), targetId);
      r.Some? ==> exists x :: x in items && x.id == targetId && multiset(r.value) + multiset{x} == multiset(items)
  {
    var items := p.songs.value;
    var i := FindIndex(items, targetId);
    if i >= 0 {
      var r := items[..i] + items[i + 1..];
      assert Removed(Some(playlistId), Some(p), targetId) == Some(r);
      SpliceOut(items, i);
      assert items[i] in items && multiset(r) + multiset{items[i]} == multiset(items);
    }
  }

  /** The written list is one entry shorter. */
  lemma RemoveShortens(playlistId: string, p: Playlist, targetId: string)
    requires p.songs.Some?
    ensures var r := Removed(Some(playlistId), Some(p), targetId);
      r.Some? ==> |r.value| == |p.songs.value| - 1
  {
  }

  lemma SpliceOut<T>(s: seq<T>, i: nat)
    requires i < |s|
    ensures |s[..i] + s[i + 1..]| == |s| - 1
    ensures multiset(s[..i] + s[i + 1..]) + multiset{s[i]} == multiset(s)
  {
    assert s == s[..i] + [s[i]] + s[i + 1..];
  }

  /** Entries that share a song are told apart by their element id: only
      the targeted one goes, even when another lists the same song. */
  lemma RemoveKeepsSameSong(playlistId: string, p: Playlist, a: PlaylistItem, b: PlaylistItem)
    requires p.songs == Some([a, b]) && a.songId == b.songId && a.id != b.id
    ensures Removed(Some(playlistId), Some(p), b.id) == Some([a])
  {
    var items := [a, b];
    assert items[1..] == [b];
    assert FindIndex([b], b.id) == 0;
    assert FindIndex(items, b.id) == 1;
    assert items[..1] + items[2..] == [a];
  }

  /** `usePlaylistRename`: a missing id or a missing document changes nothing. */
  function Rename(playlistId: Option<string>, data: Option<Playlist>, name: string, now: Timestamp): (r: Option<Playlist>)
    ensures r.None? <==> playlistId.None? || data.None?
    ensures r.Some? ==> r.value.name == name && r.value.updatedAt == now
    ensures r.Some? ==> r.value.songs == data.value.songs && r.value.deleted == data.value.deleted
                        && r.value.id == data.value.id && r.value.createdAt == data.value.createdAt
  {
    if playlistId.None? || data.None? then None
    else Some(data.value.(name := name, updatedAt := now))
  }

  /** `usePlaylistDelete`: a soft delete that only raises the flag and sets
      the update time. */
  function Delete(playlistId: Option<string>, data: Playlist, now: Timestamp): (r: Option<Playlist>)
    ensures r.None? <==> playlistId.None?
    ensures r.Some? ==> r.value.deleted && r.value.updatedAt == now
    ensures r.Some? ==> r.value.songs == data.songs && r.value.name == data.name && r.value.id == data.id
                        && r.value.createdAt == data.createdAt
  {
    if playlistId.None? then None
    else Some(data.(deleted := true, updatedAt := now))
  }

  /** `usePlaylist`: the first playlist with the id, if the list is loaded. */
  function Find(playlists: Option<seq<Playlist>>, playlistId: Option<string>): (r: Option<Playlist>)
    ensures r.Some? ==> playlists.Some? && r.value in playlists.value && Some(r.value.id) == playlistId
    ensures r.None? && playlists.Some? ==> forall p :: p in playlists.value ==> Some(p.id) != playlistId
  {
    match playlists
    case None => None
    case Some(ps) => FindIn(ps, playlistId)
  }

  function FindIn(ps: seq<Playlist>, playlistId: Option<string>): (r: Option<Playlist>)
    ensures r.Some? ==> r.value in ps && Some(r.value.id) == playlistId
    ensures r.None? ==> forall p :: p in ps ==> Some(p.id) != playlistId
    ensures r.Some? ==> exists i :: 0 <= i < |ps| && ps[i] == r.value && forall k :: 0 <= k < i ==> Some(ps[k].id) != playlistId
  {
    if ps == [] then None
    else if Some(ps[0].id) == playlistId then Some(ps[0])
    else
      var rest := FindIn(ps[1..], playlistId);
      if rest.Some? then
        ghost var i :| 0 <= i < |ps[1..]| && ps[1..][i] == rest.value && forall k :: 0 <= k < i ==> Some(ps[1..][k].id) != playlistId;
        assert ps[i + 1] == rest.value;
        rest
      else rest
  }

  // ---------------------------------------------------------------------------
  // usePlaylistSongs
  // ---------------------------------------------------------------------------

  /** The entries whose song the lookup knows, in playlist order. */
  function KnownItems(items: seq<PlaylistItem>, lookup: map<string, Song>): (r: seq<PlaylistItem>)
    ensures forall x :: x in r <==> x in items && x.songId in lookup
    ensures |r| <= |items|
    ensures (forall k :: 0 <= k < |items| ==> items[k].songId in lookup) ==> r == items
  {
    if items == [] then []
    else
      var init := KnownItems(items[..|items| - 1], lookup);
      var last := items[|items| - 1];
      assert items == items[..|items| - 1] + [last];
      if last.songId in lookup then init + [last] else init
  }

  /** An entry's song, tagged with the entry's element id. */
  function Tagged(item: PlaylistItem, lookup: map<string, Song>): Song
    requires item.songId in lookup
  {
    lookup[item.songId].(playlistId := Some(item.id))
  }

  /** `usePlaylistSongs`: the known entries' songs, each tagged with its
      element id as `playlistId`; undefined while the playlist or its list
      is. */
  function PlaylistSongs(playlist: Option<Playlist>, lookup: map<string, Song>): (r: Option<seq<Song>>)
    ensures r.None? <==> playlist.None? || playlist.value.songs.None?
    ensures r.Some? ==>
      var known := KnownItems(playlist.value.songs.value, lookup);
      && |r.value| == |known|
      && forall k :: 0 <= k < |known| ==> known[k].songId in lookup && r.value[k] == Tagged(known[k], lookup)
  {
    if playlist.None? || playlist.value.songs.None? then None
    else
      var known := KnownItems(playlist.value.songs.value, lookup);
      Some(seq(|known|, k requires 0 <= k < |known| => Tagged(known[k], lookup)))
  }

  /** Every song listed comes from an entry of the playlist whose song is
      known, carries that song's data and the entry's element id; and every
      such entry is listed. */
  lemma PlaylistSongsFromEntries(p: Playlist, lookup: map<string, Song>)
    requires p.songs.Some?
    ensures var r := PlaylistSongs(Some(p), lookup).value;
      && (forall s :: s in r ==> exists item :: item in p.songs.value && item.songId in lookup && s == Tagged(item, lookup))
      && (forall item :: item in p.songs.value && item.songId in lookup ==> Tagged(item, lookup) in r)
  {
    var known := KnownItems(p.songs.value, lookup);
    var r := PlaylistSongs(Some(p), lookup).value;
    forall s | s in r
      ensures exists item :: item in p.songs.value && item.songId in lookup && s == Tagged(item, lookup)
    {
      var k :| 0 <= k < |r| && r[k] == s;
      assert known[k] in known;
    }
    forall item | item in p.songs.value && item.songId in lookup
      ensures Tagged(item, lookup) in r
    {
      assert item in known;
      var k :| 0 <= k < |known| && known[k] == item;
      assert r[k] == Tagged(item, lookup);
    }
  }
}
