/** Album grouping of app/src/queries/album.ts: songs are filed under their
    album artist and album name, the albums are listed in name order, and a
    change batch that brings nothing new skips the regrouping. */
module Albums {
  import opened Wrappers
  import opened Types
  import opened Sorting
  import UniversalUtils

  /** `getAlbumArtistFromSong(song)` = `(song.albumArtist || song.artist) ?? ""`. */
  function AlbumArtistOf(song: Song): (r: string)
    ensures song.albumArtist.Some? && song.albumArtist.value != "" ==> r == song.albumArtist.value
    ensures !(song.albumArtist.Some? && song.albumArtist.value != "") ==> r == song.artist.GetOr("")
  {
    // `||` yields its left operand when that is truthy, else its right one.
    var either := if song.albumArtist.Some? && song.albumArtist.value != "" then song.albumArtist else song.artist;
    either.GetOr("")
  }

  /** What the local `getAlbumAttributes(song)` returns. */
  datatype Attributes = Attributes(artist: string, album: string, id: string)

  function AttributesOf(song: Song): Attributes {
    var artist := AlbumArtistOf(song);
    var album := song.albumName.GetOr("");
    Attributes(artist, album, artist + UniversalUtils.AlbumIdDivider + album)
  }

  /** The fields of a song that the shared `createAlbumId` reads. */
  function KeyOf(song: Song): UniversalUtils.AlbumKey {
    UniversalUtils.AlbumKey(song.albumName, song.albumArtist, song.artist)
  }

  /** The app builds the same album id from a song as the shared
      `createAlbumId` does from the song's fields. */
  lemma SameIdAsShared(song: Song)
    ensures AttributesOf(song).id == UniversalUtils.CreateAlbumId(KeyOf(song))
    ensures AttributesOf(song).artist == UniversalUtils.TruthyArtist(KeyOf(song))
  {
  }

  /** An album of the lookup: `songs` lists song ids, `songIds` holds them. */
  datatype Album = Album(id: string, album: string, artist: string, songs: seq<string>, songIds: set<string>)

  /** The lookup `calculateAlbums` builds: artist, then album name. */
  type Lookup = map<string, map<string, Album>>

  /** The ids of the songs filed under `artist` and `album`, in input order. */
  function IdsIn(songs: seq<Song>, artist: string, album: string): (r: seq<string>)
    ensures |r| <= |songs|
  {
    if songs == [] then []
    else
      var last := songs[|songs| - 1];
      var attrs := AttributesOf(last);
      IdsIn(songs[..|songs| - 1], artist, album) + (if attrs.artist == artist && attrs.album == album then [last.id] else [])
  }

  /** The album holding `ids`. */
  function Collected(artist: string, album: string, ids: seq<string>): Album {
    Album(artist + UniversalUtils.AlbumIdDivider + album, album, artist, ids, set x | x in ids)
  }

  /** One step of the `forEach` in `calculateAlbums`: the song's artist entry
      and album are created when missing, then the album gains the song's id.
      Other artists keep their entries, and the song's artist keeps its other
      albums. */
  function FileSong(lookup: Lookup, song: Song): (r: Lookup)
    ensures var attrs := AttributesOf(song);
      && r.Keys == lookup.Keys + {attrs.artist}
      && r[attrs.artist].Keys == (if attrs.artist in lookup then lookup[attrs.artist].Keys else {}) + {attrs.album}
    ensures var attrs := AttributesOf(song);
      forall artist :: artist in lookup && artist != attrs.artist ==> r[artist] == lookup[artist]
    ensures var attrs := AttributesOf(song);
      forall album :: attrs.artist in lookup && album in lookup[attrs.artist] && album != attrs.album ==>
        r[attrs.artist][album] == lookup[attrs.artist][album]
    ensures var entry := r[AttributesOf(song).artist][AttributesOf(song).album];
      entry.songs != [] && entry.songs[|entry.songs| - 1] == song.id && song.id in entry.songIds
  {
    var attrs := AttributesOf(song);
    var artistMap := if attrs.artist in lookup then lookup[attrs.artist] else map[];
    var entry := if attrs.album in artistMap then artistMap[attrs.album] else Album(attrs.id, attrs.album, attrs.artist, [], {});
    lookup[attrs.artist := artistMap[attrs.album := entry.(songs := entry.songs + [song.id], songIds := entry.songIds + {song.id})]]
  }

  /** What `calculateAlbums(songs)` returns: the songs filed one by one,
      starting from an empty lookup. Its artists are those of the songs. */
  function AlbumLookup(songs: seq<Song>): (r: Lookup)
    ensures r.Keys == ArtistsOf(songs)
  {
    if songs == [] then map[]
    else
      var init := songs[..|songs| - 1];
      ArtistsStep(songs, init);
      FileSong(AlbumLookup(init), songs[|songs| - 1])
  }

  /** The album artists of the songs. */
  ghost function ArtistsOf(songs: seq<Song>): set<string> {
    set i | 0 <= i < |songs| :: AttributesOf(songs[i]).artist
  }

  lemma ArtistsStep(songs: seq<Song>, init: seq<Song>)
    requires songs != [] && init == songs[..|songs| - 1]
    ensures ArtistsOf(songs) == ArtistsOf(init) + {AttributesOf(songs[|songs| - 1]).artist}
  {
    forall a | a in ArtistsOf(songs) ensures a in ArtistsOf(init) + {AttributesOf(songs[|songs| - 1]).artist} {
      var i :| 0 <= i < |songs| && a == AttributesOf(songs[i]).artist;
      if i < |init| {
        assert a == AttributesOf(init[i]).artist;
      }
    }
    forall a | a in ArtistsOf(init) ensures a in ArtistsOf(songs) {
      var i :| 0 <= i < |init| && a == AttributesOf(init[i]).artist;
      assert a == AttributesOf(songs[i]).artist;
    }
  }

  /** `calculateAlbums(songs)`. */
  method CalculateAlbums(songs: seq<Song>) returns (lookup: Lookup)
    ensures lookup == AlbumLookup(songs)
  {
    lookup := map[];
    for i := 0 to |songs|
      invariant lookup == AlbumLookup(songs[..i])
    {
      lookup := AddSong(lookup, songs[i]);
      assert songs[..i + 1][..i] == songs[..i];
    }
    assert songs[..|songs|] == songs;
  }

  /** The callback `calculateAlbums` passes to `forEach`, updating the
      lookup in three steps. */
  method AddSong(lookup0: Lookup, song: Song) returns (lookup: Lookup)
    ensures lookup == FileSong(lookup0, song)
  {
    lookup := lookup0;
    var attrs := AttributesOf(song);
    if attrs.artist !in lookup {
      lookup := lookup[attrs.artist := map[]];
    }
    if attrs.album !in lookup[attrs.artist] {
      lookup := lookup[attrs.artist := lookup[attrs.artist][attrs.album := Album(attrs.id, attrs.album, attrs.artist, [], {})]];
    }
    var entry := lookup[attrs.artist][attrs.album];
    entry := entry.(songs := entry.songs + [song.id], songIds := entry.songIds + {song.id});
    lookup := lookup[attrs.artist := lookup[attrs.artist][attrs.album := entry]];
    assert lookup[attrs.artist] == FileSong(lookup0, song)[attrs.artist];
  }

  /** Filing a song touches only its own album. */
  lemma FileSongAt(lookup: Lookup, song: Song, artist: string, album: string)
    ensures var after := FileSong(lookup, song);
      var attrs := AttributesOf(song);
      var own := attrs.artist == artist && attrs.album == album;
      && ((artist in after && album in after[artist]) <==> own || (artist in lookup && album in lookup[artist]))
      && (!own && artist in lookup && album in lookup[artist] ==> after[artist][album] == lookup[artist][album])
      && (own ==>
            after[artist][album].songs == (if artist in lookup && album in lookup[artist] then lookup[artist][album].songs else []) + [song.id])
      && (own ==>
            after[artist][album].songIds == (if artist in lookup && album in lookup[artist] then lookup[artist][album].songIds else {}) + {song.id})
      && (own && !(artist in lookup && album in lookup[artist]) ==>
            after[artist][album].id == artist + UniversalUtils.AlbumIdDivider + album &&
            after[artist][album].artist == artist && after[artist][album].album == album)
  {
  }

  /** The lookup holds an album for exactly the artist and album name pairs
      that collect some id, and that album holds exactly those ids. */
  lemma {:induction false} LookupHoldsIds(songs: seq<Song>)
    ensures forall artist, album :: artist in AlbumLookup(songs) && album in AlbumLookup(songs)[artist] ==>
              AlbumLookup(songs)[artist][album] == Collected(artist, album, IdsIn(songs, artist, album))
    ensures forall artist, album :: IdsIn(songs, artist, album) != [] <==>
              artist in AlbumLookup(songs) && album in AlbumLookup(songs)[artist]
    decreases |songs|
  {
    if songs != [] {
      var init := songs[..|songs| - 1];
      var song := songs[|songs| - 1];
      LookupHoldsIds(init);
      forall artist, album
        ensures IdsIn(songs, artist, album) != [] <==> artist in AlbumLookup(songs) && album in AlbumLookup(songs)[artist]
        ensures artist in AlbumLookup(songs) && album in AlbumLookup(songs)[artist] ==>
                  AlbumLookup(songs)[artist][album] == Collected(artist, album, IdsIn(songs, artist, album))
      {
          assert songs == init + [song];
        FileOneAlbum(init, song, artist, album);
      }
    }
  }

  lemma FileOneAlbum(init: seq<Song>, song: Song, artist: string, album: string)
    requires artist in AlbumLookup(init) && album in AlbumLookup(init)[artist] ==>
               AlbumLookup(init)[artist][album] == Collected(artist, album, IdsIn(init, artist, album))
    requires IdsIn(init, artist, album) != [] <==> artist in AlbumLookup(init) && album in AlbumLookup(init)[artist]
    ensures var songs := init + [song];
      && (IdsIn(songs, artist, album) != [] <==> artist in AlbumLookup(songs) && album in AlbumLookup(songs)[artist])
      && (artist in AlbumLookup(songs) && album in AlbumLookup(songs)[artist] ==>
            AlbumLookup(songs)[artist][album] == Collected(artist, album, IdsIn(songs, artist, album)))
  {
    var songs := init + [song];
    assert songs[..|songs| - 1] == init;
    var before, after := AlbumLookup(init), AlbumLookup(songs);
    assert after == FileSong(before, song);
    var ids := IdsIn(init, artist, album);
    FileSongAt(before, song, artist, album);
    if AttributesOf(song).artist == artist && AttributesOf(song).album == album {
      assert IdsIn(songs, artist, album) == ids + [song.id];
      OwnAlbum(before, after, song, ids);
    } else {
      assert IdsIn(songs, artist, album) == ids + [];
      assert IdsIn(songs, artist, album) == ids;
      if artist in after && album in after[artist] {
        assert after[artist][album] == before[artist][album];
      }
    }
  }

  lemma OwnAlbum(before: Lookup, after: Lookup, song: Song, ids: seq<string>)
    requires after == FileSong(before, song)
    requires var attrs := AttributesOf(song);
      && (attrs.artist in before && attrs.album in before[attrs.artist] ==>
            before[attrs.artist][attrs.album] == Collected(attrs.artist, attrs.album, ids))
      && (ids != [] <==> attrs.artist in before && attrs.album in before[attrs.artist])
    ensures var attrs := AttributesOf(song);
      attrs.artist in after && attrs.album in after[attrs.artist] &&
      after[attrs.artist][attrs.album] == Collected(attrs.artist, attrs.album, ids + [song.id])
  {
    var attrs := AttributesOf(song);
    FileSongAt(before, song, attrs.artist, attrs.album);
    assert (set x | x in ids + [song.id]) == (set x | x in ids) + {song.id};
  }

  /** Song `s` has id `id` and is filed under `artist` and `album`. */
  predicate FiledAs(s: Song, artist: string, album: string, id: string) {
    s.id == id && AttributesOf(s).artist == artist && AttributesOf(s).album == album
  }

  /** An id is listed in an album exactly when some song with that id has
      that album's artist and name. */
  lemma {:induction false} AlbumMembers(songs: seq<Song>, artist: string, album: string, id: string)
    ensures id in IdsIn(songs, artist, album) <==> exists i :: 0 <= i < |songs| && FiledAs(songs[i], artist, album, id)
    decreases |songs|
  {
    if songs != [] {
      AlbumMembers(songs[..|songs| - 1], artist, album, id);
      IdsStep(songs, artist, album, id);
      FiledStep(songs, songs[..|songs| - 1], artist, album, id);
    }
  }

  lemma IdsStep(songs: seq<Song>, artist: string, album: string, id: string)
    requires songs != []
    ensures id in IdsIn(songs, artist, album) <==>
      id in IdsIn(songs[..|songs| - 1], artist, album) || FiledAs(songs[|songs| - 1], artist, album, id)
  {
    var n := |songs| - 1;
    var attrs := AttributesOf(songs[n]);
    var tail := if attrs.artist == artist && attrs.album == album then [songs[n].id] else [];
    assert IdsIn(songs, artist, album) == IdsIn(songs[..n], artist, album) + tail;
    assert id in tail <==> FiledAs(songs[n], artist, album, id);
  }

  lemma FiledStep(songs: seq<Song>, init: seq<Song>, artist: string, album: string, id: string)
    requires songs != [] && init == songs[..|songs| - 1]
    ensures (exists i :: 0 <= i < |songs| && FiledAs(songs[i], artist, album, id)) <==>
      (exists i :: 0 <= i < |init| && FiledAs(init[i], artist, album, id))
      || FiledAs(songs[|songs| - 1], artist, album, id)
  {
    var n := |songs| - 1;
    if exists i :: 0 <= i < n && FiledAs(init[i], artist, album, id) {
      var i :| 0 <= i < n && FiledAs(init[i], artist, album, id);
      assert FiledAs(songs[i], artist, album, id);
    }
    if exists i :: 0 <= i < |songs| && FiledAs(songs[i], artist, album, id) {
      var i :| 0 <= i < |songs| && FiledAs(songs[i], artist, album, id);
      if i < n {
        assert FiledAs(init[i], artist, album, id);
      }
    }
  }

  /** Every song is filed: its album exists and lists and holds its id. */
  lemma EverySongFiled(songs: seq<Song>, i: nat)
    requires i < |songs|
    ensures var attrs := AttributesOf(songs[i]);
      var lookup := AlbumLookup(songs);
      && attrs.artist in lookup && attrs.album in lookup[attrs.artist]
      && songs[i].id in lookup[attrs.artist][attrs.album].songs
      && songs[i].id in lookup[attrs.artist][attrs.album].songIds
  {
    var attrs := AttributesOf(songs[i]);
    AlbumMembers(songs, attrs.artist, attrs.album, songs[i].id);
    assert FiledAs(songs[i], attrs.artist, attrs.album, songs[i].id);
    LookupHoldsIds(songs);
  }

  /** Each album's set of ids is the set of its listed ids, its id is made of
      its artist and name, and it lists at least one song. */
  lemma AlbumsWellFormed(songs: seq<Song>, artist: string, album: string)
    requires artist in AlbumLookup(songs) && album in AlbumLookup(songs)[artist]
    ensures var a := AlbumLookup(songs)[artist][album];
      && a.songIds == set x | x in a.songs
      && a.id == artist + UniversalUtils.AlbumIdDivider + album
      && a.artist == artist && a.album == album
      && |a.songs| >= 1
  {
    LookupHoldsIds(songs);
  }

  /** The artist and album name pairs of the lookup are those of the songs,
      so there are as many albums as distinct pairs. */
  lemma AlbumKeys(songs: seq<Song>)
    ensures (set artist, album | artist in AlbumLookup(songs) && album in AlbumLookup(songs)[artist] :: (artist, album))
         == (set i | 0 <= i < |songs| :: (AttributesOf(songs[i]).artist, AttributesOf(songs[i]).album))
  {
    var lookup := AlbumLookup(songs);
    var left := set artist, album | artist in lookup && album in lookup[artist] :: (artist, album);
    var right := set i | 0 <= i < |songs| :: (AttributesOf(songs[i]).artist, AttributesOf(songs[i]).album);
    forall p | p in right ensures p in left {
      var i :| 0 <= i < |songs| && p == (AttributesOf(songs[i]).artist, AttributesOf(songs[i]).album);
      EverySongFiled(songs, i);
      assert p.0 in lookup && p.1 in lookup[p.0];
    }
    forall p | p in left ensures p in right {
      var i := SongOfAlbum(songs, p.0, p.1);
    }
  }

  /** A song filed under an album of the lookup. */
  lemma SongOfAlbum(songs: seq<Song>, artist: string, album: string) returns (i: nat)
    requires artist in AlbumLookup(songs) && album in AlbumLookup(songs)[artist]
    ensures i < |songs| && AttributesOf(songs[i]).artist == artist && AttributesOf(songs[i]).album == album
  {
    LookupHoldsIds(songs);
    var ids := IdsIn(songs, artist, album);
    assert ids[0] in ids;
    AlbumMembers(songs, artist, album, ids[0]);
    var k :| 0 <= k < |songs| && FiledAs(songs[k], artist, album, ids[0]);
    i := k;
  }

  // ---------------------------------------------------------------------
  // The skip check of `useAlbumLookup`

  /** `changed.every(...)`: each changed song's album is already there and
      already holds the song's id. */
  predicate AlreadyFiled(lookup: Lookup, changed: seq<Song>) {
    forall j :: 0 <= j < |changed| ==> Filed(lookup, changed[j])
  }

  predicate Filed(lookup: Lookup, song: Song) {
    var attrs := AttributesOf(song);
    attrs.artist in lookup && attrs.album in lookup[attrs.artist] &&
    song.id in lookup[attrs.artist][attrs.album].songIds
  }

  /** Some song of `songs` has the id, artist and album name of `song`. */
  predicate HasMatch(songs: seq<Song>, song: Song) {
    exists i :: 0 <= i < |songs| && songs[i].id == song.id &&
      AttributesOf(songs[i]).artist == AttributesOf(song).artist &&
      AttributesOf(songs[i]).album == AttributesOf(song).album
  }

  /** A song counts as filed in the lookup built from `songs` exactly when
      it matches one of them. */
  lemma FiledExactly(songs: seq<Song>, song: Song)
    ensures Filed(AlbumLookup(songs), song) <==> HasMatch(songs, song)
  {
    var attrs := AttributesOf(song);
    LookupHoldsIds(songs);
    AlbumMembers(songs, attrs.artist, attrs.album, song.id);
  }

  /** On a lookup built from `songs`, the update is skipped exactly when each
      changed song matches, in id, artist and album name, a song it was built
      from. */
  lemma SkipExactly(songs: seq<Song>, changed: seq<Song>)
    ensures AlreadyFiled(AlbumLookup(songs), changed) <==> forall j :: 0 <= j < |changed| ==> HasMatch(songs, changed[j])
  {
    forall j | 0 <= j < |changed| ensures Filed(AlbumLookup(songs), changed[j]) <==> HasMatch(songs, changed[j]) {
      FiledExactly(songs, changed[j]);
    }
  }

  // ---------------------------------------------------------------------
  // useAlbum and the order of useAlbums

  /** `useAlbum({album, artist})`: `albums[artist] && albums[artist][album]`. */
  function FindAlbum(lookup: Lookup, artist: string, album: string): (r: Option<Album>)
    ensures r.Some? <==> artist in lookup && album in lookup[artist]
    ensures r.Some? ==> r.value == lookup[artist][album]
  {
    if artist in lookup && album in lookup[artist] then Some(lookup[artist][album]) else None
  }

  /** The comparison `useAlbums` sorts with. An album without a name goes
      after any other; on equal names the tie-break compares `b.artist` with
      itself, which is always 0. Between named albums only the names decide. */
  function CompareAlbums(a: Album, b: Album): (r: int)
    ensures a.album == "" ==> r == 1
    ensures a.album != "" && b.album == "" ==> r == -1
    ensures a.album != "" && b.album != "" ==>
      (r == 0 <==> a.album == b.album) && (r < 0 <==> CompareStrings(a.album, b.album) < 0)
  {
    if a.album == "" then 1
    else if b.album == "" then -1
    else
      var result := CompareStrings(a.album, b.album);
      if result == 0 then CompareStrings(b.artist, b.artist) else result
  }

  /** Albums with the same non-empty name compare equal whatever their
      artists, so the stable sort keeps them in the order it found them. */
  lemma SameNameTies(a: Album, b: Album)
    requires a.album == b.album && a.album != ""
    ensures CompareAlbums(a, b) == 0 && CompareAlbums(b, a) == 0
  {
  }

  /** Two albums without a name each claim to come after the other. */
  lemma UnnamedAlbumsInconsistent(a: Album, b: Album)
    requires a.album == "" && b.album == ""
    ensures CompareAlbums(a, b) > 0 && CompareAlbums(b, a) > 0
  {
  }

  /** Named albums come first, in name order, and unnamed ones last. */
  ghost predicate InAlbumOrder(xs: seq<Album>) {
    forall i, j :: 0 <= i < j < |xs| ==>
      (xs[i].album == "" ==> xs[j].album == "") &&
      (xs[j].album != "" ==> CompareStrings(xs[i].album, xs[j].album) <= 0)
  }

  /** `albums.sort(...)`. */
  function SortAlbums(albums: seq<Album>): (r: seq<Album>)
    ensures multiset(r) == multiset(albums)
    ensures InAlbumOrder(r)
  {
    SortAlbumsOrdered(albums);
    SortBy(albums, CompareAlbums)
  }

  lemma {:induction false} SortAlbumsOrdered(albums: seq<Album>)
    ensures InAlbumOrder(SortBy(albums, CompareAlbums))
    decreases |albums|
  {
    if albums != [] {
      SortAlbumsOrdered(albums[..|albums| - 1]);
      InsertInAlbumOrder(albums[|albums| - 1], SortBy(albums[..|albums| - 1], CompareAlbums));
    }
  }

  lemma {:induction false} InsertInAlbumOrder(x: Album, ys: seq<Album>)
    requires InAlbumOrder(ys)
    ensures InAlbumOrder(Insert(x, ys, CompareAlbums))
    decreases |ys|
  {
    if ys != [] {
      if CompareAlbums(ys[0], x) <= 0 {
        InsertInAlbumOrder(x, ys[1..]);
        var r := Insert(x, ys[1..], CompareAlbums);
        assert InAlbumOrder(ys[1..]);
        NamedHeadBefore(x, ys, r);
      } else {
        UnnamedOrLaterHead(x, ys);
      }
    }
  }

  lemma NamedHeadBefore(x: Album, ys: seq<Album>, r: seq<Album>)
    requires ys != [] && InAlbumOrder(ys) && InAlbumOrder(r) && CompareAlbums(ys[0], x) <= 0
    requires forall z :: z in r <==> z in ys[1..] || z == x
    ensures InAlbumOrder([ys[0]] + r)
  {
    var h := ys[0];
    assert h.album != "";
    forall k | 0 <= k < |r| && r[k].album != "" ensures CompareStrings(h.album, r[k].album) <= 0 {
      assert r[k] in r;
      if r[k] == x {
        if CompareStrings(h.album, x.album) == 0 {
        }
      } else {
        var m :| 0 <= m < |ys[1..]| && ys[1..][m] == r[k];
        assert ys[1 + m] == r[k];
      }
    }
    var hr := [h] + r;
    forall i, j | 0 <= i < j < |hr|
      ensures (hr[i].album == "" ==> hr[j].album == "") &&
              (hr[j].album != "" ==> CompareStrings(hr[i].album, hr[j].album) <= 0)
    {
      assert hr[j] == r[j - 1];
      if i > 0 {
        assert hr[i] == r[i - 1];
      }
    }
  }

  lemma UnnamedOrLaterHead(x: Album, ys: seq<Album>)
    requires ys != [] && InAlbumOrder(ys) && CompareAlbums(ys[0], x) > 0
    ensures InAlbumOrder([x] + ys)
  {
    var xs := [x] + ys;
    forall k | 0 <= k < |ys|
      ensures (x.album == "" ==> ys[k].album == "") &&
              (ys[k].album != "" ==> CompareStrings(x.album, ys[k].album) <= 0)
    {
      if ys[0].album != "" {
        // Both named, and `x` has the smaller name.
        assert x.album != "" && CompareStrings(ys[0].album, x.album) > 0;
        CompareFlips(ys[0].album, x.album);
        if k > 0 && ys[k].album != "" {
          CompareTransitive(x.album, ys[0].album, ys[k].album);
        }
      }
    }
    forall i, j | 0 <= i < j < |xs|
      ensures (xs[i].album == "" ==> xs[j].album == "") &&
              (xs[j].album != "" ==> CompareStrings(xs[i].album, xs[j].album) <= 0)
    {
      assert xs[j] == ys[j - 1];
      if i > 0 {
        assert xs[i] == ys[i - 1];
      }
    }
  }
}
