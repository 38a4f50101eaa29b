/** The grouping loop of `useSearch` (app/src/search.ts). The fuzzy ranking
    itself is an input: `ranked` is what `fuse.search(text)` returns. The loop
    keeps the first `numItems` songs, the first `numItems` distinct artists
    and the first `numItems` distinct albums, and gives each artist and album
    the first song with artwork it meets while its list still has room. */
module Search {
  import opened Wrappers
  import opened Types
  import Albums

  /** How many entries each list holds unless the caller says otherwise. */
  const DefaultNumItems := 8

  /** One entry of the artist or album list: its key (the artist name, or
      the album artist and album name) and its representative song. */
  datatype Entry<K> = Entry(key: K, song: Option<Song>)

  /** A song entry: the song, shown with its title and its artist. */
  datatype SongResult = SongResult(song: Song, title: string, subtitle: Option<string>)

  datatype SearchResults = SearchResults(
    songs: seq<SongResult>,
    artists: seq<Entry<string>>,
    albums: seq<Entry<(string, string)>>)

  function ToSongResult(item: Song): SongResult {
    SongResult(item, item.title, item.artist)
  }

  /** The artist an item is listed under, when `item.artist` is truthy. */
  function ArtistKey(item: Song): Option<string> {
    if item.artist.Some? && item.artist.value != "" then Some(item.artist.value) else None
  }

  /** The album an item is listed under, when `item.albumName` is truthy. */
  function AlbumKey(item: Song): Option<(string, string)> {
    if item.albumName.Some? && item.albumName.value != "" then
      Some((Albums.AlbumArtistOf(item), item.albumName.value))
    else None
  }

  function ArtistKeys(items: seq<Song>): (r: seq<Option<string>>)
    ensures |r| == |items| && forall t :: 0 <= t < |items| ==> r[t] == ArtistKey(items[t])
  {
    seq(|items|, t requires 0 <= t < |items| => ArtistKey(items[t]))
  }

  function AlbumKeys(items: seq<Song>): (r: seq<Option<(string, string)>>)
    ensures |r| == |items| && forall t :: 0 <= t < |items| ==> r[t] == AlbumKey(items[t])
  {
    seq(|items|, t requires 0 <= t < |items| => AlbumKey(items[t]))
  }

  // ---------------------------------------------------------------------
  // What the lists should hold

  /** The keys that occur, in order of first occurrence. */
  function Distinct<K(==,!new)>(keys: seq<Option<K>>): (r: seq<K>)
    ensures forall a, b :: 0 <= a < b < |r| ==> r[a] != r[b]
    ensures forall k :: k in r <==> Some(k) in keys
  {
    if keys == [] then []
    else
      var d := Distinct(keys[..|keys| - 1]);
      assert keys == keys[..|keys| - 1] + [keys[|keys| - 1]];
      match keys[|keys| - 1]
      case None => d
      case Some(k) => if k in d then d else d + [k]
  }

  /** The first `cap` elements, or all of them when there are fewer. */
  function Take<T>(xs: seq<T>, cap: int): (r: seq<T>)
    ensures cap <= 0 ==> r == []
    ensures 0 <= cap <= |xs| ==> r == xs[..cap]
    ensures cap >= |xs| ==> r == xs
  {
    if cap <= 0 then [] else if cap <= |xs| then xs[..cap] else xs
  }

  /** The first item with artwork listed under `k`. */
  function FirstWithArtwork<K(==)>(keys: seq<Option<K>>, items: seq<Song>, k: K): (r: Option<Song>)
    requires |keys| == |items|
    ensures r.Some? ==> exists t :: 0 <= t < |items| && keys[t] == Some(k) && items[t].artwork.Some? && items[t] == r.value
    ensures r.None? ==> forall t :: 0 <= t < |items| && keys[t] == Some(k) ==> items[t].artwork.None?
  {
    if keys == [] then None
    else
      var n := |keys| - 1;
      var before := FirstWithArtwork(keys[..n], items[..n], k);
      assert forall t :: 0 <= t < n ==> keys[..n][t] == keys[t] && items[..n][t] == items[t];
      if before.Some? then before
      else if keys[n] == Some(k) && items[n].artwork.Some? then Some(items[n])
      else None
  }

  /** How many items the list takes in: all of them, or those up to and
      including the one whose key makes it full. Items after that point can
      neither add nor set an entry. */
  ghost function Filled<K(!new)>(keys: seq<Option<K>>, cap: int): (n: nat)
    ensures n <= |keys|
  {
    if keys == [] then 0
    else if |Distinct(keys[..|keys| - 1])| >= cap then Filled(keys[..|keys| - 1], cap)
    else |keys|
  }

  function EntryKeys<K>(entries: seq<Entry<K>>): (r: seq<K>)
    ensures |r| == |entries| && forall j :: 0 <= j < |entries| ==> r[j] == entries[j].key
  {
    seq(|entries|, j requires 0 <= j < |entries| => entries[j].key)
  }

  /** What one list holds after the items `items`, whose keys are `keys`:
      the first `cap` distinct keys in order of first occurrence, each with
      the first item with artwork under it among the items the list took in. */
  ghost predicate Grouped<K(!new)>(entries: seq<Entry<K>>, keys: seq<Option<K>>, items: seq<Song>, cap: int)
    requires |keys| == |items|
  {
    && EntryKeys(entries) == Take(Distinct(keys), cap)
    && var f := Filled(keys, cap);
       forall j :: 0 <= j < |entries| ==> entries[j].song == FirstWithArtwork(keys[..f], items[..f], entries[j].key)
  }

  /** The list and its index `seen`, which gives each listed key's position. */
  ghost predicate GroupState<K(!new)>(entries: seq<Entry<K>>, seen: map<K, nat>, keys: seq<Option<K>>, items: seq<Song>, cap: int) {
    && |keys| == |items|
    && Grouped(entries, keys, items, cap)
    && Indexed(entries, seen)
  }

  ghost predicate Indexed<K(!new)>(entries: seq<Entry<K>>, seen: map<K, nat>) {
    && (forall k :: k in seen ==> seen[k] < |entries| && entries[seen[k]].key == k)
    && (forall j :: 0 <= j < |entries| ==> entries[j].key in seen)
  }

  /** A list that has not been full: every key that occurred, each with its
      first item with artwork. */
  ghost predicate Complete<K(!new)>(entries: seq<Entry<K>>, keys: seq<Option<K>>, items: seq<Song>)
    requires |keys| == |items|
  {
    && EntryKeys(entries) == Distinct(keys)
    && forall j :: 0 <= j < |entries| ==> entries[j].song == FirstWithArtwork(keys, items, entries[j].key)
  }

  /** One artist or album step of the loop body: while the list has room
      and the item has a key, the key is listed on first sight, and its entry
      takes the item as representative if it has none and the item has
      artwork. */
  method Note<K(==,!new)>(entries0: seq<Entry<K>>, seen0: map<K, nat>, key: Option<K>, item: Song, cap: int,
                 ghost keys: seq<Option<K>>, ghost items: seq<Song>)
    returns (entries: seq<Entry<K>>, seen: map<K, nat>)
    requires GroupState(entries0, seen0, keys, items, cap)
    ensures GroupState(entries, seen, keys + [key], items + [item], cap)
  {
    entries, seen := entries0, seen0;
    if |entries| < cap && key.Some? {
      OpenComplete(entries0, keys, items, cap);
      var k := key.value;
      if k !in seen {
        Unlisted(entries0, seen0, k, keys, items);
        entries := entries + [Entry(k, None)];
        seen := seen[k := |entries| - 1];
        ListNew(entries0, seen0, k);
      }
      var j := seen[k];
      ghost var listed := entries;
      if entries[j].song.None? && item.artwork.Some? {
        entries := entries[j := entries[j].(song := Some(item))];
        SetSong(listed, seen, j, Some(item));
      }
      if k in seen0 {
        if entries0[j].song.None? && item.artwork.Some? {
          CompleteSet(entries0, keys, items, j, item);
        } else {
          CompleteKept(entries0, keys, items, j, item);
        }
      } else {
        assert entries == entries0 + [Entry(k, if item.artwork.Some? then Some(item) else None)];
        CompleteNew(entries0, keys, items, k, item);
      }
      CompleteGrouped(entries, keys, key, items, item, cap);
    } else if |entries| >= cap {
      ClosedFull(entries0, keys, key, items, item, cap);
    } else {
      OpenComplete(entries0, keys, items, cap);
      CompleteNone(entries0, keys, items, item);
      CompleteGrouped(entries, keys, key, items, item, cap);
    }
  }

  /** How the lists the state is measured against grow with one item. */
  lemma StepFacts<K(!new)>(keys: seq<Option<K>>, items: seq<Song>, key: Option<K>, item: Song, cap: int)
    requires |keys| == |items|
    ensures Distinct(keys + [key]) ==
      match key case None => Distinct(keys) case Some(k) => if k in Distinct(keys) then Distinct(keys) else Distinct(keys) + [k]
    ensures forall k :: (FirstWithArtwork(keys + [key], items + [item], k) ==
      if FirstWithArtwork(keys, items, k).Some? then FirstWithArtwork(keys, items, k)
      else if key == Some(k) && item.artwork.Some? then Some(item) else None)
    ensures Filled(keys + [key], cap) == if |Distinct(keys)| >= cap then Filled(keys, cap) else |keys| + 1
  {
    assert (keys + [key])[..|keys|] == keys && (items + [item])[..|items|] == items;
  }

  /** While the list has room it takes in every item. */
  lemma OpenFilled<K(!new)>(keys: seq<Option<K>>, cap: int)
    requires |Distinct(keys)| < cap
    ensures Filled(keys, cap) == |keys|
  {
    if keys != [] {
      var init := keys[..|keys| - 1];
      assert keys == init + [keys[|keys| - 1]];
    }
  }

  lemma OpenComplete<K(!new)>(entries: seq<Entry<K>>, keys: seq<Option<K>>, items: seq<Song>, cap: int)
    requires |keys| == |items| && Grouped(entries, keys, items, cap) && |entries| < cap
    ensures Complete(entries, keys, items) && |Distinct(keys)| < cap
  {
    OpenFilled(keys, cap);
    assert keys[..|keys|] == keys && items[..|items|] == items;
  }

  /** After an item taken in while the list had room, a complete list is
      what the list should hold. */
  lemma CompleteGrouped<K(!new)>(entries: seq<Entry<K>>, keys: seq<Option<K>>, key: Option<K>, items: seq<Song>, item: Song, cap: int)
    requires |keys| == |items| && |Distinct(keys)| < cap
    requires Complete(entries, keys + [key], items + [item])
    ensures Grouped(entries, keys + [key], items + [item], cap)
  {
    StepFacts(keys, items, key, item, cap);
    var keys', items' := keys + [key], items + [item];
    assert keys'[..|keys'|] == keys' && items'[..|items'|] == items';
  }

  /** Once the list is full, later items change nothing. */
  lemma ClosedFull<K(!new)>(entries: seq<Entry<K>>, keys: seq<Option<K>>, key: Option<K>, items: seq<Song>, item: Song, cap: int)
    requires |keys| == |items| && Grouped(entries, keys, items, cap) && |entries| >= cap
    ensures Grouped(entries, keys + [key], items + [item], cap)
  {
    StepFacts(keys, items, key, item, cap);
    TakeGrows(Distinct(keys), Distinct(keys + [key]), cap);
    var f := Filled(keys, cap);
    assert (keys + [key])[..f] == keys[..f] && (items + [item])[..f] == items[..f];
  }

  /** An item without a key changes no entry. */
  lemma CompleteNone<K(!new)>(entries: seq<Entry<K>>, keys: seq<Option<K>>, items: seq<Song>, item: Song)
    requires |keys| == |items| && Complete(entries, keys, items)
    ensures Complete(entries, keys + [None], items + [item])
  {
    StepFacts(keys, items, None, item, 0);
  }

  /** A listed key whose entry has a song, or an item without artwork,
      leaves the entries as they are. */
  lemma CompleteKept<K(!new)>(entries: seq<Entry<K>>, keys: seq<Option<K>>, items: seq<Song>, j: nat, item: Song)
    requires |keys| == |items| && Complete(entries, keys, items)
    requires j < |entries| && (entries[j].song.Some? || item.artwork.None?)
    ensures Complete(entries, keys + [Some(entries[j].key)], items + [item])
  {
    var k := entries[j].key;
    StepFacts(keys, items, Some(k), item, 0);
    assert k in EntryKeys(entries);
  }

  /** A listed key without a song takes the item, which has artwork, as its
      first song with artwork. */
  lemma CompleteSet<K(!new)>(entries0: seq<Entry<K>>, keys: seq<Option<K>>, items: seq<Song>, j: nat, item: Song)
    requires |keys| == |items| && Complete(entries0, keys, items)
    requires j < |entries0| && entries0[j].song.None? && item.artwork.Some?
    ensures Complete(entries0[j := Entry(entries0[j].key, Some(item))], keys + [Some(entries0[j].key)], items + [item])
  {
    var k := entries0[j].key;
    var e := entries0[j := Entry(k, Some(item))];
    var keys', items' := keys + [Some(k)], items + [item];
    StepFacts(keys, items, Some(k), item, 0);
    assert k in EntryKeys(entries0);
    SetKeys(entries0, j, Some(item));
    assert EntryKeys(e) == Distinct(keys');
    OthersKept(entries0, keys, items, k, item);
    forall i | 0 <= i < |e| ensures e[i].song == FirstWithArtwork(keys', items', e[i].key) {
      if i != j {
        assert EntryKeys(entries0)[i] != EntryKeys(entries0)[j];
      }
    }
  }

  lemma SetKeys<K>(entries: seq<Entry<K>>, j: nat, song: Option<Song>)
    requires j < |entries|
    ensures EntryKeys(entries[j := entries[j].(song := song)]) == EntryKeys(entries)
  {
  }

  /** A key seen for the first time is listed at the end; no earlier item
      had it, so the item is its first with artwork if it has artwork. */
  lemma CompleteNew<K(!new)>(entries0: seq<Entry<K>>, keys: seq<Option<K>>, items: seq<Song>, k: K, item: Song)
    requires |keys| == |items| && Complete(entries0, keys, items)
    requires k !in Distinct(keys) && FirstWithArtwork(keys, items, k).None?
    ensures Complete(entries0 + [Entry(k, if item.artwork.Some? then Some(item) else None)], keys + [Some(k)], items + [item])
  {
    var e := Entry(k, if item.artwork.Some? then Some(item) else None);
    var all, keys', items' := entries0 + [e], keys + [Some(k)], items + [item];
    StepFacts(keys, items, Some(k), item, 0);
    AppendKeys(entries0, e);
    assert EntryKeys(all) == Distinct(keys');
    OthersKept(entries0, keys, items, k, item);
    forall i | 0 <= i < |all| ensures all[i].song == FirstWithArtwork(keys', items', all[i].key) {
      if i < |entries0| {
        assert all[i] == entries0[i] && entries0[i].key == Distinct(keys)[i];
      }
    }
  }

  lemma AppendKeys<K>(entries: seq<Entry<K>>, e: Entry<K>)
    ensures EntryKeys(entries + [e]) == EntryKeys(entries) + [e.key]
  {
  }

  /** An item under key `k` leaves the entries of every other key as they
      are. */
  lemma OthersKept<K(!new)>(entries: seq<Entry<K>>, keys: seq<Option<K>>, items: seq<Song>, k: K, item: Song)
    requires |keys| == |items| && Complete(entries, keys, items)
    ensures forall j :: 0 <= j < |entries| && entries[j].key != k ==>
      entries[j].song == FirstWithArtwork(keys + [Some(k)], items + [item], entries[j].key)
  {
    StepFacts(keys, items, Some(k), item, 0);
  }

  /** A key the index does not hold has not occurred. */
  lemma Unlisted<K(!new)>(entries: seq<Entry<K>>, seen: map<K, nat>, k: K, keys: seq<Option<K>>, items: seq<Song>)
    requires |keys| == |items| && Complete(entries, keys, items) && Indexed(entries, seen)
    requires k !in seen
    ensures k !in Distinct(keys) && Some(k) !in keys
    ensures FirstWithArtwork(keys, items, k).None?
  {
    var d := Distinct(keys);
    assert d == EntryKeys(entries);
    assert forall j :: 0 <= j < |d| ==> d[j] in seen;
  }

  lemma ListNew<K(!new)>(entries: seq<Entry<K>>, seen: map<K, nat>, k: K)
    requires Indexed(entries, seen) && k !in seen
    ensures Indexed(entries + [Entry(k, None)], seen[k := |entries|])
  {
  }

  lemma SetSong<K(!new)>(entries: seq<Entry<K>>, seen: map<K, nat>, j: nat, song: Option<Song>)
    requires Indexed(entries, seen) && j < |entries|
    ensures Indexed(entries[j := entries[j].(song := song)], seen)
  {
    var entries' := entries[j := entries[j].(song := song)];
    assert forall i :: 0 <= i < |entries| ==> entries'[i].key == entries[i].key;
  }

  /** Growing a list at its end does not change a full `Take` of it. */
  lemma TakeGrows<T>(d: seq<T>, d': seq<T>, cap: int)
    requires |d| >= cap || d' == d
    requires d <= d'
    ensures Take(d', cap) == Take(d, cap)
  {
  }

  // ---------------------------------------------------------------------
  // The loop

  function SongResults(items: seq<Song>): (r: seq<SongResult>)
    ensures |r| == |items| && forall t :: 0 <= t < |items| ==> r[t] == ToSongResult(items[t])
  {
    seq(|items|, t requires 0 <= t < |items| => ToSongResult(items[t]))
  }

  /** The results for the ranked songs `ranked`: the first `cap` of them,
      and the artist and album lists of `Grouped`. */
  ghost predicate Found(res: SearchResults, ranked: seq<Song>, cap: int) {
    && res.songs == SongResults(Take(ranked, cap))
    && Grouped(res.artists, ArtistKeys(ranked), ranked, cap)
    && Grouped(res.albums, AlbumKeys(ranked), ranked, cap)
  }

  /** The loop's invariant after the ranked songs `seen`. */
  ghost predicate Scanned(songs: seq<SongResult>, artists: seq<Entry<string>>, seenArtists: map<string, nat>,
                          albums: seq<Entry<(string, string)>>, seenAlbums: map<(string, string), nat>,
                          seen: seq<Song>, cap: int) {
    && songs == SongResults(Take(seen, cap))
    && GroupState(artists, seenArtists, ArtistKeys(seen), seen, cap)
    && GroupState(albums, seenAlbums, AlbumKeys(seen), seen, cap)
  }

  /** The throttled search callback: no results without a loaded library or
      with an empty query; otherwise the ranked songs grouped into the three
      lists, stopping early once all three are full. */
  method Search(loaded: bool, text: string, ranked: seq<Song>, numItems: int) returns (r: Option<SearchResults>)
    ensures r.None? <==> !loaded || text == ""
    ensures r.Some? ==> Found(r.value, ranked, numItems)
  {
    if !loaded || text == "" {
      return None;
    }
    var songs: seq<SongResult> := [];
    var artists: seq<Entry<string>> := [];
    var seenArtists: map<string, nat> := map[];
    var albums: seq<Entry<(string, string)>> := [];
    var seenAlbums: map<(string, string), nat> := map[];
    var i := 0;
    assert ranked[..0] == [];
    while i < |ranked|
      invariant i <= |ranked|
      invariant Scanned(songs, artists, seenArtists, albums, seenAlbums, ranked[..i], numItems)
    {
      if |songs| >= numItems && |artists| >= numItems && |albums| >= numItems {
        break;
      }
      var item := ranked[i];
      KeysStep(ranked, i);
      artists, seenArtists := Note(artists, seenArtists, ArtistKey(item), item, numItems, ArtistKeys(ranked[..i]), ranked[..i]);
      albums, seenAlbums := Note(albums, seenAlbums, AlbumKey(item), item, numItems, AlbumKeys(ranked[..i]), ranked[..i]);
      SongStep(songs, ranked[..i], item, numItems);
      if |songs| < numItems {
        songs := songs + [ToSongResult(item)];
      }
      i := i + 1;
    }
    if i < |ranked| {
      FullExtends(songs, artists, seenArtists, albums, seenAlbums, ranked, i, numItems);
    } else {
      assert ranked[..i] == ranked;
    }
    return Some(SearchResults(songs, artists, albums));
  }

  lemma KeysStep(ranked: seq<Song>, i: nat)
    requires i < |ranked|
    ensures ranked[..i + 1] == ranked[..i] + [ranked[i]]
    ensures ArtistKeys(ranked[..i + 1]) == ArtistKeys(ranked[..i]) + [ArtistKey(ranked[i])]
    ensures AlbumKeys(ranked[..i + 1]) == AlbumKeys(ranked[..i]) + [AlbumKey(ranked[i])]
  {
  }

  /** The song list takes the item while it has room. */
  lemma SongStep(songs0: seq<SongResult>, seen: seq<Song>, item: Song, cap: int)
    requires songs0 == SongResults(Take(seen, cap))
    ensures (if |songs0| < cap then songs0 + [ToSongResult(item)] else songs0) == SongResults(Take(seen + [item], cap))
  {
  }

  /** Stopping early, once every list is full, gives what the whole ranking
      would give. */
  lemma FullExtends(songs: seq<SongResult>, artists: seq<Entry<string>>, seenArtists: map<string, nat>,
                    albums: seq<Entry<(string, string)>>, seenAlbums: map<(string, string), nat>,
                    ranked: seq<Song>, i: nat, cap: int)
    requires i <= |ranked| && Scanned(songs, artists, seenArtists, albums, seenAlbums, ranked[..i], cap)
    requires |songs| >= cap && |artists| >= cap && |albums| >= cap
    ensures Found(SearchResults(songs, artists, albums), ranked, cap)
  {
    SongsFull(songs, ranked, i, cap);
    KeysPrefix(ranked, i);
    ExtendGroup(artists, ArtistKeys(ranked[..i]), ranked[..i], ArtistKeys(ranked), ranked, cap);
    ExtendGroup(albums, AlbumKeys(ranked[..i]), ranked[..i], AlbumKeys(ranked), ranked, cap);
  }

  lemma SongsFull(songs: seq<SongResult>, ranked: seq<Song>, i: nat, cap: int)
    requires i <= |ranked| && songs == SongResults(Take(ranked[..i], cap)) && |songs| >= cap
    ensures songs == SongResults(Take(ranked, cap))
  {
    assert Take(ranked[..i], cap) == Take(ranked, cap);
  }

  lemma KeysPrefix(ranked: seq<Song>, i: nat)
    requires i <= |ranked|
    ensures ArtistKeys(ranked[..i]) <= ArtistKeys(ranked) && AlbumKeys(ranked[..i]) <= AlbumKeys(ranked)
  {
  }

  /** A full list stays as it is, whatever items follow. */
  lemma ExtendGroup<K(!new)>(entries: seq<Entry<K>>, keys: seq<Option<K>>, items: seq<Song>,
                             keys': seq<Option<K>>, items': seq<Song>, cap: int)
    requires |keys| == |items| && |keys'| == |items'| && keys <= keys' && items <= items'
    requires Grouped(entries, keys, items, cap) && |entries| >= cap
    ensures Grouped(entries, keys', items', cap)
  {
    DistinctPrefix(keys, keys');
    FilledExtends(keys, keys', cap);
    TakeGrows(Distinct(keys), Distinct(keys'), cap);
    var f := Filled(keys, cap);
    assert keys'[..f] == keys[..f] && items'[..f] == items[..f];
  }

  lemma {:induction false} DistinctPrefix<K(!new)>(keys: seq<Option<K>>, keys': seq<Option<K>>)
    requires keys <= keys'
    ensures Distinct(keys) <= Distinct(keys')
    decreases |keys'|
  {
    if |keys'| > |keys| {
      var init := keys'[..|keys'| - 1];
      assert keys <= init;
      DistinctPrefix(keys, init);
    } else {
      assert keys == keys';
    }
  }

  lemma {:induction false} FilledExtends<K(!new)>(keys: seq<Option<K>>, keys': seq<Option<K>>, cap: int)
    requires keys <= keys' && |Distinct(keys)| >= cap
    ensures Filled(keys', cap) == Filled(keys, cap)
    decreases |keys'|
  {
    if |keys'| > |keys| {
      var init := keys'[..|keys'| - 1];
      assert keys <= init;
      FilledExtends(keys, init, cap);
      DistinctPrefix(keys, init);
    } else {
      assert keys == keys';
    }
  }

  // ---------------------------------------------------------------------
  // What the lists promise

  /** Each list holds at most `cap` keys, no key twice, only keys that
      occurred, and, while it is not full, every key that occurred; a listed
      song is an item with artwork under the entry's key. */
  lemma GroupedFacts<K(!new)>(entries: seq<Entry<K>>, keys: seq<Option<K>>, items: seq<Song>, cap: int)
    requires |keys| == |items| && Grouped(entries, keys, items, cap)
    ensures cap >= 0 ==> |entries| <= cap
    ensures forall a, b :: 0 <= a < b < |entries| ==> entries[a].key != entries[b].key
    ensures forall j :: 0 <= j < |entries| ==> Some(entries[j].key) in keys
    ensures |entries| < cap ==> forall t :: 0 <= t < |keys| && keys[t].Some? ==> keys[t].value in EntryKeys(entries)
    ensures forall j :: 0 <= j < |entries| && entries[j].song.Some? ==>
      exists t :: 0 <= t < |items| && keys[t] == Some(entries[j].key) && items[t] == entries[j].song.value && items[t].artwork.Some?
  {
    var d := Distinct(keys);
    var f := Filled(keys, cap);
    assert forall j :: 0 <= j < |entries| ==> entries[j].key == d[j];
    forall j | 0 <= j < |entries| && entries[j].song.Some?
      ensures exists t :: 0 <= t < |items| && keys[t] == Some(entries[j].key) && items[t] == entries[j].song.value && items[t].artwork.Some?
    {
      var t :| 0 <= t < f && keys[..f][t] == Some(entries[j].key) && items[..f][t].artwork.Some? && items[..f][t] == entries[j].song.value;
      assert keys[t] == keys[..f][t] && items[t] == items[..f][t];
    }
    if |entries| < cap {
      forall t | 0 <= t < |keys| && keys[t].Some? ensures keys[t].value in EntryKeys(entries) {
        assert Some(keys[t].value) in keys;
      }
    }
  }

  /** While a list has room, an entry without a song means no item under
      its key has artwork. */
  lemma OpenGroupComplete<K(!new)>(entries: seq<Entry<K>>, keys: seq<Option<K>>, items: seq<Song>, cap: int)
    requires |keys| == |items| && Grouped(entries, keys, items, cap) && |entries| < cap
    ensures forall j, t :: 0 <= j < |entries| && entries[j].song.None? && 0 <= t < |items| && keys[t] == Some(entries[j].key) ==>
      items[t].artwork.None?
  {
    OpenComplete(entries, keys, items, cap);
  }
}
