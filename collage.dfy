/** The artwork collage of a list of songs: the songs with artwork are
    scanned in order, a song is kept when its artwork's hash was not seen
    yet, and the scan stops at four pieces. The shared web component does
    the same over snapshots whose data may be missing. */
module Collage {
  import opened Wrappers
  import opened Types
  import opened Songs

  /** The most pieces of art a collage shows. */
  const MaxPieces := 4

  /** The `songs` property: `undefined`, a single song or a list. */
  datatype SongsProp = Undefined | Single(song: Song) | List(songs: seq<Song>)

  /** The data of a collage snapshot, when it has any. */
  datatype SnapshotData = SnapshotData(id: string, artwork: Option<Artwork>)

  /** The list the app's collage works on. */
  function Normalised(songs: SongsProp): (r: seq<Song>)
    ensures songs.Undefined? ==> r == []
    ensures songs.Single? ==> r == [songs.song]
    ensures songs.List? ==> r == songs.songs
  {
    match songs
    case Undefined => []
    case Single(s) => [s]
    case List(xs) => xs
  }

  function SongArtwork(s: Song): Option<Artwork> {
    s.artwork
  }

  function SnapshotArtwork(d: Option<SnapshotData>): Option<Artwork> {
    if d.Some? then d.value.artwork else None
  }

  /** `filter((data) => data?.artwork)`: the items that have artwork. */
  function WithArtwork<T>(items: seq<T>, art: T -> Option<Artwork>): (r: seq<T>)
    ensures forall k :: 0 <= k < |r| ==> art(r[k]).Some?
  {
    if items == [] then []
    else if art(items[0]).Some? then [items[0]] + WithArtwork(items[1..], art)
    else WithArtwork(items[1..], art)
  }

  /** The first item whose artwork has hash `h`. */
  function FirstWithHash<T>(items: seq<T>, art: T -> Option<Artwork>, h: string): Option<T> {
    if items == [] then None
    else if art(items[0]).Some? && art(items[0]).value.hash == h then Some(items[0])
    else FirstWithHash(items[1..], art, h)
  }

  /** `r` is `xs` with some elements left out, the rest in their order. */
  predicate IsSubsequence<T(==)>(r: seq<T>, xs: seq<T>) {
    if r == [] then true
    else if xs == [] then false
    else (r[0] == xs[0] && IsSubsequence(r[1..], xs[1..])) || IsSubsequence(r, xs[1..])
  }

  /** The reference selection with no limit: for every artwork hash not in
      `seen`, the first item carrying it, in input order. */
  function Dedup<T(==)>(items: seq<T>, art: T -> Option<Artwork>, seen: set<string>): (r: seq<T>)
    ensures forall k :: 0 <= k < |r| ==> art(r[k]).Some? && art(r[k]).value.hash !in seen
    ensures forall i, j :: 0 <= i < j < |r| ==> art(r[i]).value.hash != art(r[j]).value.hash
    ensures IsSubsequence(r, items)
  {
    if items == [] then []
    else
      var a := art(items[0]);
      if a.None? || a.value.hash in seen then
        var rest := Dedup(items[1..], art, seen);
        SubsequenceOfTail(rest, items);
        rest
      else
        var rest := Dedup(items[1..], art, seen + {a.value.hash});
        assert ([items[0]] + rest)[1..] == rest;
        [items[0]] + rest
  }

  lemma SubsequenceOfTail<T>(r: seq<T>, xs: seq<T>)
    requires xs != [] && IsSubsequence(r, xs[1..])
    ensures IsSubsequence(r, xs)
  {
  }

  /** The selection as the scan makes it: like `Dedup`, but with room for
      only `room` more pieces. */
  function Select<T(==)>(items: seq<T>, art: T -> Option<Artwork>, seen: set<string>, room: nat): seq<T> {
    if items == [] || room == 0 then []
    else
      var a := art(items[0]);
      if a.None? || a.value.hash in seen then Select(items[1..], art, seen, room)
      else [items[0]] + Select(items[1..], art, seen + {a.value.hash}, room - 1)
  }

  /** Stopping after `room` pieces selects the first `room` of the
      unlimited selection. */
  lemma {:induction false} SelectIsTake<T>(items: seq<T>, art: T -> Option<Artwork>, seen: set<string>, room: nat)
    ensures Select(items, art, seen, room) == Take(Dedup(items, art, seen), room)
    decreases |items|
  {
    if items != [] && room != 0 {
      var a := art(items[0]);
      if a.None? || a.value.hash in seen {
        SelectIsTake(items[1..], art, seen, room);
      } else {
        var rest := Dedup(items[1..], art, seen + {a.value.hash});
        SelectIsTake(items[1..], art, seen + {a.value.hash}, room - 1);
        assert Take([items[0]] + rest, room) == [items[0]] + Take(rest, room - 1);
      }
    }
  }

  /** Filtering out the items without artwork first changes nothing: the
      scan skips them anyway. */
  lemma {:induction false} FilterFirst<T>(items: seq<T>, art: T -> Option<Artwork>, seen: set<string>, room: nat)
    ensures Select(WithArtwork(items, art), art, seen, room) == Select(items, art, seen, room)
    decreases |items|
  {
    if items != [] {
      var defined := WithArtwork(items, art);
      if art(items[0]).Some? {
        assert defined[0] == items[0] && defined[1..] == WithArtwork(items[1..], art);
        var h := art(items[0]).value.hash;
        FilterFirst(items[1..], art, seen, room);
        FilterFirst(items[1..], art, seen + {h}, if room == 0 then 0 else room - 1);
      } else {
        FilterFirst(items[1..], art, seen, room);
      }
    }
  }

  /** The `for` loop of `filtered`: `seen` holds the hashes already used,
      `unique` the items kept, and the loop stops at four. */
  method SelectUnique<T(==)>(items: seq<T>, art: T -> Option<Artwork>) returns (unique: seq<T>)
    ensures unique == Take(Dedup(items, art, {}), MaxPieces)
  {
    var defined := WithArtwork(items, art);
    var seen: set<string> := {};
    unique := [];
    var k := 0;
    while k < |defined|
      invariant 0 <= k <= |defined| && |unique| <= MaxPieces
      invariant Select(defined, art, {}, MaxPieces) == unique + Select(defined[k..], art, seen, MaxPieces - |unique|)
    {
      if |unique| >= MaxPieces {
        break;
      }
      var artwork := art(defined[k]);
      ScanStep(defined, k, art, seen, unique);
      if artwork.Some? && artwork.value.hash !in seen {
        seen := seen + {artwork.value.hash};
        unique := unique + [defined[k]];
      }
      k := k + 1;
    }
    assert Select(defined[k..], art, seen, MaxPieces - |unique|) == [];
    FilterFirst(items, art, {}, MaxPieces);
    SelectIsTake(items, art, {}, MaxPieces);
  }

  /** One step of the scan: the item at `k` is kept exactly when it has
      artwork with a hash not seen yet, and the selection still splits into
      what is kept so far and the selection of the rest. */
  lemma ScanStep<T>(xs: seq<T>, k: nat, art: T -> Option<Artwork>, seen: set<string>, unique: seq<T>)
    requires k < |xs| && |unique| < MaxPieces
    requires Select(xs, art, {}, MaxPieces) == unique + Select(xs[k..], art, seen, MaxPieces - |unique|)
    ensures var a := art(xs[k]);
      if a.None? || a.value.hash in seen then
        Select(xs, art, {}, MaxPieces) == unique + Select(xs[k + 1..], art, seen, MaxPieces - |unique|)
      else
        Select(xs, art, {}, MaxPieces) == (unique + [xs[k]]) + Select(xs[k + 1..], art, seen + {a.value.hash}, MaxPieces - |unique| - 1)
  {
    assert xs[k..][0] == xs[k] && xs[k..][1..] == xs[k + 1..];
    var a := art(xs[k]);
    if a.Some? && a.value.hash !in seen {
      var tail := Select(xs[k + 1..], art, seen + {a.value.hash}, MaxPieces - |unique| - 1);
      assert unique + ([xs[k]] + tail) == (unique + [xs[k]]) + tail;
    }
  }

  /** `filtered` of the app's collage. */
  method CollageSongs(songs: SongsProp) returns (unique: seq<Song>)
    ensures unique == Take(Dedup(Normalised(songs), SongArtwork, {}), MaxPieces)
  {
    if songs.Undefined? {
      return [];
    }
    var local := if songs.Single? then [songs.song] else songs.songs;
    unique := SelectUnique(local, SongArtwork);
  }

  /** `filtered` of the shared web collage. */
  method CollageSnapshots(snapshots: seq<Option<SnapshotData>>) returns (unique: seq<Option<SnapshotData>>)
    ensures unique == Take(Dedup(snapshots, SnapshotArtwork, {}), MaxPieces)
  {
    unique := SelectUnique(snapshots, SnapshotArtwork);
  }

  /** The pieces shown: at most four, all with artwork, with pairwise
      distinct hashes, in input order. */
  lemma CollageShape<T>(items: seq<T>, art: T -> Option<Artwork>)
    ensures var r := Take(Dedup(items, art, {}), MaxPieces);
      && |r| <= MaxPieces
      && (forall k :: 0 <= k < |r| ==> art(r[k]).Some?)
      && (forall i, j :: 0 <= i < j < |r| ==> art(r[i]).value.hash != art(r[j]).value.hash)
      && IsSubsequence(r, items)
  {
    var d := Dedup(items, art, {});
    var r := Take(d, MaxPieces);
    PrefixSubsequence(r, d, items);
  }

  lemma {:induction false} PrefixSubsequence<T>(p: seq<T>, r: seq<T>, xs: seq<T>)
    requires IsSubsequence(r, xs) && |p| <= |r| && p == r[..|p|]
    ensures IsSubsequence(p, xs)
    decreases |xs|
  {
    if p != [] && xs != [] {
      if r[0] == xs[0] && IsSubsequence(r[1..], xs[1..]) {
        PrefixSubsequence(p[1..], r[1..], xs[1..]);
      } else {
        PrefixSubsequence(p, r, xs[1..]);
      }
    }
  }

  /** Each piece shown is the first item with its artwork hash. */
  lemma {:induction false} FirstOccurrenceWins<T>(items: seq<T>, art: T -> Option<Artwork>, seen: set<string>, r: seq<T>)
    requires r == Dedup(items, art, seen)
    ensures forall k :: 0 <= k < |r| ==> FirstWithHash(items, art, art(r[k]).value.hash) == Some(r[k])
    decreases |items|
  {
    if items != [] {
      var a := art(items[0]);
      if a.None? || a.value.hash in seen {
        FirstOccurrenceWins(items[1..], art, seen, r);
        forall k | 0 <= k < |r|
          ensures FirstWithHash(items, art, art(r[k]).value.hash) == Some(r[k])
        {
          assert art(r[k]).value.hash !in seen;
        }
      } else {
        var rest := Dedup(items[1..], art, seen + {a.value.hash});
        FirstOccurrenceWins(items[1..], art, seen + {a.value.hash}, rest);
        forall k | 0 < k < |r|
          ensures FirstWithHash(items, art, art(r[k]).value.hash) == Some(r[k])
        {
          assert r[k] == rest[k - 1];
          assert art(rest[k - 1]).value.hash !in seen + {a.value.hash};
        }
      }
    }
  }

  /** Every artwork hash of the input, unless already seen, has its piece
      in the unlimited selection. */
  lemma {:induction false} EveryHashShown<T>(items: seq<T>, art: T -> Option<Artwork>, seen: set<string>, x: T)
    requires x in items && art(x).Some? && art(x).value.hash !in seen
    ensures exists k :: 0 <= k < |Dedup(items, art, seen)| && art(Dedup(items, art, seen)[k]).value.hash == art(x).value.hash
    decreases |items|
  {
    var r := Dedup(items, art, seen);
    var a := art(items[0]);
    if x == items[0] {
      assert art(r[0]).value.hash == art(x).value.hash;
    } else if a.None? || a.value.hash in seen {
      EveryHashShown(items[1..], art, seen, x);
    } else if a.value.hash == art(x).value.hash {
      assert art(r[0]).value.hash == art(x).value.hash;
    } else {
      var rest := Dedup(items[1..], art, seen + {a.value.hash});
      EveryHashShown(items[1..], art, seen + {a.value.hash}, x);
      var k :| 0 <= k < |rest| && art(rest[k]).value.hash == art(x).value.hash;
      assert r[k + 1] == rest[k];
    }
  }

  /** When the collage has fewer than four pieces, every artwork hash of
      the input is shown. */
  lemma FewerThanFourShowsAll<T>(items: seq<T>, art: T -> Option<Artwork>, x: T)
    requires x in items && art(x).Some?
    requires |Take(Dedup(items, art, {}), MaxPieces)| < MaxPieces
    ensures var r := Take(Dedup(items, art, {}), MaxPieces);
      exists k :: 0 <= k < |r| && art(r[k]).value.hash == art(x).value.hash
  {
    EveryHashShown(items, art, {}, x);
  }

  /** `individualImageSize`: the collage's own size for at most one piece,
      otherwise half of it for each of the quarter images. */
  function ImageSize(count: nat, size: nat): (r: nat)
    requires size == 128 || size == 256
    ensures count <= 1 ==> r == size
    ensures count > 1 ==> 2 * r == size
  {
    if count <= 1 then size else if size == 128 then 64 else 128
  }
}
