/** The song queries shared by the three front ends: the recently played,
    recently added and liked orderings, the total duration, the id lookup,
    the selection of a generated list, soft deletion, the download URL cache
    and the cached list after a delete. A Firestore snapshot is modelled by
    the song it holds. */
module Songs {
  import opened Wrappers
  import opened Types
  import opened Sorting

  /** How many of the songs the recent lists look at (`slice(0, 1000)`). */
  const RecentLimit := 1000

  /** `xs.slice(0, n)`. */
  function Take<T>(xs: seq<T>, n: nat): (r: seq<T>)
    ensures |r| == if |xs| < n then |xs| else n
    ensures r == xs[..|r|]
  {
    if |xs| < n then xs else xs[..n]
  }

  /** `xs.filter(p)`: the elements that pass, each as often as in `xs`, in
      their order. */
  function Filter<T(!new)>(xs: seq<T>, p: T -> bool): (r: seq<T>)
    ensures forall x :: x in r ==> p(x)
    ensures forall x :: multiset(r)[x] == if p(x) then multiset(xs)[x] else 0
    ensures (forall k :: 0 <= k < |xs| ==> p(xs[k])) ==> r == xs
    ensures |r| <= |xs|
  {
    if xs == [] then []
    else
      var init := Filter(xs[..|xs| - 1], p);
      var last := xs[|xs| - 1];
      assert xs == xs[..|xs| - 1] + [last];
      if p(last) then init + [last] else init
  }

  /** The sort keys, each the `?? 0` of the comparison functions. */
  function PlayedSeconds(s: Song): int {
    if s.lastPlayed.Some? then s.lastPlayed.value.seconds else 0
  }

  function AddedSeconds(s: Song): int {
    s.createdAt.seconds
  }

  function LikedSeconds(s: Song): int {
    if s.whenLiked.Some? then s.whenLiked.value.seconds else 0
  }

  predicate HasBeenPlayed(s: Song) {
    s.lastPlayed.Some?
  }

  /** JavaScript truthiness of `song.liked`. */
  predicate IsLiked(s: Song) {
    s.liked == Some(true)
  }

  /** `useRecentlyPlayedSongs`. */
  function RecentlyPlayed(songs: Option<seq<Song>>): (r: Option<seq<Song>>)
    ensures r.None? <==> songs.None?
  {
    match songs
    case None => None
    case Some(xs) => Some(SortBy(Filter(Take(xs, RecentLimit), HasBeenPlayed), Descending(PlayedSeconds)))
  }

  /** `useRecentlyAddedSongs`. */
  function RecentlyAdded(songs: Option<seq<Song>>): (r: Option<seq<Song>>)
    ensures r.None? <==> songs.None?
  {
    match songs
    case None => None
    case Some(xs) => Some(SortBy(Take(xs, RecentLimit), Descending(AddedSeconds)))
  }

  /** `useLikedSongs`. */
  function Liked(songs: Option<seq<Song>>): (r: Option<seq<Song>>)
    ensures r.None? <==> songs.None?
  {
    match songs
    case None => None
    case Some(xs) => Some(SortBy(Filter(xs, IsLiked), Descending(LikedSeconds)))
  }

  /** The recently played list holds exactly the played songs among the
      first thousand, each as often as there. */
  lemma RecentlyPlayedContents(xs: seq<Song>)
    ensures var r := RecentlyPlayed(Some(xs)).value;
      && (forall s :: s in r ==> s.lastPlayed.Some?)
      && (forall s :: multiset(r)[s] == if HasBeenPlayed(s) then multiset(Take(xs, RecentLimit))[s] else 0)
      && |r| <= RecentLimit
  {
    var played := Filter(Take(xs, RecentLimit), HasBeenPlayed);
    var r := SortBy(played, Descending(PlayedSeconds));
    assert RecentlyPlayed(Some(xs)).value == r;
    SortedMembers(played, Descending(PlayedSeconds));
  }

  /** The recently played list puts the latest play first. */
  lemma RecentlyPlayedOrder(xs: seq<Song>)
    ensures var r := RecentlyPlayed(Some(xs)).value;
      forall i, j :: 0 <= i < j < |r| ==>
        r[i].lastPlayed.Some? && r[j].lastPlayed.Some? && r[i].lastPlayed.value.seconds >= r[j].lastPlayed.value.seconds
  {
    var played := Filter(Take(xs, RecentLimit), HasBeenPlayed);
    var r := SortBy(played, Descending(PlayedSeconds));
    SortDescending(played, PlayedSeconds, r);
    RecentlyPlayedContents(xs);
    PlayedDescending(r);
  }

  lemma PlayedDescending(r: seq<Song>)
    requires forall s :: s in r ==> s.lastPlayed.Some?
    requires forall i, j :: 0 <= i < j < |r| ==> PlayedSeconds(r[i]) >= PlayedSeconds(r[j])
    ensures forall i, j :: 0 <= i < j < |r| ==>
      r[i].lastPlayed.Some? && r[j].lastPlayed.Some? && r[i].lastPlayed.value.seconds >= r[j].lastPlayed.value.seconds
  {
    forall i, j | 0 <= i < j < |r|
      ensures r[i].lastPlayed.Some? && r[j].lastPlayed.Some? && r[i].lastPlayed.value.seconds >= r[j].lastPlayed.value.seconds
    {
      assert r[i] in r && r[j] in r;
      assert PlayedSeconds(r[i]) >= PlayedSeconds(r[j]);
    }
  }

  /** A sorted list holds the elements it was sorted from. */
  lemma SortedMembers<T(!new)>(xs: seq<T>, cmp: (T, T) -> int)
    ensures forall x :: x in SortBy(xs, cmp) ==> x in xs
  {
    var r := SortBy(xs, cmp);
    forall x | x in r ensures x in xs {
      assert x in multiset(r);
    }
  }

  /** The recently added list is the first thousand songs, newest first. */
  lemma RecentlyAddedOrder(xs: seq<Song>)
    ensures var r := RecentlyAdded(Some(xs)).value;
      && multiset(r) == multiset(Take(xs, RecentLimit))
      && |r| == (if |xs| < RecentLimit then |xs| else RecentLimit)
      && (forall i, j :: 0 <= i < j < |r| ==> r[i].createdAt.seconds >= r[j].createdAt.seconds)
  {
    var first := Take(xs, RecentLimit);
    var key := AddedSeconds;
    var r := SortBy(first, Descending(key));
    SortDescending(first, key, r);
    assert RecentlyAdded(Some(xs)).value == r;
    forall i, j | 0 <= i < j < |r| ensures r[i].createdAt.seconds >= r[j].createdAt.seconds {
      assert key(r[i]) >= key(r[j]);
    }
  }

  /** The liked list holds exactly the liked songs, most recently liked
      first, a song with no like time counting as liked at second 0. */
  lemma LikedOrder(xs: seq<Song>)
    ensures var r := Liked(Some(xs)).value;
      && (forall s :: s in r ==> s.liked == Some(true))
      && (forall s :: multiset(r)[s] == if IsLiked(s) then multiset(xs)[s] else 0)
      && (forall i, j :: 0 <= i < j < |r| ==> LikedSeconds(r[i]) >= LikedSeconds(r[j]))
  {
    var liked := Filter(xs, IsLiked);
    var key := LikedSeconds;
    var r := SortBy(liked, Descending(key));
    SortDescending(liked, key, r);
    assert Liked(Some(xs)).value == r;
    SortedMembers(liked, Descending(key));
    forall i, j | 0 <= i < j < |r| ensures LikedSeconds(r[i]) >= LikedSeconds(r[j]) {
      assert key(r[i]) >= key(r[j]);
    }
  }

  /** The `reduce` of `useSongsDuration`, a left fold from 0. Over
      non-negative durations the total is not negative and is at least each
      song's duration. */
  function SumDurations(xs: seq<Song>): (r: int)
    ensures (forall k :: 0 <= k < |xs| ==> xs[k].duration >= 0) ==>
      r >= 0 && forall k :: 0 <= k < |xs| ==> r >= xs[k].duration
  {
    if xs == [] then 0 else SumDurations(xs[..|xs| - 1]) + xs[|xs| - 1].duration
  }

  /** `useSongsDuration`: 0 for `undefined`. */
  function Duration(songs: Option<seq<Song>>): (r: int)
    ensures songs.None? ==> r == 0
    ensures songs.Some? && (forall k :: 0 <= k < |songs.value| ==> songs.value[k].duration >= 0) ==> r >= 0
  {
    match songs
    case None => 0
    case Some(xs) => SumDurations(xs)
  }

  /** The total of two lists one after the other is the sum of their totals,
      so the total does not depend on how the list is split. */
  lemma DurationAppend(xs: seq<Song>, ys: seq<Song>)
    ensures Duration(Some(xs + ys)) == Duration(Some(xs)) + Duration(Some(ys))
  {
    SumAppend(xs, ys);
  }

  lemma {:induction false} SumAppend(xs: seq<Song>, ys: seq<Song>)
    ensures SumDurations(xs + ys) == SumDurations(xs) + SumDurations(ys)
    decreases |ys|
  {
    if ys == [] {
      assert xs + ys == xs;
    } else {
      var init := ys[..|ys| - 1];
      assert (xs + ys)[..|xs + ys| - 1] == xs + init;
      assert (xs + ys)[|xs + ys| - 1] == ys[|ys| - 1];
      SumAppend(xs, init);
    }
  }

  /** `useSongLookup`: each song in turn is stored under its id. */
  function Lookup(songs: Option<seq<Song>>): (r: map<string, Song>)
    ensures songs.None? ==> r == map[]
    ensures songs.Some? ==> r.Keys == set s | s in songs.value :: s.id
    ensures forall id :: id in r ==> r[id].id == id && songs.Some? && r[id] in songs.value
  {
    match songs
    case None => map[]
    case Some(xs) => LookupOf(xs)
  }

  function LookupOf(xs: seq<Song>): (r: map<string, Song>)
    ensures r.Keys == set s | s in xs :: s.id
    ensures forall id :: id in r ==> r[id].id == id && r[id] in xs
  {
    if xs == [] then map[]
    else
      var init := xs[..|xs| - 1];
      var last := xs[|xs| - 1];
      assert xs == init + [last];
      LookupOf(init)[last.id := last]
  }

  /** The song stored under an id is the last one with that id: a later
      duplicate overwrites an earlier one. */
  lemma {:induction false} LastDuplicateWins(xs: seq<Song>, i: nat)
    requires i < |xs| && forall j :: i < j < |xs| ==> xs[j].id != xs[i].id
    ensures LookupOf(xs)[xs[i].id] == xs[i]
    decreases |xs|
  {
    if i < |xs| - 1 {
      LastDuplicateWins(xs[..|xs| - 1], i);
    }
  }

  /** `useGeneratedTypeSongs`: only the recently added list falls back to
      an empty list while loading. */
  function GeneratedTypeSongs(kind: string, recentlyAdded: Option<seq<Song>>,
                              liked: Option<seq<Song>>, recentlyPlayed: Option<seq<Song>>): (r: Option<seq<Song>>)
    ensures kind == "recently-added" ==> r == Some(recentlyAdded.GetOr([]))
    ensures kind == "liked" ==> r == liked
    ensures kind == "recently-played" ==> r == recentlyPlayed
    ensures kind !in {"recently-added", "liked", "recently-played"} ==> r == Some([])
  {
    if kind == "recently-added" then Some(recentlyAdded.GetOr([]))
    else if kind == "liked" then liked
    else if kind == "recently-played" then recentlyPlayed
    else Some([])
  }

  /** `deleteSong` in the app: the song document is kept and only marked. */
  function SoftDelete(s: Song, now: Timestamp): (r: Song)
    ensures r.deleted && r.updatedAt == now
    ensures r.(deleted := s.deleted, updatedAt := s.updatedAt) == s
  {
    s.(deleted := true, updatedAt := now)
  }

  /** What asking for a song's download URL gives. */
  datatype UrlOutcome =
    | NoData
    | Cached(url: string)
    | Fetched(url: string, updated: Song)
    | Failed

  /** `tryToGetSongDownloadUrlOrLog`: a stored non-empty URL is returned
      as is; otherwise the storage lookup `fetched` is used and its URL is
      stored on the song. */
  function DownloadUrl(data: Option<Song>, fetched: Result<string>): (r: UrlOutcome)
    ensures r.NoData? <==> data.None?
    ensures r.Cached? ==> data.Some? && data.value.downloadUrl == Some(r.url)
    ensures r.Fetched? ==> fetched == Ok(r.url) && r.updated == data.value.(downloadUrl := Some(r.url))
    ensures r.Failed? ==> fetched.Err?
  {
    if data.None? then NoData
    else if data.value.downloadUrl.Some? && data.value.downloadUrl.value != "" then Cached(data.value.downloadUrl.value)
    else if fetched.Ok? then Fetched(fetched.value, data.value.(downloadUrl := Some(fetched.value)))
    else Failed
  }

  /** A stored URL makes the storage lookup irrelevant. */
  lemma CachedSkipsFetch(s: Song, a: Result<string>, b: Result<string>)
    requires s.downloadUrl.Some? && s.downloadUrl.value != ""
    ensures DownloadUrl(Some(s), a) == DownloadUrl(Some(s), b) == Cached(s.downloadUrl.value)
  {
  }

  /** Once a non-empty URL is fetched and stored, the next request returns
      it from the song, whatever the storage would say. */
  lemma FetchThenCached(s: Song, fetched: Result<string>, later: Result<string>)
    requires DownloadUrl(Some(s), fetched).Fetched? && fetched.value != ""
    ensures var r := DownloadUrl(Some(s), fetched);
      DownloadUrl(Some(r.updated), later) == Cached(r.url)
  {
  }

  /** `useDeleteSong`'s `onSuccess`: the cached list without the deleted id. */
  function WithoutSong(data: Option<seq<Song>>, songId: string): (r: Option<seq<Song>>)
    ensures r.None? <==> data.None?
    ensures r.Some? ==> forall s :: multiset(r.value)[s] == if s.id != songId then multiset(data.value)[s] else 0
  {
    match data
    case None => None
    case Some(xs) => Some(Filter(xs, (s: Song) => s.id != songId))
  }

  /** How many entries of `xs` have the id. */
  function Occurrences(xs: seq<Song>, songId: string): nat {
    if xs == [] then 0
    else Occurrences(xs[..|xs| - 1], songId) + (if xs[|xs| - 1].id == songId then 1 else 0)
  }

  /** The cached list loses every entry with the id and nothing else. */
  lemma WithoutSongDropsExactlyId(xs: seq<Song>, songId: string)
    ensures var r := WithoutSong(Some(xs), songId).value;
      && (forall s :: s in r <==> s in xs && s.id != songId)
      && |r| == |xs| - Occurrences(xs, songId)
  {
    var r := WithoutSong(Some(xs), songId).value;
    forall s ensures s in r <==> s in xs && s.id != songId {
      assert s in r <==> s in multiset(r);
      assert s in xs <==> s in multiset(xs);
    }
    FilterLength(xs, songId);
  }

  lemma {:induction false} FilterLength(xs: seq<Song>, songId: string)
    ensures |Filter(xs, (s: Song) => s.id != songId)| == |xs| - Occurrences(xs, songId)
    decreases |xs|
  {
    if xs != [] {
      FilterLength(xs[..|xs| - 1], songId);
    }
  }
}
