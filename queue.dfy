/** The play queue of app/src/queue.tsx: the `QueueProvider` keeps the
    queue, the shuffle mappings and the current index in one mutable record
    (`current.current`), and every operation updates that record in place.
    The record, the playing flag, the current song and the playback position
    are the fields of `QueueProvider` below. */
module Queue {
  import opened Wrappers
  import opened Types
  import opened Shuffle

  /** The sources that carry an id. */
  datatype IdKind = AlbumKind | ArtistKind | PlaylistKind | GeneratedKind

  /** `SetQueueSource`: where the songs of the queue came from. */
  datatype Source =
    | WithId(kind: IdKind, id: string, sourceHumanName: string)
    | Library
    | Manuel
    | QueueSource

  /** The `type` field of a source. */
  datatype SourceType = Album | Artist | PlaylistType | Generated | LibraryType | ManuelType | QueueType

  function TypeOf(s: Source): SourceType {
    match s
    case WithId(kind, _, _) =>
      (match kind
       case AlbumKind => Album
       case ArtistKind => Artist
       case PlaylistKind => PlaylistType
       case GeneratedKind => Generated)
    case Library => LibraryType
    case Manuel => ManuelType
    case QueueSource => QueueType
  }

  datatype QueueItem = QueueItem(song: Song, source: Source, id: string)

  /** What two sources are compared on: nothing for `undefined`, otherwise
      the type together with the id of the sources that carry one. */
  function SourceKey(s: Option<Source>): Option<(SourceType, string)> {
    match s
    case None => None
    case Some(src) => Some((TypeOf(src), if src.WithId? then src.id else ""))
  }

  /** `checkSourcesEqual(a, b)`. */
  function CheckSourcesEqual(a: Option<Source>, b: Option<Source>): (r: bool)
    ensures r <==> SourceKey(a) == SourceKey(b)
  {
    if a.None? || b.None? then a == b
    else if a.value.WithId? then TypeOf(a.value) == TypeOf(b.value) && a.value.id == b.value.id
    else TypeOf(a.value) == TypeOf(b.value)
  }

  /** Source equality is an equivalence: reflexive, symmetric and transitive. */
  lemma SourcesEqualIsEquivalence(a: Option<Source>, b: Option<Source>, c: Option<Source>)
    ensures CheckSourcesEqual(a, a)
    ensures CheckSourcesEqual(a, b) == CheckSourcesEqual(b, a)
    ensures CheckSourcesEqual(a, b) && CheckSourcesEqual(b, c) ==> CheckSourcesEqual(a, c)
  {
  }

  /** `checkQueueItemsEqual(a, b)`; `Err` stands for the exception thrown
      when `a` was added by hand (source "manuel") and the ids agree. */
  function CheckQueueItemsEqual(a: Option<QueueItem>, b: Option<QueueItem>): (r: Result<bool>)
    ensures a.None? || b.None? || a.value.id != b.value.id ==> r == Ok(false)
    ensures r.Err? <==> a.Some? && b.Some? && a.value.id == b.value.id && a.value.source.Manuel?
    ensures r == Ok(true) ==> a.value.id == b.value.id
    ensures a.Some? && b.Some? && a.value.source.QueueSource? ==> r == Ok(a.value.id == b.value.id)
    ensures a.Some? && b.Some? && (a.value.source.WithId? || a.value.source.Library?) ==>
              r == Ok(a.value.id == b.value.id && CheckSourcesEqual(Some(a.value.source), Some(b.value.source)))
  {
    if a.None? || b.None? then Ok(false)
    else if a.value.id != b.value.id then Ok(false)
    else
      match a.value.source
      case WithId(_, id, _) => Ok(TypeOf(a.value.source) == TypeOf(b.value.source) && id == b.value.source.id)
      case QueueSource => Ok(true)
      case Library => Ok(TypeOf(b.value.source) == LibraryType)
      case Manuel => Err("????????")
  }

  /** Item equality is not symmetric: an item of the "queue" source equals
      any item with its id, but not the other way round. */
  lemma QueueItemsEqualNotSymmetric(song: Song)
    ensures var a := QueueItem(song, QueueSource, "x");
            var b := QueueItem(song, Library, "x");
            CheckQueueItemsEqual(Some(a), Some(b)) == Ok(true) &&
            CheckQueueItemsEqual(Some(b), Some(a)) == Ok(false)
  {
  }

  /** `QueuePlayMode`; "none" is `NoRepeat`. */
  datatype Mode = Repeat | RepeatOne | NoRepeat

  /** What `tryToGoTo` decides: do nothing, stop playing, or play a position. */
  datatype GoTo = Ignore | Stop | Play(target: int)

  /** The decision `tryToGoTo(index, force)` takes from the play mode, the
      current index and the queue length. */
  function GoToTarget(index: int, force: bool, mode: Mode, current: Option<nat>, length: nat): (r: GoTo)
    ensures !force && mode == RepeatOne ==> r == if current.None? then Ignore else Play(current.value)
    ensures force || mode != RepeatOne ==> (r == Stop <==> mode == NoRepeat && !(0 <= index < length))
    ensures force || mode != RepeatOne ==> r != Ignore
    ensures (force || mode != RepeatOne) && 0 <= index < length ==> r == Play(index)
    ensures (force || mode != RepeatOne) && mode != NoRepeat && length > 0 ==> r.Play? && 0 <= r.target < length
    ensures (force || mode != RepeatOne) && mode != NoRepeat && index >= length ==> r == Play(0)
    ensures (force || mode != RepeatOne) && mode != NoRepeat && index < 0 ==> r == Play(length - 1)
  {
    if !force && mode == RepeatOne then
      (if current.None? then Ignore else Play(current.value))
    else if index >= length then
      (if mode == NoRepeat then Stop else Play(0))
    else if index < 0 then
      (if mode == NoRepeat then Stop else Play(length - 1))
    else Play(index)
  }

  /** `songs.map(song => ({ song, source, id: song.playlistId ?? song.id }))`. */
  function QueueItems(songs: seq<Song>, source: Source): (r: seq<QueueItem>)
    ensures |r| == |songs|
    ensures forall i :: 0 <= i < |songs| ==>
              r[i].song == songs[i] && r[i].source == source && r[i].id == songs[i].playlistId.GetOr(songs[i].id)
  {
    seq(|songs|, i requires 0 <= i < |songs| => QueueItem(songs[i], source, songs[i].playlistId.GetOr(songs[i].id)))
  }

  /** `queue.map((_, i) => queue[mappingTo[i]])`: the queue in its order
      before shuffling. */
  function Unshuffled<T>(queue: seq<T>, mappingTo: map<nat, nat>): (r: seq<T>)
    requires forall i :: 0 <= i < |queue| ==> i in mappingTo && mappingTo[i] < |queue|
    ensures |r| == |queue|
  {
    seq(|queue|, i requires 0 <= i < |queue| => queue[mappingTo[i]])
  }

  /** Unshuffling gives back the list that was shuffled, and the shuffled
      position of an index maps back to that index. */
  lemma UnshuffleRestores<T>(xs: seq<T>, r: ShuffleResult<T>, i: nat)
    requires Consistent(xs, r) && i < |xs|
    ensures Unshuffled(r.shuffled, r.mappingTo) == xs
    ensures r.mappingFrom[r.mappingTo[i]] == i
  {
    var u := Unshuffled(r.shuffled, r.mappingTo);
    assert forall k :: 0 <= k < |xs| ==> u[k] == xs[k];
  }

  /** Unshuffling gives back the list that was shuffled, and the current
      song, followed through `mappingFrom`, is at the same place there. */
  lemma UnshuffleIndex<T>(xs: seq<T>, r: ShuffleResult<T>, index: Option<nat>)
    requires Consistent(xs, r) && (index.Some? ==> index.value < |xs|)
    ensures Unshuffled(r.shuffled, r.mappingTo) == xs
    ensures index.Some? ==> r.mappingFrom[index.value] < |xs| && xs[r.mappingFrom[index.value]] == r.shuffled[index.value]
  {
    if index.Some? {
      UnshuffleRestores(xs, r, r.mappingFrom[index.value]);
    } else if |xs| > 0 {
      UnshuffleRestores(xs, r, 0);
    }
  }

  /** Appending an item that maps to itself keeps the mappings consistent
      with the original list extended by the same item. */
  lemma ExtendConsistent<T>(xs: seq<T>, r: ShuffleResult<T>, item: T)
    requires Consistent(xs, r)
    ensures var n := |xs|;
      Consistent(xs + [item], ShuffleResult(r.shuffled + [item], r.mappingTo[n := n], r.mappingFrom[n := n]))
  {
  }

  /** What the current index becomes once position `removed` has left the
      queue, before the removed song's own case is handled: `Restart` when
      the current index ends up equal to `removed`. */
  datatype AfterDequeue = Restart | Keep(index: Option<nat>)

  /** The index bookkeeping of `dequeue(removed)`. In shuffled mode the index
      is lowered once when the mappings are rebuilt and once more at the end,
      so an index above `removed + 1` drops by two, and an index of
      `removed + 1` is restarted. */
  function DequeueIndex(shuffled: bool, current: Option<nat>, removed: nat): (r: AfterDequeue)
    ensures current.None? ==> r == Keep(None)
    ensures current.Some? && current.value < removed ==> r == Keep(current)
    ensures current == Some(removed) ==> r == Restart
    ensures !shuffled && current.Some? && current.value > removed ==> r == Keep(Some(current.value - 1))
    ensures shuffled && current == Some(removed + 1) ==> r == Restart
    ensures shuffled && current.Some? && current.value > removed + 1 ==> r == Keep(Some(current.value - 2))
  {
    Settle(FirstAdjustment(shuffled, current, removed), removed)
  }

  /** The end of `dequeue`: an index equal to `removed` is restarted and a
      later one is lowered. */
  function Settle(first: Option<nat>, removed: nat): AfterDequeue {
    if first == Some(removed) then Restart
    else if first.Some? && first.value > removed then Keep(Some(first.value - 1))
    else Keep(first)
  }

  /** The shuffled branch of `dequeue` lowers an index past the removed position. */
  function FirstAdjustment(shuffled: bool, current: Option<nat>, removed: nat): Option<nat> {
    if shuffled && current.Some? && current.value > removed then Some(current.value - 1) else current
  }

  /** Unshuffled, a kept index still points at the song that was playing. */
  lemma DequeueKeepsCurrentSong<T>(queue: seq<T>, current: nat, removed: nat)
    requires current < |queue| && removed < |queue| && current != removed
    ensures var r := DequeueIndex(false, Some(current), removed);
      r.Keep? && r.index.Some? && r.index.value < |queue| - 1 &&
      RemoveAt(queue, removed)[r.index.value] == queue[current]
  {
    if current > removed {
      assert Unshift(current - 1, removed) == current;
    } else {
      assert Unshift(current, removed) == current;
    }
  }

  /** Shuffled, an index more than one past the removed position ends up on
      the song that came just before the one playing. */
  lemma DequeueShuffledSkipsBack<T>(queue: seq<T>, current: nat, removed: nat)
    requires current < |queue| && current > removed + 1
    ensures var r := DequeueIndex(true, Some(current), removed);
      r == Keep(Some(current - 2)) && RemoveAt(queue, removed)[current - 2] == queue[current - 1]
  {
    assert Unshift(current - 2, removed) == current - 1;
  }

  /** `Consistent` carried over to equal arguments. */
  lemma ConsistentAgain<T>(xs: seq<T>, r: ShuffleResult<T>, xs': seq<T>, r': ShuffleResult<T>)
    requires Consistent(xs, r) && xs' == xs && r' == r
    ensures Consistent(xs', r')
  {
  }

  /** How loading the chosen song into the audio element ends: the lookup
      of its download URL gave nothing, `setSrc` threw, or the song was
      handed to the player. Which one happens is decided by storage and the
      audio element, so it is an input of the operations that change songs. */
  datatype Load = NoUrl | SrcThrew | Loaded

  datatype Mappings = Mappings(mappingTo: map<nat, nat>, mappingFrom: map<nat, nat>)

  class QueueProvider {
    var queue: seq<QueueItem>
    var mappings: Option<Mappings>
    var index: Option<nat>
    /** The song being played (`songInfo`). */
    var songInfo: Option<QueueItem>
    var mode: Mode
    /** The persisted "player-shuffle" flag. */
    var shuffle: bool
    var playing: bool
    /** The playback position last announced through `setCurrentTime`. */
    var currentTime: real
    /** Whether a user is signed in. */
    var signedIn: bool
    /** The queue as it was before it was shuffled. */
    ghost var original: seq<QueueItem>

    ghost predicate Valid()
      reads `index, `mappings, `original, `queue
    {
      IndexValid() && MappingsValid()
    }

    ghost predicate IndexValid()
      reads `index, `queue
    {
      index.Some? ==> index.value < |queue|
    }

    /** The shuffled queue and its mappings agree with the queue before shuffling. */
    ghost predicate MappingsValid()
      reads `mappings, `original, `queue
    {
      mappings.Some? ==> Consistent(original, Shuffled())
    }

    function Shuffled(): ShuffleResult<QueueItem>
      reads `mappings, `queue
      requires mappings.Some?
    {
      ShuffleResult(queue, mappings.value.mappingTo, mappings.value.mappingFrom)
    }

    /** Nothing is playing. */
    ghost predicate Stopped()
      reads this
    {
      index.None? && songInfo.None? && currentTime == 0.0 && !playing
    }

    /** The index is moved to `target`, and the song there becomes the
        current one once it is loaded (a failed load keeps the previous
        song); when there is no such song or no user, the current song and
        index are cleared and the position reset. */
    ghost predicate ChangedTo(target: int, oldSong: Option<QueueItem>, oldTime: real, load: Load)
      reads this
    {
      if signedIn && 0 <= target < |queue| then
        && index == Some(target) && currentTime == oldTime
        && songInfo == (if load == Loaded then Some(queue[target]) else oldSong)
      else
        index.None? && songInfo.None? && currentTime == 0.0
    }

    /** The state `tryToGoTo` leaves for a decision other than `Ignore`: note
        that `playing` is set even after the player stopped for a missing song. */
    ghost predicate WentTo(decision: GoTo, oldSong: Option<QueueItem>, oldTime: real, load: Load)
      reads this
    {
      match decision
      case Ignore => false
      case Stop => Stopped()
      case Play(target) => playing && ChangedTo(target, oldSong, oldTime, load)
    }

    /** The state the end of `dequeue(removed)` leaves: a restart goes to
        position `removed` again; otherwise only the index moves. */
    ghost predicate Settled(outcome: AfterDequeue, removed: nat, oldSong: Option<QueueItem>, oldPlaying: bool, oldTime: real, load: Load)
      reads this
    {
      match outcome
      case Restart => WentTo(GoToTarget(removed, true, mode, Some(removed), |queue|), oldSong, oldTime, load)
      case Keep(kept) => index == kept && songInfo == oldSong && playing == oldPlaying && currentTime == oldTime
    }

    constructor(signedIn: bool, mode: Mode, shuffle: bool)
      ensures Valid() && Stopped()
      ensures queue == [] && mappings.None?
      ensures this.signedIn == signedIn && this.mode == mode && this.shuffle == shuffle
    {
      queue := [];
      mappings := None;
      index := None;
      songInfo := None;
      this.mode := mode;
      this.shuffle := shuffle;
      playing := false;
      currentTime := 0.0;
      this.signedIn := signedIn;
      original := [];
    }

    /** `stopPlaying()`. */
    method StopPlaying()
      modifies `playing, `songInfo, `currentTime, `index
      ensures Stopped()
    {
      playing := false;
      songInfo := None;
      currentTime := 0.0;
      index := None;
    }

    /** `changeSongIndex(target)`: the index moves before the download URL
        is looked up, and the song becomes current only when `load` says it
        was loaded. */
    method ChangeSongIndex(target: int, load: Load)
      modifies `playing, `songInfo, `currentTime, `index
      ensures IndexValid() && ChangedTo(target, old(songInfo), old(currentTime), load)
      ensures playing == (old(playing) && signedIn && 0 <= target < |queue|)
    {
      if !signedIn {
        StopPlaying();
        return;
      }
      if target < 0 || target >= |queue| {
        StopPlaying();
        return;
      }
      index := Some(target);
      if load != Loaded {
        return;
      }
      songInfo := Some(queue[target]);
    }

    /** `tryToGoTo(target, force)`. */
    method TryToGoTo(target: int, force: bool, load: Load)
      modifies `playing, `songInfo, `currentTime, `index
      ensures old(IndexValid()) || force ==> IndexValid()
      ensures var decision := GoToTarget(target, force, mode, old(index), |queue|);
        if decision == Ignore then
          index == old(index) && songInfo == old(songInfo) && playing == old(playing) && currentTime == old(currentTime)
        else
          WentTo(decision, old(songInfo), old(currentTime), load)
    {
      match GoToTarget(target, force, mode, index, |queue|)
      case Ignore =>
      case Stop =>
        StopPlaying();
      case Play(t) =>
        ChangeSongIndex(t, load);
        playing := true;
    }

    /** `next()`: the following song, even in "repeat-one" mode. */
    method Next(load: Load)
      modifies `playing, `songInfo, `currentTime, `index
      ensures IndexValid()
      ensures WentTo(GoToTarget(old(index).GetOr(0) + 1, true, mode, old(index), |queue|), old(songInfo), old(currentTime), load)
    {
      TryToGoTo(index.GetOr(0) + 1, true, load);
    }

    /** `_nextAutomatic()`: called when a song ends; "repeat-one" replays it. */
    method NextAutomatic(load: Load)
      modifies `playing, `songInfo, `currentTime, `index
      requires IndexValid()
      ensures IndexValid()
      ensures var decision := GoToTarget(old(index).GetOr(0) + 1, false, mode, old(index), |queue|);
        if decision == Ignore then
          index == old(index) && songInfo == old(songInfo) && playing == old(playing) && currentTime == old(currentTime)
        else
          WentTo(decision, old(songInfo), old(currentTime), load)
    {
      TryToGoTo(index.GetOr(0) + 1, false, load);
    }

    /** `previous()`, given the playback position the audio element reports:
        within the first 4 seconds the previous song, otherwise a restart of
        the current one. */
    method Previous(position: real, load: Load)
      modifies `playing, `songInfo, `currentTime, `index
      requires IndexValid()
      ensures IndexValid()
      ensures position <= 4.0 ==>
                WentTo(GoToTarget(old(index).GetOr(0) - 1, true, mode, old(index), |queue|), old(songInfo), old(currentTime), load)
      ensures position > 4.0 ==>
                index == old(index) && songInfo == old(songInfo) && playing == old(playing) && currentTime == 0.0
    {
      if position <= 4.0 {
        TryToGoTo(index.GetOr(0) - 1, true, load);
      } else {
        currentTime := 0.0;
      }
    }

    /** `enqueue(song)`: a hand-added item at the end, mapped to itself when
        the queue is shuffled. `id` is the fresh identifier `uuid.v4()` makes. */
    method Enqueue(song: Song, id: string)
      modifies `queue, `mappings, `original
      requires Valid()
      ensures Valid()
      ensures queue == old(queue) + [QueueItem(song, Manuel, id)]
      ensures var n := |old(queue)|;
        mappings == if old(mappings).None? then None
                    else Some(Mappings(old(mappings).value.mappingTo[n := n], old(mappings).value.mappingFrom[n := n]))
    {
      var item := QueueItem(song, Manuel, id);
      var n := |queue|;
      if mappings.Some? {
        ghost var (xs, r) := (original, Shuffled());
        ExtendConsistent(xs, r, item);
        mappings := Some(Mappings(mappings.value.mappingTo[n := n], mappings.value.mappingFrom[n := n]));
        original := original + [item];
        queue := queue + [item];
        ConsistentAgain(xs + [item], ShuffleResult(r.shuffled + [item], r.mappingTo[n := n], r.mappingFrom[n := n]),
                        original, Shuffled());
      } else {
        queue := queue + [item];
      }
    }

    /** `dequeue(removed)`, where `removed` is a position in the queue as
        played (the shuffled position when shuffled). */
    method Dequeue(removed: nat, load: Load)
      modifies `queue, `mappings, `original, `index, `songInfo, `playing, `currentTime
      requires Valid()
      ensures Valid()
      ensures queue == if removed < |old(queue)| then RemoveAt(old(queue), removed) else old(queue)
      ensures old(mappings).None? ==> mappings.None?
      ensures old(mappings).Some? && removed < |old(queue)| ==>
                mappings.Some? && original == RemoveAt(old(original), old(mappings).value.mappingFrom[removed])
      ensures old(mappings).Some? && removed >= |old(queue)| ==> mappings == old(mappings)
      ensures Settled(DequeueIndex(old(mappings).Some?, old(index), removed), removed, old(songInfo), old(playing), old(currentTime), load)
    {
      RemoveFromQueue(removed);
      RestartOrShift(removed, load);
    }

    /** The first half of `dequeue`: the element leaves the queue (and the
        mappings, when shuffled). */
    method RemoveFromQueue(removed: nat)
      modifies `queue, `mappings, `original, `index
      requires Valid()
      ensures MappingsValid()
      ensures queue == if removed < |old(queue)| then RemoveAt(old(queue), removed) else old(queue)
      ensures old(mappings).None? ==> mappings.None? && original == old(original)
      ensures old(mappings).Some? && removed < |old(queue)| ==>
                mappings.Some? && original == RemoveAt(old(original), old(mappings).value.mappingFrom[removed])
      ensures old(mappings).Some? && removed >= |old(queue)| ==> mappings == old(mappings)
      ensures index == FirstAdjustment(old(mappings).Some?, old(index), removed)
      ensures index.Some? ==> index.value <= |queue|
      ensures index.Some? && index.value == |queue| ==> removed <= index.value
    {
      if mappings.Some? {
        RemoveShuffled(removed);
      } else if removed < |queue| {
        queue := queue[..removed] + queue[removed + 1..];
      }
    }

    /** The second half of `dequeue`: the removed position is restarted when
        it is the current one, and a later index is lowered. */
    method RestartOrShift(removed: nat, load: Load)
      modifies `index, `songInfo, `playing, `currentTime
      requires index.Some? ==> index.value <= |queue|
      requires index.Some? && index.value == |queue| ==> removed <= index.value
      requires MappingsValid()
      ensures Valid()
      ensures Settled(Settle(old(index), removed), removed, old(songInfo), old(playing), old(currentTime), load)
    {
      if index == Some(removed) {
        TryToGoTo(removed, true, load);
      } else if index.Some? && index.value > removed {
        index := Some(index.value - 1);
      }
    }

    /** The shuffled branch of `dequeue`: the element leaves the queue and
        the mappings, and an index past it is lowered. */
    method RemoveShuffled(removed: nat)
      modifies `queue, `mappings, `original, `index
      requires Valid() && mappings.Some?
      ensures MappingsValid() && mappings.Some?
      ensures queue == if removed < |old(queue)| then RemoveAt(old(queue), removed) else old(queue)
      ensures removed < |old(queue)| ==> original == RemoveAt(old(original), old(mappings).value.mappingFrom[removed])
      ensures removed >= |old(queue)| ==> mappings == old(mappings) && original == old(original)
      ensures index == FirstAdjustment(true, old(index), removed)
      ensures index.Some? ==> index.value <= |queue|
      ensures index.Some? && index.value == |queue| ==> removed <= index.value
    {
      if removed < |queue| {
        ghost var (xs, r0) := (original, Shuffled());
        var r := RemoveElementFromShuffled(original, removed, Shuffled());
        original := RemoveAt(original, r0.mappingFrom[removed]);
        if index.Some? && index.value > removed {
          index := Some(index.value - 1);
        }
        mappings := Some(Mappings(r.mappingTo, r.mappingFrom));
        queue := r.shuffled;
        ConsistentAgain(RemoveAt(xs, r0.mappingFrom[removed]), r, original, Shuffled());
      }
    }

    /** `shuffleSongs()`: the current song moves to the front. `rand` stands
        for the draws of `Math.random`. */
    method ShuffleSongs(rand: seq<nat>)
      modifies `original, `queue, `index, `mappings
      requires IndexValid() && ValidOracle(rand, |queue|)
      ensures Valid()
      ensures mappings.Some? && original == old(queue)
      ensures |queue| == |old(queue)| && multiset(queue) == multiset(old(queue))
      ensures old(index).None? ==> index.None?
      ensures old(index).Some? ==> index == Some(0) && queue[0] == old(queue)[old(index).value]
      ensures old(index).Some? ==> index == Some(mappings.value.mappingTo[old(index).value])
      ensures old(index).Some? ==> mappings.value.mappingFrom[index.value] == old(index).value
    {
      ghost var xs := queue;
      var r := ShuffleArray(queue, index, rand);
      if index.Some? {
        UnshuffleRestores(xs, r, index.value);
      }
      original, queue := queue, r.shuffled;
      index := if index.None? then None else Some(r.mappingTo[index.value]);
      mappings := Some(Mappings(r.mappingTo, r.mappingFrom));
      ConsistentAgain(xs, r, original, Shuffled());
    }

    /** `setQueue({songs, source, index: start})`: a source other than
        "queue" replaces the queue (and shuffles it when shuffle is on);
        then the song at `start ?? 0` is played. */
    method SetQueue(songs: seq<Song>, source: Source, start: Option<int>, rand: seq<nat>, load: Load)
      modifies `queue, `index, `mappings, `original, `songInfo, `playing, `currentTime
      requires Valid()
      requires !source.QueueSource? && shuffle ==> ValidOracle(rand, |songs|)
      ensures Valid() && playing
      ensures source.QueueSource? ==>
                queue == old(queue) && mappings == old(mappings) && original == old(original) &&
                ChangedTo(start.GetOr(0), old(songInfo), old(currentTime), load)
      ensures !source.QueueSource? && !shuffle ==>
                queue == QueueItems(songs, source) && mappings.None? && ChangedTo(start.GetOr(0), old(songInfo), old(currentTime), load)
      ensures !source.QueueSource? && shuffle ==>
                original == QueueItems(songs, source) && mappings.Some? && multiset(queue) == multiset(original)
      ensures !source.QueueSource? && shuffle && signedIn && 0 <= start.GetOr(0) < |songs| ==>
                && index == Some(0) && queue[0] == QueueItems(songs, source)[start.GetOr(0)]
                && songInfo == (if load == Loaded then Some(queue[0]) else old(songInfo))
                && currentTime == old(currentTime)
      ensures !source.QueueSource? && shuffle && !(signedIn && 0 <= start.GetOr(0) < |songs|) ==>
                index.None? && songInfo.None? && currentTime == 0.0
    {
      if source.QueueSource? {
        ChangeSongIndex(start.GetOr(0), load);
      } else if !shuffle {
        queue := QueueItems(songs, source);
        index := None;
        mappings := None;
        ChangeSongIndex(start.GetOr(0), load);
      } else {
        LoadShuffled(songs, source, start, rand, load);
      }
      playing := true;
    }

    /** `setQueue` for a source other than "queue" with shuffle on: the
        songs become the queue, the song at `start` is picked, and the queue
        is shuffled with that song moved to the front. */
    method LoadShuffled(songs: seq<Song>, source: Source, start: Option<int>, rand: seq<nat>, load: Load)
      modifies `queue, `index, `mappings, `original, `songInfo, `playing, `currentTime
      requires ValidOracle(rand, |songs|)
      ensures Valid()
      ensures original == QueueItems(songs, source) && mappings.Some? && multiset(queue) == multiset(original)
      ensures signedIn && 0 <= start.GetOr(0) < |songs| ==>
                && index == Some(0) && queue[0] == QueueItems(songs, source)[start.GetOr(0)]
                && songInfo == (if load == Loaded then Some(queue[0]) else old(songInfo))
                && currentTime == old(currentTime)
      ensures !(signedIn && 0 <= start.GetOr(0) < |songs|) ==> index.None? && songInfo.None? && currentTime == 0.0
    {
      var items := QueueItems(songs, source);
      queue := items;
      index := None;
      mappings := None;
      var s := start.GetOr(0);
      ChangeSongIndex(s, load);
      ghost var info := songInfo;
      assert queue == items;
      assert signedIn && 0 <= s < |songs| ==> index == Some(s) && info == (if load == Loaded then Some(items[s]) else old(songInfo));
      ShuffleSongs(rand);
      assert songInfo == info;
    }

    /** `clear()`. */
    method Clear()
      modifies `queue, `mappings, `index, `songInfo, `playing, `currentTime
      ensures Valid() && Stopped()
      ensures queue == [] && mappings.None?
    {
      queue := [];
      mappings := None;
      StopPlaying();
    }

    /** `toggleShuffle()`: turning shuffle off restores the queue's order
        before shuffling and follows the current song there; turning it on
        shuffles. */
    method ToggleShuffle(rand: seq<nat>)
      modifies `index, `queue, `mappings, `shuffle, `original
      requires Valid()
      requires !shuffle ==> ValidOracle(rand, |queue|)
      ensures Valid()
      ensures shuffle == !old(shuffle)
      ensures old(shuffle) && old(mappings).None? ==> queue == old(queue) && index == old(index) && mappings.None?
      ensures old(shuffle) && old(mappings).Some? ==>
                queue == old(original) && mappings.None? &&
                index == (if old(index).None? then None else Some(old(mappings).value.mappingFrom[old(index).value]))
      ensures old(shuffle) && old(index).Some? ==> index.Some? && queue[index.value] == old(queue)[old(index).value]
      ensures !old(shuffle) ==> mappings.Some? && original == old(queue) && multiset(queue) == multiset(old(queue))
      ensures !old(shuffle) && old(index).Some? ==> index == Some(0) && queue[0] == old(queue)[old(index).value]
      ensures !old(shuffle) && old(index).Some? ==> index == Some(mappings.value.mappingTo[old(index).value])
      ensures !old(shuffle) && old(index).Some? ==> mappings.value.mappingFrom[index.value] == old(index).value
      ensures !old(shuffle) && old(index).None? ==> index.None?
    {
      if shuffle {
        if mappings.Some? {
          Unshuffle();
        }
        shuffle := false;
      } else {
        ShuffleSongs(rand);
        shuffle := true;
      }
    }

    /** The "off" branch of `toggleShuffle` for a shuffled queue. */
    method Unshuffle()
      modifies `index, `queue, `mappings
      requires Valid() && mappings.Some?
      ensures IndexValid()
      ensures queue == original && mappings.None?
      ensures index == (if old(index).None? then None else Some(old(mappings).value.mappingFrom[old(index).value]))
      ensures old(index).Some? ==> index.Some? && queue[index.value] == old(queue)[old(index).value]
    {
      var m := mappings.value;
      var r := Shuffled();
      assert r == ShuffleResult(queue, m.mappingTo, m.mappingFrom);
      ghost var xs := original;
      var restored := Unshuffled(queue, m.mappingTo);
      UnshuffleIndex(xs, r, index);
      var next := if index.None? then None else Some(m.mappingFrom[index.value]);
      assert restored == xs;
      assert next.Some? ==> next.value < |xs| && xs[next.value] == r.shuffled[index.value];
      index := next;
      queue := restored;
      mappings := None;
    }
  }

  /** Shuffling and then unshuffling, with nothing in between, gives back
      the queue and the current index. */
  method ShuffleRoundTrip(q: QueueProvider, rand: seq<nat>)
    modifies q`index, q`queue, q`mappings, q`shuffle, q`original
    requires q.Valid() && !q.shuffle && ValidOracle(rand, |q.queue|)
    ensures q.Valid() && !q.shuffle
    ensures q.queue == old(q.queue) && q.index == old(q.index)
  {
    q.ToggleShuffle(rand);
    q.ToggleShuffle(rand);
  }
}
