/** The older play queue of packages/app/src/queue.tsx. Its mutable record
    (`current.current`) holds only the queue and the current index; there is
    no shuffling, and an item's source is a plain string. */
module LegacyQueue {
  import opened Wrappers
  import opened Types
  import Queue

  /** `{ song, source }`. */
  datatype Item = Item(song: Song, source: string)

  /** What `tryToGoTo` does: nothing, `stopPlaying()`, or `setIndex(target)`. */
  datatype Step = Nothing | Halt | SetIndex(target: int)

  /** The branch `tryToGoTo(index)` takes from the current index, the play
      mode and the queue length. */
  function GoToStep(index: int, mode: Queue.Mode, current: Option<int>, length: nat): (r: Step)
    ensures current.None? ==> r == if length == 0 then Nothing else SetIndex(0)
    ensures current.Some? && mode == Queue.RepeatOne ==> r == SetIndex(current.value)
    ensures current.Some? ==> r != Nothing
    ensures current.Some? && mode != Queue.RepeatOne ==>
              (r == Halt <==> mode == Queue.NoRepeat && !(0 <= index < length))
    ensures current.Some? && mode != Queue.RepeatOne && 0 <= index < length ==> r == SetIndex(index)
    ensures current.Some? && mode == Queue.Repeat && index >= length ==> r == SetIndex(0)
    ensures current.Some? && mode == Queue.Repeat && index < 0 ==> r == SetIndex(length - 1)
  {
    if current.None? then
      (if length == 0 then Nothing else SetIndex(0))
    else if mode == Queue.RepeatOne then SetIndex(current.value)
    else if index >= length then
      (if mode == Queue.NoRepeat then Halt else SetIndex(0))
    else if index < 0 then
      (if mode == Queue.NoRepeat then Halt else SetIndex(length - 1))
    else SetIndex(index)
  }

  /** Under "repeat-one", `next` and `previous` both replay the current song. */
  lemma RepeatOneReplays(current: int, length: nat)
    ensures GoToStep(current + 1, Queue.RepeatOne, Some(current), length) == SetIndex(current)
    ensures GoToStep(current - 1, Queue.RepeatOne, Some(current), length) == SetIndex(current)
  {
  }

  /** Away from the ends, `next` and `previous` move one step in every mode
      but "repeat-one". */
  lemma StepsWithinQueue(current: int, mode: Queue.Mode, length: nat)
    requires mode != Queue.RepeatOne && 0 < current && current + 1 < length
    ensures GoToStep(current + 1, mode, Some(current), length) == SetIndex(current + 1)
    ensures GoToStep(current - 1, mode, Some(current), length) == SetIndex(current - 1)
  {
  }

  /** A `SetIndex` step lands inside the queue, except in two cases: the
      first step, and "repeat" past the end of an empty queue. */
  lemma StepTargetInRange(index: int, mode: Queue.Mode, current: Option<int>, length: nat)
    requires current.Some? ==> 0 <= current.value < length
    requires length > 0
    requires GoToStep(index, mode, current, length).SetIndex?
    ensures 0 <= GoToStep(index, mode, current, length).target < length
  {
  }

  class LegacyQueueProvider {
    var queue: seq<Item>
    var index: Option<int>
    /** The song being played. */
    var song: Option<Song>
    /** The source label shown for the song being played. */
    var source: Option<string>
    var playing: bool
    var currentTime: real
    var mode: Queue.Mode
    /** Whether a user is signed in. */
    var signedIn: bool

    /** A current index always points into the queue. */
    ghost predicate Valid()
      reads `index, `queue
    {
      index.Some? ==> 0 <= index.value < |queue|
    }

    constructor(signedIn: bool, mode: Queue.Mode)
      ensures Valid() && queue == [] && index.None? && song.None? && source.None? && !playing
      ensures this.signedIn == signedIn && this.mode == mode
    {
      queue := [];
      index := None;
      song := None;
      source := None;
      playing := false;
      currentTime := 0.0;
      this.mode := mode;
      this.signedIn := signedIn;
    }

    /** `enqueue(song)`: one item with the source "Queue" at the end. */
    method Enqueue(s: Song)
      modifies `queue
      requires Valid()
      ensures Valid()
      ensures queue == old(queue) + [Item(s, "Queue")]
    {
      queue := queue + [Item(s, "Queue")];
    }

    /** `stopPlaying()`: clears the song, the position and the index, but
        leaves `playing` as it was. */
    method StopPlaying()
      modifies `song, `currentTime, `index
      ensures Valid() && index.None? && song.None? && currentTime == 0.0
    {
      song := None;
      currentTime := 0.0;
      index := None;
    }

    /** JavaScript's truthiness test `!downloadUrl`: an absent URL and the
        empty string both count as none. */
    static predicate HasUrl(url: Option<string>)
    {
      url.Some? && url.value != ""
    }

    /** Nothing that playback shows has moved since the given values. */
    ghost predicate Unchanged(oldIndex: Option<int>, oldSong: Option<Song>, oldTime: real,
                              oldPlaying: bool, oldSource: Option<string>)
      reads this
    {
      index == oldIndex && song == oldSong && currentTime == oldTime &&
      playing == oldPlaying && source == oldSource
    }

    /** The state `stopPlaying()` leaves: no song, no index, position 0,
        and `playing` and the source label as they were. */
    ghost predicate Stopped(oldPlaying: bool, oldSource: Option<string>)
      reads this
    {
      index.None? && song.None? && currentTime == 0.0 && playing == oldPlaying && source == oldSource
    }

    /** The state `setIndex(t)` leaves, given the state before it: without a
        user nothing changes; outside the queue playback stops; otherwise the
        index is `t`, and the song at `t` plays exactly when its download URL
        is truthy. */
    ghost predicate IndexSet(t: int, url: Option<string>, oldIndex: Option<int>, oldSong: Option<Song>,
                             oldTime: real, oldPlaying: bool, oldSource: Option<string>)
      reads this
    {
      if !signedIn then Unchanged(oldIndex, oldSong, oldTime, oldPlaying, oldSource)
      else if !(0 <= t < |queue|) then Stopped(oldPlaying, oldSource)
      else
        index == Some(t) && currentTime == oldTime &&
        if HasUrl(url) then playing && song == Some(queue[t].song) && source == Some(queue[t].source)
        else playing == oldPlaying && song == oldSong && source == oldSource
    }

    /** The state `tryToGoTo` leaves after taking `step`. */
    ghost predicate WentBy(step: Step, url: Option<string>, oldIndex: Option<int>, oldSong: Option<Song>,
                           oldTime: real, oldPlaying: bool, oldSource: Option<string>)
      reads this
    {
      match step
      case Nothing => Unchanged(oldIndex, oldSong, oldTime, oldPlaying, oldSource)
      case Halt => Stopped(oldPlaying, oldSource)
      case SetIndex(t) => IndexSet(t, url, oldIndex, oldSong, oldTime, oldPlaying, oldSource)
    }

    /** `setIndex(target)`. `url` is what `tryToGetSongDownloadUrlOrLog`
        yields for the song at `target`; without a truthy one the index
        moves but nothing starts playing. */
    method SetIndex(target: int, url: Option<string>)
      modifies `index, `song, `currentTime, `playing, `source
      requires Valid()
      ensures Valid()
      ensures IndexSet(target, url, old(index), old(song), old(currentTime), old(playing), old(source))
    {
      if !signedIn {
        return;
      }
      if !(0 <= target < |queue|) {
        StopPlaying();
        return;
      }
      index := Some(target);
      var item := queue[target];
      if !HasUrl(url) {
        return;
      }
      playing := true;
      song := Some(item.song);
      source := Some(item.source);
    }

    /** `setQueue({songs, source, index: start})`: one item per song, in
        order, each tagged with `sourceName`; the source label is set, the
        index reset, and then the song at `start ?? 0` is set. */
    method SetQueue(songs: seq<Song>, sourceName: string, start: Option<int>, url: Option<string>)
      modifies `queue, `index, `song, `currentTime, `playing, `source
      requires Valid()
      ensures Valid()
      ensures |queue| == |songs|
      ensures forall i :: 0 <= i < |songs| ==> queue[i] == Item(songs[i], sourceName)
      ensures IndexSet(start.GetOr(0), url, None, old(song), old(currentTime), old(playing), Some(sourceName))
    {
      queue := seq(|songs|, i requires 0 <= i < |songs| => Item(songs[i], sourceName));
      source := Some(sourceName);
      index := None;
      SetIndex(start.GetOr(0), url);
    }

    /** `tryToGoTo(target)`: the step `GoToStep` chooses, carried out. */
    method TryToGoTo(target: int, url: Option<string>)
      modifies `index, `song, `currentTime, `playing, `source
      requires Valid()
      ensures Valid()
      ensures WentBy(GoToStep(target, mode, old(index), |queue|), url,
                     old(index), old(song), old(currentTime), old(playing), old(source))
    {
      match GoToStep(target, mode, index, |queue|)
      case Nothing =>
      case Halt =>
        StopPlaying();
      case SetIndex(t) =>
        SetIndex(t, url);
    }

    /** `next()`: `tryToGoTo((index ?? 0) + 1)`. */
    method Next(url: Option<string>)
      modifies `index, `song, `currentTime, `playing, `source
      requires Valid()
      ensures Valid()
      ensures WentBy(GoToStep(old(index).GetOr(0) + 1, mode, old(index), |queue|), url,
                     old(index), old(song), old(currentTime), old(playing), old(source))
      ensures signedIn && old(index).Some? && mode == Queue.RepeatOne ==> index == old(index)
      ensures signedIn && old(index).None? && |queue| > 0 ==> index == Some(0)
      ensures signedIn && old(index).Some? && mode != Queue.RepeatOne && old(index).value + 1 < |queue| ==>
                index == Some(old(index).value + 1)
      ensures signedIn && old(index).Some? && mode == Queue.Repeat && old(index).value + 1 == |queue| ==>
                index == Some(0)
      ensures old(index).Some? && mode == Queue.NoRepeat && old(index).value + 1 == |queue| ==> index.None?
    {
      TryToGoTo(index.GetOr(0) + 1, url);
    }

    /** `previous()`: `tryToGoTo((index ?? 0) - 1)`, always one song back;
        unlike the newer queue it does not look at the playback position. */
    method Previous(url: Option<string>)
      modifies `index, `song, `currentTime, `playing, `source
      requires Valid()
      ensures Valid()
      ensures WentBy(GoToStep(old(index).GetOr(0) - 1, mode, old(index), |queue|), url,
                     old(index), old(song), old(currentTime), old(playing), old(source))
      ensures signedIn && old(index).Some? && mode == Queue.RepeatOne ==> index == old(index)
      ensures signedIn && old(index).Some? && mode != Queue.RepeatOne && old(index).value > 0 ==>
                index == Some(old(index).value - 1)
      ensures signedIn && old(index) == Some(0) && mode == Queue.Repeat ==> index == Some(|queue| - 1)
      ensures old(index) == Some(0) && mode == Queue.NoRepeat ==> index.None?
    {
      TryToGoTo(index.GetOr(0) - 1, url);
    }
  }
}
