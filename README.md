# A verified model of the music player's core logic

This project models, in Dafny, the self-contained logic of a music player made of three parts: a web app, a mobile app and cloud functions. It does not model the React views, Firebase or the native audio plugin around that logic. The model covers these parts of the system:

- **Shuffle bookkeeping and play queues.** `shuffleArray`, `reverseMapping` and `removeElementFromShuffled` keep two index maps consistent with a shuffled copy of a list. Both `QueueProvider`s are modelled as classes whose methods update the record they keep in place: the current one with shuffling and the older one without.
- **Identifiers and escaping.** This covers the password rule, the path builder and the storage paths built with it. It also covers the album id codec around the `<<<<<<<` divider, the percent-escaping of Firestore keys and the `undefined` helpers.
- **Library aggregation.**
  - Album grouping and the album order.
  - Search result grouping, which caps and de-duplicates the artist and album lists.
  - Playlist edits.
  - The recently played, recently added and liked orderings.
  - The artwork collage.
- **The local cache merge.** A batch of Firestore document changes is folded into the cached list, with the stale-update and soft-delete rules. The merge also computes the next high-water mark.
- **The MP3 duration scanner.** It skips the ID3v2 tag and walks MPEG audio frame headers (ISO/IEC 11172-3 clause 2.4.2.3).
- **Virtualised list arithmetic.**
  - The masonry grid layout and its render window.
  - The two recycling tables.
  - Jump-to-letter in the mobile list containers.
- **Small state machines.**
  - The offline-groups string codec and the downloader's bookkeeping.
  - The status bar's temporary and default styles.
  - The "G then X" shortcuts.
  - The `Link` href and click rule.

Several files have copies that are identical or almost identical: `clamp`, `fmtMSS` and `pluralSongs` in app/src/utils.ts and packages/app/src/utils.ts, and `isPasswordValid`, `createPath` and `isDefined` in the two universal utils files. The model defines each of these once. Where the copies differ (the older `shuffleArray`, `createAlbumId` with `??`, the older queue, the three songs query files), each variant has its own member. Two more files repeat logic cited elsewhere, and the model defines it once:
- shared/web/queries/songs.ts reads the same `slice`, `filter`, `sort`, `reduce` and `forEach` pipelines as app/src/queries/songs.ts, so the `Songs` members cover it.
- app/src/mobile/components/ListContainer.tsx:102-123 and packages/mobile/src/components/ListContainer.tsx:96-116 hold the same jump-to-letter loop as mobile/src/components/ListContainer.tsx, so the `LetterScroll` members cover them. The only difference is that the first of them hands the position to `scrollToPosition` rather than setting `scrollTop`.

JavaScript's `undefined` is `Option`, and a thrown exception is the `Err` case of `Result`. Numbers are unbounded integers or exact reals. `Math.random()` is an oracle sequence of indices. A clock reading is a parameter. Known quirks of the source are modelled as written and proved as such:
- `frameSize` never takes the layer-1 branch.
- A "modified" change for an unknown id mutates at index -1.
- The password rule needs 8 code units, not 6.
- The album sort compares `b.artist` with itself.
- Item equality in the queue is not symmetric.
- An artist ending in `<` breaks the album id round trip.

## Model

| member | source | states |
|---|---|---|
| AppUtils.Clamp | app/src/utils.ts:94-96 | the result is at least `min`, at most `max` when `min <= max`, equals the value inside the range, `min` below it and `max` above it |
| AppUtils.FmtMSS | app/src/utils.ts:273-276 | the text always holds a colon; when the rounded argument is not negative it is the whole minutes, a colon and the remaining seconds as exactly two digits |
| AppUtils.FmtMSSWhole | app/src/utils.ts:273-276 | a whole number of seconds `60 * m + s` is written as `m`, a colon and `s` as exactly two digits |
| AppUtils.FmtMSSRounds | app/src/utils.ts:273-276 | the argument is rounded before it is split into minutes and seconds |
| AppUtils.FmtMSSPadsSeconds | app/src/utils.ts:273-276 | 65 seconds are written "1:05" |
| AppUtils.FmtMSSRoundsUp | app/src/utils.ts:273-276 | 59.5 seconds round up to "1:00" |
| AppUtils.PluralSongs | app/src/utils.ts:278 | "song" exactly for a count of 1, "songs" otherwise, `undefined` included |
| AppUtils.SongsCount | app/src/utils.ts:280 | split on its space, the label is the count (0 for `undefined`) and the word `pluralSongs` gives |
| JsNumber.ParseInt | app/src/utils.ts:652 | `parseInt` without a radix: blank text, or text whose first character after white space is neither a sign nor a digit, gives `NaN`; a first digit 1-9 always gives a non-negative number; only a leading minus gives a negative one |
| AppUtils.ParseIntOr | app/src/utils.ts:650-654 | the default for `undefined`, for text `parseInt` cannot read and for text that reads as 0; otherwise the non-zero parsed number |
| AppUtils.ParseIntOrRoundTrip | app/src/utils.ts:650-654 | a written non-zero integer reads back as itself; 0 gives the default |
| Shuffle.InverseArePermutations | app/src/utils.ts:444-445 | two maps that undo each other on `[0, n)` are both bijections of `[0, n)` |
| Shuffle.IdentityIsPermutation | app/src/utils.ts:429-431 | the untouched mapping (`m[i] ?? i` with no entries) is a bijection of `[0, n)` |
| Shuffle.SwapKeepsPermutation | app/src/utils.ts:425-432 | exchanging two entries of a bijection gives a bijection |
| Shuffle.Least | app/src/utils.ts:469-471 | the least key of a non-empty key set, the next one `Object.keys` lists for integer keys |
| Shuffle.Swap | app/src/utils.ts:425-432 | `swap(a, b)` exchanges the two elements and the two `mappingFrom` entries, an unwritten entry standing for its own index |
| Shuffle.SwapTracks | app/src/utils.ts:435-442 | one loop turn keeps the loop invariant: positions from `currentIndex` on are settled, and the copy is the array read through a bijection that `mappingFrom` agrees with |
| Shuffle.FisherYates | app/src/utils.ts:434-442 | the loop ends with a copy of the same length, a `mappingFrom` with an entry for every index that is a bijection of `[0, n)`, `shuffled[i] == array[mappingFrom[i]]`, and the same multiset of elements |
| Shuffle.TracksDone | app/src/utils.ts:435 | once `currentIndex` reaches 0 every index has a `mappingFrom` entry |
| Shuffle.NumberKeys | app/src/utils.ts:469-471 | exactly the record's keys, in ascending order |
| Shuffle.ReverseMapping | app/src/utils.ts:473-480 | every value of the mapping becomes a key whose value is the key it came from, and nothing else is a key |
| Shuffle.ReverseOfPermutation | app/src/utils.ts:473-480 | the reverse of a bijection of `[0, n)` is its inverse |
| Shuffle.ReverseTwice | app/src/utils.ts:473-480 | reversing a bijection twice gives it back |
| Shuffle.InverseUnique | app/src/utils.ts:444-445 | a bijection has exactly one inverse |
| Shuffle.ConsistentOf | packages/shared/web/utils.spec.ts:16-29 | with inverse maps, `shuffled[i] == array[mappingFrom[i]]` for all `i` implies `shuffled[mappingTo[i]] == array[i]` for all `i` |
| Shuffle.SwapInverse | app/src/utils.ts:456-459 | swapping two shuffled positions and the `mappingTo` entries of the elements there keeps the maps inverse |
| Shuffle.SwapConsistent | app/src/utils.ts:456-459 | that swap keeps both test equalities |
| Shuffle.MoveToFront | app/src/utils.ts:447-460 | the element at `first` ends up at position 0 with `mappingTo[first] == 0`, both test equalities still hold, and the elements are the same multiset |
| Shuffle.ShuffleArray | app/src/utils.ts:418-467 | the result is a permutation of the array with `shuffled[mappingTo[i]] == array[i]` and `shuffled[i] == array[mappingFrom[i]]`, inverse maps and, when `first` is given, `array[first]` at position 0 with `mappingTo[first] == 0` |
| Shuffle.ShuffleArrayLegacy | packages/app/src/utils.ts:374-402 | the older version: a permutation of the input, inverse maps and both mapping equalities |
| Shuffle.RemoveAt | app/src/utils.ts:487 | the copy one shorter, each element taken from the index `Unshift` names |
| Shuffle.RemovedStep | app/src/utils.ts:490-495 | one loop turn writes the renumbered entry of original index `i` and keeps the loop invariant |
| Shuffle.SurvivorNotRemoved | app/src/utils.ts:486-493 | an original index other than the removed one is not mapped to the removed position |
| Shuffle.RemovedIsPermutation | app/src/utils.ts:489-495 | the renumbered `mappingTo` is a bijection of `[0, n - 1)` |
| Shuffle.RemovedTracksOriginal | app/src/utils.ts:486-495 | reading the new copy through the renumbered `mappingTo` gives the original array without element `mappingFrom[index]` |
| Shuffle.RemovedConsistent | app/src/utils.ts:482-502 | the new result is consistent with the original array minus that element |
| Shuffle.RemoveElementFromShuffled | app/src/utils.ts:482-502 | the shuffled copy without position `index`, and inverse maps relating it to the original array without element `mappingFrom[index]` |
| Queue.CheckSourcesEqual | app/src/queue.tsx:53-63 | true exactly when both sources are `undefined`, or both are defined and agree on the type and, for album, artist, playlist and generated sources, on the id |
| Queue.SourcesEqualIsEquivalence | app/src/queue.tsx:53-63 | source equality is reflexive, symmetric and transitive |
| Queue.CheckQueueItemsEqual | app/src/queue.tsx:65-86 | false when either item is `undefined` or the ids differ; throws exactly for equal ids with a "manuel" first item; a "queue" first item equals any item with its id; otherwise the sources must agree |
| Queue.QueueItemsEqualNotSymmetric | app/src/queue.tsx:65-86 | a "queue" item equals a "library" item with its id, but not the other way round |
| Queue.GoToTarget | app/src/queue.tsx:288-315 | unforced in "repeat-one": the current index (nothing without one); otherwise stop exactly when the mode is "none" and the index is out of range, wrap to 0 past the end and to `length - 1` below 0, else the index itself |
| Queue.QueueItems | app/src/queue.tsx:383-387 | one item per song, in order, tagged with the source and identified by the playlist id or else the song id |
| Queue.UnshuffleRestores | app/src/queue.tsx:461-464 | `queue.map((_, i) => queue[mappingTo[i]])` of a consistent shuffle is the list before shuffling, and `mappingFrom` undoes `mappingTo` |
| Queue.UnshuffleIndex | app/src/queue.tsx:461-464 | after unshuffling, the current song followed through `mappingFrom` is at the same place in the restored list |
| Queue.ExtendConsistent | app/src/queue.tsx:317-326 | appending an item that maps to itself in both maps keeps the shuffle consistent with the list before shuffling plus that item |
| Queue.DequeueIndex | app/src/queue.tsx:331-360 | the index bookkeeping of `dequeue`: kept below the removed position, restarted at it, lowered by one unshuffled, and, shuffled, lowered twice (restarted for `removed + 1`) |
| Queue.DequeueKeepsCurrentSong | app/src/queue.tsx:347-360 | unshuffled, a kept index still points at the song that was playing |
| Queue.DequeueShuffledSkipsBack | app/src/queue.tsx:339-342 | shuffled, an index more than one past the removed position ends up one song earlier than the one that was playing |
| Queue.QueueProvider.constructor | app/src/queue.tsx:160-181 | an empty queue without mappings, nothing playing, and the stored mode and shuffle flag |
| Queue.QueueProvider.StopPlaying | app/src/queue.tsx:222-228 | nothing playing: no song, no index, position 0 |
| Queue.QueueProvider.ChangeSongIndex | app/src/queue.tsx:230-282 | with a user and an index in range the index moves there, and the item there becomes the current song only when its download URL was found and `setSrc` did not throw (otherwise the previous song stays); without a user or item the player stops |
| Queue.QueueProvider.TryToGoTo | app/src/queue.tsx:288-315 | does what `GoToTarget` decides: nothing, stop, or move to the chosen position and set playing, the song changing only when it loaded |
| Queue.QueueProvider.Next | app/src/queue.tsx:406 | goes, forced, to `(index ?? 0) + 1` |
| Queue.QueueProvider.NextAutomatic | app/src/queue.tsx:420-422 | goes, unforced, to `(index ?? 0) + 1`, so "repeat-one" replays |
| Queue.QueueProvider.Previous | app/src/queue.tsx:407-418 | within the first 4 seconds goes, forced, to `(index ?? 0) - 1`; later only resets the position to 0 |
| Queue.QueueProvider.Enqueue | app/src/queue.tsx:317-329 | exactly one "manuel" item appended and earlier items kept; when shuffled, the new last index maps to itself in both maps |
| Queue.QueueProvider.Dequeue | app/src/queue.tsx:331-363 | position `removed` leaves the queue (and, shuffled, the mappings and the list before shuffling); the index is settled as `DequeueIndex` says, a restart going to that position again with the song changing only when it loaded |
| Queue.QueueProvider.RemoveFromQueue | app/src/queue.tsx:333-352 | the first half of `dequeue`: the element leaves the queue, and, when shuffled, the mappings, with an index past it lowered |
| Queue.QueueProvider.RestartOrShift | app/src/queue.tsx:354-360 | the second half: an index equal to `removed` goes there again (the song changing only when it loaded), a later one is lowered |
| Queue.QueueProvider.RemoveShuffled | app/src/queue.tsx:333-346 | the shuffled branch: the queue without the position, mappings consistent with the list before shuffling without the element, an index past it lowered |
| Queue.QueueProvider.ShuffleSongs | app/src/queue.tsx:365-376 | the queue is permuted with consistent mappings, and a current song moves to position 0, which becomes the index |
| Queue.QueueProvider.SetQueue | app/src/queue.tsx:378-403 | a "queue" source only changes the index; any other source replaces the queue with its items and moves to `index ?? 0`, shuffled to the front when shuffle is on, keeping the current time; the song there becomes current only when it loaded, and playing is set either way; without a user or with a start outside the songs, the index and song are cleared and the time is 0 |
| Queue.QueueProvider.LoadShuffled | app/src/queue.tsx:382-397 | the new items are picked at `index ?? 0` and then shuffled with that song at position 0, which is the current song when it loaded (else the previous song stays), keeping the current time; without a user or with a start outside the songs, `changeSongIndex` stops: no index, no song, time 0 |
| Queue.QueueProvider.Clear | app/src/queue.tsx:448-452 | an empty queue without mappings, and nothing playing |
| Queue.QueueProvider.ToggleShuffle | app/src/queue.tsx:454-474 | off: `original[i] = queue[mappingTo[i]]`, index `mappingFrom[index]`, mappings cleared; on: shuffled with the current song at 0; the flag flips |
| Queue.QueueProvider.Unshuffle | app/src/queue.tsx:460-466 | the queue in its order before shuffling, the index followed through `mappingFrom` onto the same song, no mappings |
| Queue.ShuffleRoundTrip | app/src/queue.tsx:454-474 | shuffle on then off, with nothing in between, gives back the queue and the current index |
| LegacyQueue.GoToStep | packages/app/src/queue.tsx:168-190 | before any song it goes to 0 unless the queue is empty; "repeat-one" replays the current index; at the ends it stops in mode "none" and otherwise wraps to 0 or `length - 1`; else the index itself |
| LegacyQueue.RepeatOneReplays | packages/app/src/queue.tsx:174-176 | in "repeat-one" mode both `next` and `previous` replay the current index |
| LegacyQueue.StepsWithinQueue | packages/app/src/queue.tsx:184-186 | away from the ends `next` and `previous` move one step in the other modes |
| LegacyQueue.StepTargetInRange | packages/app/src/queue.tsx:168-190 | a position it goes to lies inside a non-empty queue when the current index does |
| LegacyQueue.LegacyQueueProvider.constructor | packages/app/src/queue.tsx:61-73 | an empty queue, no index, no song, no source, nothing playing |
| LegacyQueue.LegacyQueueProvider.Enqueue | packages/app/src/queue.tsx:85-92 | exactly one item with source "Queue" appended, the rest unchanged |
| LegacyQueue.LegacyQueueProvider.StopPlaying | packages/app/src/queue.tsx:94-98 | no song, no index, position 0 |
| LegacyQueue.LegacyQueueProvider.SetIndex | packages/app/src/queue.tsx:100-125 | the whole new state (`IndexSet`): without a user nothing changes; a position outside the queue stops playback (no song, no index, position 0, `playing` and the source kept); otherwise the index is set and the position kept, and with a truthy download URL the song plays with its source, while an absent or empty URL leaves song, source and `playing` as they were |
| LegacyQueue.LegacyQueueProvider.SetQueue | packages/app/src/queue.tsx:127-166 | one item per song, in order, tagged with the source; then the whole state `setIndex(index ?? 0)` leaves, starting from no index and the new source label |
| LegacyQueue.LegacyQueueProvider.TryToGoTo | packages/app/src/queue.tsx:168-190 | the whole new state after the step `GoToStep` decides: nothing changes, playback stops with the source kept, or the state `setIndex` leaves for the chosen position |
| LegacyQueue.LegacyQueueProvider.Next | packages/app/src/queue.tsx:193 | the whole state `tryToGoTo((index ?? 0) + 1)` leaves, song and `playing` included; in particular it replays in "repeat-one", starts at 0 before any song, steps forward, wraps in "repeat" and stops at the end in "none" |
| LegacyQueue.LegacyQueueProvider.Previous | packages/app/src/queue.tsx:194-196 | the whole state `tryToGoTo((index ?? 0) - 1)` leaves, song and `playing` included; in particular it replays in "repeat-one", steps back, wraps to the last song in "repeat" and stops at the start in "none" |
| UniversalUtils.IsPasswordValid | shared/universal/utils.ts:31-33 | for a password without line breaks the regular expression matches exactly when it has at least 8 UTF-16 code units (its JavaScript `length`), a digit, a lower-case and an upper-case letter |
| UniversalUtils.SurrogatePairsCount | shared/universal/utils.ts:31-33 | `.{8,}` counts code units: "aA1" followed by three characters beyond the Basic Multilingual Plane (nine code units, six characters) is accepted, and with two of them (seven code units) rejected |
| UniversalUtils.PasswordOneLine | shared/universal/utils.ts:31-33 | both directions of that rule: a match somewhere on a line-break-free password forces the whole password to satisfy it, and a password that satisfies it matches at 0 |
| UniversalUtils.PasswordExamples | functions/src/auth.spec.ts:102-121 | "12345aA", "123456AA" and "123456aa" are rejected and "123456aA" is accepted, so the rule asks for 8 characters, not the six the comment names |
| UniversalUtils.BuildAppend | shared/universal/utils.ts:35-40 | `append(part).build()` is the part alone on an empty path and otherwise what was built, "/" and the part |
| UniversalUtils.EmptyBuild | shared/universal/utils.ts:35-40 | the empty path builds "" |
| UniversalUtils.ArtworkPath | packages/shared/universal/utils.ts:75-92 | artwork files are `<uid>/song_artwork/<hash>/artwork.<type>` and `.../thumb@<size>_artwork.<type>` |
| UniversalUtils.SongFilePath | packages/shared/universal/utils.ts:89-90 | song files are `<uid>/songs/<songId>/<fileName>` |
| UniversalUtils.SongDocPath | shared/universal/utils.ts:54-61 | a song's document is `user_data/<uid>/songs/<songId>` |
| UniversalUtils.AlbumDocPath | shared/universal/utils.ts:63-66 | an album's document is `user_data/<uid>/albums/` followed by the escaped album id |
| UniversalUtils.TruthyArtist | shared/universal/utils.ts:115 | the album artist when non-empty, else the artist when non-empty, else "" |
| UniversalUtils.CreateAlbumId | shared/universal/utils.ts:114-116 | that artist, the divider `<<<<<<<` and the album name (or "") |
| UniversalUtils.NullishArtist | packages/shared/universal/utils.ts:104-106 | the album artist whenever it is present, even empty, else the artist or "" |
| UniversalUtils.AlbumIdVersionsDiffer | packages/shared/universal/utils.ts:104-106 | the two `createAlbumId` versions differ exactly when the album artist is "" and a non-empty artist is known |
| UniversalUtils.GetAlbumAttributes | shared/universal/utils.ts:118-124 | the name is `undefined` exactly when the id holds no divider, and then the album artist is the whole id |
| UniversalUtils.AlbumIdRoundTrip | shared/universal/utils.ts:104-124 | reading an id back gives the artist and the album name when the divider first occurs right after the artist and not in the name |
| UniversalUtils.CreateAlbumIdNullish | packages/shared/universal/utils.ts:104-106 | the id is the `??` artist, the divider and the album name (or ""), each at its place; `AlbumIdRoundTripNullish` reads it back |
| UniversalUtils.AlbumIdRoundTripNullish | packages/shared/universal/utils.ts:94-114 | the same round trip for the `??` version |
| UniversalUtils.ArtistEndingInAngle | shared/universal/utils.ts:104-124 | keeping the divider out of both parts is not enough: artist "a<" and album "x" read back as "a" and "<x" |
| UniversalUtils.Create | shared/universal/utils.ts:133-141 | the two tables: each given character maps to `%` and its upper-case hex code, and each code maps back to its character |
| UniversalUtils.TablesComputed | shared/universal/utils.ts:153 | the tables for `.$[]#/%` are the ones `create` computes |
| UniversalUtils.HexCodes | shared/universal/utils.ts:134 | the codes are "%2E", "%24", "%5B", "%5D", "%23", "%2F" and "%25" |
| UniversalUtils.EncodeDecode | shared/universal/utils.ts:146-147 | decoding undoes encoding for any tables that undo each other with three-character codes starting with `%` |
| UniversalUtils.EncodeFirebase | shared/universal/utils.ts:133-153 | `decodeFirebase` gives back the string `encodeFirebase` was given, for every string, and the key holds none of `. $ [ ] # /` |
| UniversalUtils.DecodeFirebase | shared/universal/utils.ts:144-153 | decoding never lengthens a key, and a key without `%` decodes to itself |
| UniversalUtils.EncodeChar | shared/universal/utils.ts:146 | each escaped character becomes its code and every other character is kept |
| UniversalUtils.IsDefinedExactly | shared/universal/utils.ts:126-127 | false exactly for `null` and `undefined` |
| UniversalUtils.DefinedOnly | shared/universal/utils.ts:155-163 | exactly the properties whose value is not `undefined`, with their values |
| UniversalUtils.RemovedUndefinedValues | shared/universal/utils.ts:155-163 | deletes in place exactly the properties holding `undefined` and returns the same object |
| Albums.AlbumArtistOf | app/src/queries/album.ts:67 | the album artist when non-empty, else the artist, else "" |
| Albums.SameIdAsShared | app/src/queries/album.ts:6-11 | the id and artist the app derives from a song are the ones the shared `createAlbumId` builds from the same fields |
| Albums.CalculateAlbums | app/src/queries/album.ts:13-51 | the `forEach` loop builds exactly the lookup of the songs filed one by one |
| Albums.AddSong | app/src/queries/album.ts:17-32 | the callback creates the artist entry and the album when missing and adds the song's id to its list and its set |
| Albums.FileSong | app/src/queries/album.ts:17-32 | one `forEach` step: the song's artist and album are present afterwards, every other artist and every other album of that artist is kept, and the album's list ends with the song's id, which its set holds |
| Albums.AlbumLookup | app/src/queries/album.ts:13-51 | the lookup's artists are exactly the album artists of the songs |
| Albums.FileSongAt | app/src/queries/album.ts:17-32 | filing a song touches only its own album, creating it with its id, artist and name, and appending the id |
| Albums.LookupHoldsIds | app/src/queries/album.ts:13-51 | the lookup holds an album for exactly the artist and album pairs with some song, listing those songs' ids in input order |
| Albums.AlbumMembers | app/src/queries/album.ts:17-32 | an id is listed in an album exactly when some song with that id is filed under the album's artist and name |
| Albums.EverySongFiled | app/src/queries/album.ts:17-32 | every song's album exists, and its list and its set hold the song's id |
| Albums.AlbumsWellFormed | app/src/queries/album.ts:21-31 | each album's `songIds` set equals the set of its `songs`, its id is artist + divider + name, and it lists at least one song |
| Albums.AlbumKeys | app/src/queries/album.ts:17-28 | the albums correspond one to one with the distinct (artist, album) pairs of the songs |
| Albums.FiledExactly | app/src/queries/album.ts:78-85 | a song passes the skip test against a lookup built from `songs` exactly when some song there has its id, artist and album |
| Albums.SkipExactly | app/src/queries/album.ts:75-90 | the recalculation is skipped exactly when every changed song already has such a match |
| Albums.FindAlbum | app/src/queries/album.ts:113-122 | the album exactly when the artist entry and the album entry exist |
| Albums.CompareAlbums | app/src/queries/album.ts:104-109 | an unnamed `a` compares as after `b`; a named `a` comes before an unnamed `b`; between named albums the result is 0 exactly when the names are equal and negative exactly when `a`'s name is less, so artists never decide |
| Albums.SameNameTies | app/src/queries/album.ts:104-109 | albums with the same non-empty name compare as equal whatever their artists, because line 108 compares `b.artist` with itself |
| Albums.UnnamedAlbumsInconsistent | app/src/queries/album.ts:104-106 | two albums without a name each compare as coming after the other |
| Albums.SortAlbums | app/src/queries/album.ts:104-109 | a permutation of the albums with the named ones first, in name order, and the unnamed ones last |
| Albums.SortAlbumsOrdered | app/src/queries/album.ts:104-109 | the stable insertion sort with this comparator leaves the albums in that order |
| Search.Distinct | app/src/search.ts:78-86 | the keys that occur, each once, in order of first occurrence, as the `seenArtists` and `seenAlbums` records list them |
| Search.Take | app/src/search.ts:77 | the first `numItems` elements, or all of them when there are fewer |
| Search.FirstWithArtwork | app/src/search.ts:89-91 | the first item with artwork under the key, and none exactly when no item under the key has artwork |
| Search.Note | app/src/search.ts:77-115 | one artist or album step: while the list has room a new key is appended and a key without a song takes the item when it has artwork; the list stays the first `numItems` distinct keys, each with its first item with artwork |
| Search.CompleteSet | app/src/search.ts:89-91 | a listed key without a song takes an item with artwork as its song, and no other entry changes |
| Search.CompleteNew | app/src/search.ts:78-87 | a key seen for the first time is listed at the end, with the item as its song exactly when it has artwork |
| Search.ClosedFull | app/src/search.ts:77 | once a list holds `numItems` keys later items change nothing in it |
| Search.ExtendGroup | app/src/search.ts:70-75 | a full list is already what the whole ranking gives, so stopping early loses nothing |
| Search.SongStep | app/src/search.ts:117-125 | the song list takes the item while it has room |
| Search.FullExtends | app/src/search.ts:69-75 | breaking out once all three lists are full gives the results of the whole ranking |
| Search.Search | app/src/search.ts:53-134 | no results without a loaded library or with an empty query; otherwise the first `numItems` songs and the artist and album lists of distinct keys, in order of first occurrence, each with its first item with artwork |
| Search.GroupedFacts | app/src/search.ts:77-115 | a list holds at most `numItems` keys, no key twice, only keys that occur, every key that occurs while it has room, and as a song an item with artwork under its key |
| Search.OpenGroupComplete | app/src/search.ts:89-91 | while a list has room, an entry without a song means no item under its key has artwork |
| Sync.MaxUpdatedAt | app/src/db.ts:118-132 | the mark is never negative, whatever the documents' timestamps |
| Sync.MaxUpdatedAtBound | app/src/db.ts:118-132 | no document's update time, in whole milliseconds, exceeds the mark |
| Sync.MaxUpdatedAtAttained | app/src/db.ts:118-132 | the mark is 0 or the update time of one of the documents |
| Sync.GetMaxUpdatedAt | app/src/db.ts:118-132 | the `forEach` loop with `Math.max` from 0 returns the maximum over the documents, or 0 |
| Sync.MaxUpdatedAtIsMax | app/src/db.ts:118-132 | a document with a non-negative time no later than the mark; when no document is later, the mark is exactly its time |
| Sync.FindIndex | app/src/db.ts:313 | -1 exactly when no cached document has the id; otherwise the first index holding it |
| Sync.Mutate | app/src/db.ts:261-289 | `mutate` throws exactly when the document is not flagged deleted and the index is outside the list; every element after it was in the list or is the document; when not deleting it keeps the length and every element but the one at the index |
| Sync.ApplyChange | app/src/db.ts:299-320 | a change throws exactly when it is "modified", not flagged deleted, and no cached document has its id; it adds or removes at most one element; every element after it was in the list or is the change's document |
| Sync.RemovedIgnored | app/src/db.ts:301-307 | a "removed" change leaves the list unchanged |
| Sync.AddedUnknown | app/src/db.ts:244-259 | an "added" change for an unknown id appends the document, unless it is flagged deleted, which leaves the list as it was |
| Sync.KnownIdChange | app/src/db.ts:261-289 | for a known id: a deleted document removes the element; an older document than the cached one is ignored; otherwise it replaces the cached one in place |
| Sync.OthersUntouched | app/src/db.ts:261-289 | a change to a known id never throws and leaves every other element, shifted down by one after a deletion |
| Sync.ModifiedUnknown | app/src/db.ts:316-320 | a "modified" change for an unknown id runs `add` and then `mutate` at index -1: a deleted document drops the last element, any other throws a TypeError |
| Sync.Merge | app/src/db.ts:298-321 | a batch without "modified" changes never throws, and the merged list differs in length from the cached one by at most the number of changes |
| Sync.MergeChanges | app/src/db.ts:298-321 | the `forEach` over the batch on a copy of the list yields the changes applied in order, or the first TypeError |
| Sync.MergeAborts | app/src/db.ts:298-321 | once a change throws, the rest of the batch is not applied |
| Sync.MergeFrom | app/src/db.ts:298-321 | every document of the merged list was already cached or is the data of a change of the batch |
| Sync.SpliceOne | app/src/db.ts:273 | `splice(index, 1)` removes one element exactly when the index is below the length and the list is not empty (a negative index counts from the end, and one reaching back past the start removes the first element), and only removes: every element left was in the list |
| Sync.Watcher.constructor | app/src/db.ts:155-162 | the watcher starts with no items and the stored `lastUpdated` mark |
| Sync.Watcher.Load | app/src/db.ts:163-202 | without a stored mark, the non-deleted documents are loaded and the mark is set one past their latest update; otherwise the cached list is used and the mark is kept |
| Sync.Watcher.OnSnapshot | app/src/db.ts:235-336 | an empty batch or one that throws changes nothing; otherwise the list becomes the merge and the mark one past the latest update in the batch |
| Sync.NotDeleted | app/src/db.ts:170-173 | a document is kept exactly when it is in the collection and not flagged deleted |
| Sync.ChangedDocs | app/src/db.ts:298-300 | one document per change, in order, each the change's data |
| Sync.MarkPastBatch | app/src/db.ts:323-335 | the stored mark is later than every document of the batch, "removed" ones included |
| Mp3.EntryOr0 | packages/functions/src/get-mp3-duration.ts:132-135 | `table[i] \|\| 0`: the entry at an index inside the table, 0 outside it |
| Mp3.SkipID3 | packages/functions/src/get-mp3-duration.ts:82-102 | the offset of the first frame is 0 (no tag) or at least the 10-byte tag header; it is 0 without "ID3" and when a size byte has bit 7 set |
| Mp3.SkipID3Size | packages/functions/src/get-mp3-duration.ts:82-102 | a tag whose four size bytes have bit 7 clear skips the header, the base-128 size and the footer when flag 0x10 is set |
| Mp3.NoTagNoSkip | packages/functions/src/get-mp3-duration.ts:84 | without the "ID3" marker the offset is 0 |
| Mp3.FrameSize | packages/functions/src/get-mp3-duration.ts:104-117 | the frame size is never negative, and 0 for a zero sample rate (the `\| 0` of Infinity or NaN) |
| Mp3.ParseFrameHeader | packages/functions/src/get-mp3-duration.ts:119-147 | every field read from the tables is at least 0, and a frame with a size has a positive sample rate |
| Mp3.TablesCover | packages/functions/src/get-mp3-duration.ts:119-137 | every table key the header bits can build exists and every entry is at least 0 |
| Mp3.PaddingAlwaysOneByte | packages/functions/src/get-mp3-duration.ts:111-115 | the layer reaches `frameSize` as a string, so padding always adds one byte, Layer I included |
| Mp3.ExampleHeader | packages/functions/src/get-mp3-duration.ts:119-147 | an MPEG-1 Layer III header at 128 kbit/s and 44100 Hz gives 417 bytes and 1152 samples |
| Mp3.StepAt | packages/functions/src/get-mp3-duration.ts:61-76 | the scan always moves forward; only a sync word counts seconds, never negative; a "TAG" moves 128 bytes; a sync word whose header gives no frame size or no samples moves one byte and counts nothing |
| Mp3.ScanFrom | packages/functions/src/get-mp3-duration.ts:57-77 | the seconds counted from an offset are never negative |
| Mp3.Mp3Duration | packages/functions/src/get-mp3-duration.ts:49-80 | the duration is a non-negative number of milliseconds, and 0 for a buffer shorter than 100 bytes |
| Mp3.GetMp3Duration | packages/functions/src/get-mp3-duration.ts:49-80 | the `while` loop over the offset returns the rounded sum of the frames' playing times from the end of the ID3 tag |
| Mp3.ReadWindow | packages/functions/src/get-mp3-duration.ts:58-76 | one loop turn moves the offset and adds the seconds of the window at the offset |
| Mp3.ScanStep | packages/functions/src/get-mp3-duration.ts:57-77 | the seconds from an offset are those of its window plus those from where the window sends the scan |
| Mp3.NoFramesNoDuration | packages/functions/src/get-mp3-duration.ts:57-77 | a buffer with no frame sync word counts no seconds |
| GridList.ColumnWidth | app/src/components/GridList.tsx:238-251 | no width without a column count, gap or element width; otherwise the columns of the rounded width and the gaps between them fill the element to within half a pixel per column |
| GridList.RoundedShare | app/src/components/GridList.tsx:247-248 | rounding the share of the width left after the gaps keeps the filled width within half a pixel per column of the element's width |
| GridList.Heights | app/src/components/GridList.tsx:364 | one rounded height per entry, in order |
| GridList.MaxFrom0 | app/src/components/GridList.tsx:366 | the running `Math.max` from 0 is at least 0 and at least every height of the row |
| GridList.MaxFrom0Attained | app/src/components/GridList.tsx:366 | a row's height is 0 or the height of one of its cells |
| GridList.RowMax | app/src/components/GridList.tsx:366 | a row's height is never negative |
| GridList.RowOf | app/src/components/GridList.tsx:355 | the row of an index is at least 1 and is the row whose cells include the index |
| GridList.ColumnOf | app/src/components/GridList.tsx:354 | the column of an index lies between 1 and the column count |
| GridList.Layout | app/src/components/GridList.tsx:341-375 | the pass over the entries yields one cell per entry, each the cell of that entry in the row-by-row layout, and the total height of the grid |
| GridList.LaidAll | app/src/components/GridList.tsx:351-373 | once every entry is placed, the cells are the layout's and the running totals add up to the grid's height |
| GridList.Place | app/src/components/GridList.tsx:351-369 | one turn of the `map` callback appends the next entry's cell and keeps the running totals those of the rows so far |
| GridList.PlaceCell | app/src/components/GridList.tsx:352-368 | the cell built for an entry is its cell in the layout, and the running totals move past it |
| GridList.EnterRow | app/src/components/GridList.tsx:357-361 | an entry that starts a new row adds the finished row's height and a gap to the offset and resets the row's height to 0 |
| GridList.CellFacts | app/src/components/GridList.tsx:352-368 | the cell built from the running totals of the entry's row is the layout's cell for that entry |
| GridList.NextRow | app/src/components/GridList.tsx:357-361 | starting a new row: the finished row's height and a gap join the offset |
| GridList.ExtendRow | app/src/components/GridList.tsx:363-366 | adding an entry to the current row raises the row's height to the entry's when it is taller |
| GridList.LayoutTotal | app/src/components/GridList.tsx:371 | after the last entry the running totals add up to the grid's height |
| GridList.DivIsRowOf | app/src/components/GridList.tsx:354-355 | row and column are the quotient and remainder of the index by the column count, plus one |
| GridList.CellGrid | app/src/components/GridList.tsx:354-355 | cell `i` is in column `i mod cols + 1`, between 1 and the column count, of row `i div cols + 1` |
| GridList.CellWithinRow | app/src/components/GridList.tsx:366 | no cell is taller than its row |
| GridList.RowsStack | app/src/components/GridList.tsx:357-366 | with a non-negative gap a row ends, gap included, no lower than a later row starts, and rows end in order |
| GridList.OffsetMonotone | app/src/components/GridList.tsx:359 | with a non-negative gap later rows start no higher |
| GridList.OffsetStep | app/src/components/GridList.tsx:359 | the row after a row starts below it by its height and a gap |
| GridList.CellsDoNotOverlap | app/src/components/GridList.tsx:341-375 | cells in the same row share an offset; a cell of an earlier row ends, with the gap, above every cell of a later row |
| GridList.RowsInOrder | app/src/components/GridList.tsx:355 | row numbers never decrease along the entries |
| GridList.TotalHeightCovers | app/src/components/GridList.tsx:371 | with a non-negative gap every cell ends within the grid's total height |
| GridList.RowFitsTotal | app/src/components/GridList.tsx:371 | every row's offset plus any of its cells' heights lies within the total height |
| GridList.Visible | app/src/components/GridList.tsx:391-402 | exactly the cells whose extent meets the window widened by the margin are kept |
| GridList.RenderCells | app/src/components/GridList.tsx:382-418 | the loop over the cells yields the visible cells in order, the first rendered row and its offset, and nothing before the grid is measured |
| GridList.FirstRowOffsetIs | app/src/components/GridList.tsx:408-412 | when every rendered cell of a row has one offset, the recorded offset is it, and absent when no cell of the row is rendered |
| GridList.RenderedFirstRow | app/src/components/GridList.tsx:382-418 | nothing is rendered before the grid is measured; a first row is recorded exactly when something is rendered, and it is the first cell's row with that row's offset |
| GridList.VisibleInRowOrder | app/src/components/GridList.tsx:391-415 | filtering the cells keeps them in row order |
| GridList.GridRowStart | app/src/components/GridList.tsx:253-261 | no row without render data, a row otherwise; a cell of the first rendered row is CSS row "1" |
| GridList.GridRowsFromOne | app/src/components/GridList.tsx:253-261 | the first rendered row becomes CSS row 1 and every rendered cell gets a positive row counted from there |
| BlockRecycle.SentinelIsBlockStart | packages/shared/web/recycle.tsx:117-124 | a sentinel is rendered exactly on the rows that start a block, so the cursor `index / rowsPerBlock` is a whole block number |
| BlockRecycle.MinMaxCursors | packages/shared/web/recycle.tsx:57-67 | the loop over the intersecting blocks yields their least and greatest block, or 0 and 0 when none intersects |
| BlockRecycle.ScanStep | packages/shared/web/recycle.tsx:59-62 | visiting one more block keeps the running minimum and maximum those of the blocks visited |
| BlockRecycle.CursorStep | packages/shared/web/recycle.tsx:60-61 | `Math.min`/`Math.max` with one more block give the least and greatest of the blocks so far |
| BlockRecycle.ScanDone | packages/shared/web/recycle.tsx:57-67 | once every block is visited the running values are the cursors; none was found only for an empty set |
| BlockRecycle.Pick | packages/shared/web/recycle.tsx:59 | the block visited next is one not yet visited |
| BlockRecycle.Recycler.constructor | packages/shared/web/recycle.tsx:23-27 | no block intersects and both cursors start at 0 |
| BlockRecycle.Recycler.Observe | packages/shared/web/recycle.tsx:37-67 | an entering sentinel adds its block, a leaving one deletes it, and the cursors are recalculated from the set |
| BlockRecycle.Recycler.ObserveAll | packages/shared/web/recycle.tsx:35-68 | the entries of one notification are handled in order, and the cursors stay the least and greatest intersecting block |
| BlockRecycle.EnterThenLeave | packages/shared/web/recycle.tsx:45-51 | a sentinel that enters and then leaves restores the set when its block was not in it |
| BlockRecycle.Window | packages/shared/web/recycle.tsx:83-104 | the first rendered row starts a block and is not negative, the last is within the table, and both placeholders with the rendered rows add up to the table's height |
| BlockRecycle.WindowRows | packages/shared/web/recycle.tsx:86-94 | the rendered rows are the table rows from one block before the first visible block to two blocks past the last |
| BlockRecycle.VisibleBlocksRendered | packages/shared/web/recycle.tsx:83-104 | every row of a block the observer reports as visible is rendered |
| ScrollRecycle.UnitsOffScreen | packages/app/src/recycle.ts:52-54 | no rows for a stretch that is not positive; otherwise the largest number of whole rows that fit in it |
| ScrollRecycle.Recycle | packages/app/src/recycle.ts:44-64 | the first rendered row is not negative and the end not past the table; the placeholders are the rows off screen above and below, and with the rendered rows they add up to the table's height |
| ScrollRecycle.RowsMonotone | packages/app/src/recycle.ts:57-58 | fewer rows make a placeholder no taller, and conversely |
| ScrollRecycle.AfterStart | packages/app/src/recycle.ts:52 | a row is at or after the first rendered row exactly when its bottom edge is below the container's top |
| ScrollRecycle.BeforeEnd | packages/app/src/recycle.ts:54-60 | a row is before the end exactly when its top edge is above the container's bottom |
| ScrollRecycle.RenderedRows | packages/app/src/recycle.ts:44-64 | the rendered rows are exactly the table rows at least partly inside the container |
| ScrollRecycle.StartNotAfterEnd | packages/app/src/recycle.ts:44-64 | the window is not inverted exactly when the table reaches the container's top and starts less than one row past its end |
| ScrollRecycle.OrderedIff | packages/app/src/recycle.ts:52-60 | the same condition stated on the two off-screen stretches |
| ScrollRecycle.BothOffScreen | packages/app/src/recycle.ts:52-54 | rows off screen above and below never add up to more than the table |
| ScrollRecycle.FarBelowViewport | packages/app/src/recycle.ts:44-64 | a table far below a container gets an end of -90 rows, before its start |
| Offline.TypeIndex | app/src/mobile/offline.tsx:15 | every group type has its place in the fixed order of types |
| Offline.TypeNamed | app/src/mobile/offline.tsx:17 | `isDownloadType` recognises exactly the six type names, each as its own type |
| Offline.NamedType | app/src/mobile/offline.tsx:15-17 | every type's name is recognised as that type |
| Offline.SetAdd | app/src/mobile/offline.tsx:40 | `Set.add` adds the id at the end when it is new and changes nothing when it is present; no member is ever held twice |
| Offline.SetDelete | app/src/mobile/offline.tsx:75 | `Set.delete` removes exactly the id, keeps the others in order, and changes nothing when the id is absent |
| Offline.AddIds | app/src/mobile/offline.tsx:40 | adding the ids in turn gives the old members and the ids, none twice |
| Offline.AddDistinctIds | app/src/mobile/offline.tsx:40 | distinct ids added to an empty set come back in their order |
| Offline.Empty | app/src/mobile/offline.tsx:26-33 | the sets start empty for all six types |
| Offline.GroupTexts | app/src/mobile/offline.tsx:44 | one "type:ids" text per type, in the order of the types |
| Offline.ParseGroup | app/src/mobile/offline.tsx:37-41 | a group naming no type is skipped; a known type without a ":" throws; otherwise its ids join that type's set, still without duplicates |
| Offline.ParseGroups | app/src/mobile/offline.tsx:37-41 | the groups folded in order from empty sets never hold a duplicate |
| Offline.Normalised | app/src/mobile/offline.tsx:23-24 | an empty stored string counts as no value; any other value is kept |
| Offline.Parse | app/src/mobile/offline.tsx:23-41 | nothing stored gives the empty sets; a successful parse never holds a duplicate |
| Offline.ParseStored | app/src/mobile/offline.tsx:23-41 | the `forEach` over the stored groups yields the parse of the stored text, or the first throw |
| Offline.ParseKey | app/src/mobile/offline.tsx:37-41 | the callback for one group yields the group folded into the sets |
| Offline.ErrorPersists | app/src/mobile/offline.tsx:37-41 | once a group throws, the whole parse ends with that throw |
| Offline.Reparsed | app/src/mobile/offline.tsx:40-44 | a non-empty set comes back as itself, an empty set as the single empty id |
| Offline.Partial | app/src/mobile/offline.tsx:37-44 | after the first `k` written groups are read back, those types have their sets back and the others are empty |
| Offline.Serialise | app/src/mobile/offline.tsx:43-44 | when no id holds a separator, the written text split at ";" gives back the six "type:ids" groups in the order of the types |
| Offline.RoundTrip | app/src/mobile/offline.tsx:37-46 | reading back what `writeGroups` wrote returns every type's set, except that an empty set comes back holding the empty id |
| Offline.ParsePrefix | app/src/mobile/offline.tsx:37-46 | reading back the first `k` groups written gives the partial sets |
| Offline.GroupStep | app/src/mobile/offline.tsx:38-40 | reading back the group of one type restores that type's set |
| Offline.GroupSplits | app/src/mobile/offline.tsx:38 | a written group splits at its first ":" into the type name and the joined ids |
| Offline.SplitJoinIds | app/src/mobile/offline.tsx:40-44 | joined ids split back into the set, or into the single empty id |
| Offline.UnknownTypeIgnored | app/src/mobile/offline.tsx:39 | a group whose text names no type changes nothing |
| Offline.MissingIdsThrows | app/src/mobile/offline.tsx:38-40 | a group that is a bare type name throws |
| Offline.Downloader.constructor | app/src/mobile/offline.tsx:26-35 | the downloader starts with the parsed sets, the stored text and no song ids |
| Offline.Downloader.HasGroup | app/src/mobile/offline.tsx:79 | true exactly when the id is in its type's set |
| Offline.Downloader.HasSong | app/src/mobile/offline.tsx:80 | undefined before "init-offline", then whether the song id is known |
| Offline.Downloader.WriteGroups | app/src/mobile/offline.tsx:43-46 | the stored text becomes the serialised sets |
| Offline.Downloader.AddDownloaded | app/src/mobile/offline.tsx:68-72 | the id joins its type's set, the other sets are kept, and the sets are written back |
| Offline.Downloader.RemoveDownloaded | app/src/mobile/offline.tsx:73-78 | an absent id changes and writes nothing; otherwise it leaves its type's set, the other sets are kept, and the sets are written back |
| Offline.Downloader.InitOffline | app/src/mobile/offline.tsx:48-55 | the first call records the song ids; a second call throws and changes nothing |
| Offline.Downloader.DownloadComplete | app/src/mobile/offline.tsx:57-64 | before "init-offline" it throws and changes nothing; afterwards the song id joins the known ids |
| Offline.CreateDownloader | app/src/mobile/offline.tsx:19-89 | a parse that throws rejects the creation; otherwise a fresh downloader holds the parsed sets, the stored text and no song ids |
| Offline.AddThenRemove | app/src/mobile/offline.tsx:68-78 | adding and then removing a group leaves it not downloaded and other types' sets unchanged |
| Playlists.Create | app/src/queries/playlists.ts:13-35 | an empty name creates nothing; otherwise a playlist with the fresh id, the name, an empty song list and the deleted flag off |
| Playlists.Appended | app/src/queries/playlists.ts:50-51 | the old entries, kept in order, followed by one new entry with the song and a fresh element id |
| Playlists.Add | app/src/queries/playlists.ts:37-67 | a missing playlist is left alone; otherwise only its song list (appended) and its update time change |
| Playlists.FindIndex | app/src/queries/playlists.ts:115 | the first entry with the element id, or -1 exactly when no entry has it |
| Playlists.RemoveSong | app/src/queries/playlists.ts:96-132 | the scan and splice write the list without the first entry with the element id, and nothing without a playlist id, document, list or match |
| Playlists.RemoveNoMatch | app/src/queries/playlists.ts:115-116 | nothing is written exactly when no entry has the element id |
| Playlists.RemoveFirstMatch | app/src/queries/playlists.ts:115-120 | the list written lacks the first entry with the element id, and keeps the others in order |
| Playlists.RemoveExactlyOne | app/src/queries/playlists.ts:115-120 | exactly one entry with the element id goes and nothing else |
| Playlists.RemoveShortens | app/src/queries/playlists.ts:120 | the list written is one entry shorter |
| Playlists.RemoveKeepsSameSong | app/src/queries/playlists.ts:100-101 | two entries of one song are told apart by element id, and only the targeted one goes |
| Playlists.Rename | app/src/queries/playlists.ts:134-150 | without an id or a document nothing is written; otherwise the name is the new one and the update time is `now`, while the songs, the deleted flag, the id and the creation time are kept |
| Playlists.Delete | app/src/queries/playlists.ts:152-163 | without an id nothing is written; otherwise the deleted flag is raised and the update time is `now`, while the songs, the name, the id and the creation time are kept |
| Playlists.Find | app/src/queries/playlists.ts:69-76 | the playlist found is in the list and has the id; none is found only when no listed playlist has it |
| Playlists.FindIn | app/src/queries/playlists.ts:72 | `find` returns the first playlist with the id |
| Playlists.KnownItems | app/src/queries/playlists.ts:87 | exactly the entries whose song the lookup knows, in playlist order |
| Playlists.PlaylistSongs | app/src/queries/playlists.ts:78-94 | undefined while the playlist or its list is; otherwise one song per known entry, in order, each the looked-up song tagged with the entry's element id |
| Playlists.PlaylistSongsFromEntries | app/src/queries/playlists.ts:78-94 | every listed song comes from a playlist entry whose song is known, and every such entry is listed |
| Songs.Take | app/src/queries/songs.ts:17 | `slice(0, n)`: the first `n` songs, or all of them when there are fewer |
| Songs.Filter | app/src/queries/songs.ts:18 | `filter`: only songs that pass, each as often as in the input, the whole input when all pass |
| Songs.RecentlyPlayed | app/src/queries/songs.ts:11-22 | undefined exactly while the songs are |
| Songs.RecentlyAdded | app/src/queries/songs.ts:24-31 | undefined exactly while the songs are |
| Songs.Liked | app/src/queries/songs.ts:33-42 | undefined exactly while the songs are |
| Songs.RecentlyPlayedContents | app/src/queries/songs.ts:14-19 | exactly the played songs among the first thousand, each as often as there |
| Songs.RecentlyPlayedOrder | app/src/queries/songs.ts:19 | the latest play comes first |
| Songs.PlayedDescending | app/src/queries/songs.ts:19 | the sort key `lastPlayed?.seconds ?? 0` in descending order orders the played songs by their play time |
| Songs.SortedMembers | app/src/queries/songs.ts:19 | a sorted list holds only songs of the list it was sorted from |
| Songs.RecentlyAddedOrder | app/src/queries/songs.ts:24-31 | a permutation of the first thousand songs, newest first |
| Songs.LikedOrder | app/src/queries/songs.ts:33-42 | exactly the liked songs, each as often as in the list, most recently liked first (no like time counts as 0) |
| Songs.Duration | app/src/queries/songs.ts:99-105 | 0 for `undefined`, and never negative when no duration is |
| Songs.SumDurations | app/src/queries/songs.ts:102 | the `reduce` from 0 over non-negative durations is not negative and is at least each song's duration |
| Songs.DurationAppend | app/src/queries/songs.ts:99-105 | the total of two lists one after the other is the sum of their totals |
| Songs.SumAppend | app/src/queries/songs.ts:102 | the left fold over a concatenation is the sum of the folds |
| Songs.Lookup | app/src/queries/songs.ts:107-116 | no entries while the songs are undefined; otherwise the keys are exactly the songs' ids, each mapped to a song of the list with that id |
| Songs.LookupOf | app/src/queries/songs.ts:113 | the `forEach` stores each song under its id |
| Songs.LastDuplicateWins | app/src/queries/songs.ts:113 | the song stored under an id is the last one in the list with it |
| Songs.GeneratedTypeSongs | app/src/queries/songs.ts:118-134 | recently added falls back to an empty list while loading, liked and recently played are passed through, and any other type gives an empty list |
| Songs.SoftDelete | app/src/queries/songs.ts:44-52 | the song is kept, marked deleted with the new update time, and nothing else changes |
| Songs.DownloadUrl | packages/app/src/queries/songs.ts:85-112 | no document gives nothing; a stored non-empty URL is returned; otherwise a successful storage lookup's URL is returned and stored on the song; a failed lookup gives nothing |
| Songs.CachedSkipsFetch | packages/app/src/queries/songs.ts:95-97 | with a stored URL the storage lookup does not matter |
| Songs.FetchThenCached | packages/app/src/queries/songs.ts:103-106 | once a non-empty URL is fetched and stored, the next request returns it from the song |
| Songs.WithoutSong | packages/app/src/queries/songs.ts:47-52 | no cached list stays none; otherwise every entry with the deleted id goes and every other stays, as often as before |
| Songs.WithoutSongDropsExactlyId | packages/app/src/queries/songs.ts:50 | the cached list loses exactly the entries with the id |
| Songs.FilterLength | packages/app/src/queries/songs.ts:50 | the list shrinks by the number of entries with the id |
| Collage.Normalised | app/src/components/Collage.tsx:18-20 | `undefined` gives no songs, a single song a list of it, and a list itself |
| Collage.WithArtwork | app/src/components/Collage.tsx:21 | every item kept has artwork |
| Collage.Dedup | app/src/components/Collage.tsx:16-37 | the reference selection: items with artwork and a hash not seen before, pairwise distinct hashes, in input order |
| Collage.SelectIsTake | app/src/components/Collage.tsx:25-34 | stopping at a number of pieces selects that many first pieces of the unlimited selection |
| Collage.FilterFirst | app/src/components/Collage.tsx:21-31 | filtering out items without artwork first changes nothing, since the loop skips them anyway |
| Collage.SelectUnique | app/src/components/Collage.tsx:23-36 | the `for` loop with `seen` and the break at four selects the first four pieces of the reference selection |
| Collage.ScanStep | app/src/components/Collage.tsx:25-34 | one loop turn keeps an item exactly when it has artwork with a hash not seen yet |
| Collage.CollageSongs | app/src/components/Collage.tsx:17-37 | `filtered` of the app's collage is the first four pieces of the reference selection of the normalised songs |
| Collage.CollageSnapshots | packages/shared/web/components/Collage.tsx:18-35 | `filtered` of the shared collage is the first four pieces of the reference selection of the snapshots |
| Collage.CollageShape | app/src/components/Collage.tsx:16-37 | at most four pieces, all with artwork, with distinct hashes, in input order |
| Collage.FirstOccurrenceWins | app/src/components/Collage.tsx:29-33 | each piece shown is the first item with its artwork hash |
| Collage.EveryHashShown | app/src/components/Collage.tsx:29-33 | every artwork hash of the input not yet seen has its piece in the unlimited selection |
| Collage.FewerThanFourShowsAll | app/src/components/Collage.tsx:16-37 | with fewer than four pieces, every artwork hash of the input is shown |
| Collage.ImageSize | app/src/components/Collage.tsx:39-42 | at most one piece keeps the collage's size; otherwise each quarter image is half of it |
| LetterScroll.Lower | mobile/src/components/ListContainer.tsx:105 | `toLowerCase` keeps the length and lower-cases each ASCII letter |
| LetterScroll.FindTarget | mobile/src/components/ListContainer.tsx:106-114 | the first row whose value hits the letter, or the last row when none after the start hits; an empty string met before any hit throws |
| LetterScroll.TargetFound | mobile/src/components/ListContainer.tsx:106-114 | without empty strings the scan does not throw, and it lands on a hit whenever some row hits |
| LetterScroll.ScrollTo | mobile/src/components/ListContainer.tsx:101-122 | nothing happens without items or a container; otherwise the scan throws exactly when the reference scan does, else the scroll position is the chosen row times the row height |
| LetterScroll.ScrollToTitle | packages/mobile/src/pages/Songs.tsx:67-86 | the songs page scans the titles in the same way and scrolls in rows of 57 pixels |
| LetterScroll.Titles | packages/mobile/src/pages/Songs.tsx:73-75 | each song's sort value is its title, a string |
| LetterScroll.EmptyListTarget | mobile/src/components/ListContainer.tsx:106 | an empty list scrolls to row -1 |
| LetterScroll.VisibleRows | mobile/src/components/ListContainer.tsx:135-150 | undefined items render nothing; otherwise one row per item of the slice, with its index in the slice and its absolute index |
| LetterScroll.VisibleRowsWindow | mobile/src/components/ListContainer.tsx:138-145 | for a window inside the list, the rows are the items from start to end and each absolute index is the item's position in the list |
| Link.Substituted | app/src/components/Link.tsx:21-24 | a template without a ":" has no placeholder and comes back unchanged whatever the params |
| Link.HrefOf | app/src/components/Link.tsx:19-35 | for a template without placeholders the href is the template, followed by "?" and the query string exactly when query params are given |
| Link.QueryString | app/src/components/Link.tsx:27-29 | no query params give an empty query string |
| Link.Pairs | app/src/components/Link.tsx:27-28 | one `key=value` text per query param, in order |
| Link.Href | app/src/components/Link.tsx:19-35 | the `forEach` over the params and the appended query string build the href of the template with each param's first placeholder replaced as `replace` does it (`$` patterns in the value expanded), and the query added when query params are given |
| Link.NoQueryNoMark | app/src/components/Link.tsx:20-26 | without query params no `?` is added: the href is the filled-in template |
| Link.NoNewChar | app/src/components/Link.tsx:21-24 | a character in neither the template nor any value is not in the filled-in template |
| Link.EmptyQueryMark | app/src/components/Link.tsx:26-31 | an empty query object still appends a lone `?` |
| Link.QueryRoundTrip | app/src/components/Link.tsx:27-29 | split on `&`, the query string gives back the `key=value` pairs in order when none holds an `&` |
| Link.FirstPlaceholderFilled | app/src/components/Link.tsx:23 | `replace` fills only the first place its placeholder occurs, with the value's `$` patterns expanded (a value without `$` goes in as written), keeping the rest of the template |
| Link.DollarAmpersand | app/src/components/Link.tsx:23 | a param whose value is `$&` leaves the template unchanged, since `replace` inserts the matched placeholder |
| Link.DoubleDollar | app/src/components/Link.tsx:23 | a param whose value is "AC$$DC" is inserted as "AC$DC" |
| Link.Click | app/src/components/Link.tsx:42-54 | a plain click prevents the default, stops propagation, navigates and calls `onGo`; with ctrl or meta none of these happen; the caller's `onClick` is called last either way |
| Shortcuts.Press | app/src/shortcuts.tsx:16-38 | a key navigates exactly when a `g` press is recorded no more than the timeout before; navigating forgets the press; otherwise `g` records its time and other keys keep the record |
| Shortcuts.Hotkeys.constructor | app/src/shortcuts.tsx:16 | no `g` press is recorded at first |
| Shortcuts.Hotkeys.NavigateIfLessThanTimeout | app/src/shortcuts.tsx:18-38 | without a recorded press, or with one older than the timeout, `ifNot` runs and nothing navigates; otherwise the press is forgotten and the route is navigated to |
| Shortcuts.Hotkeys.OnKey | app/src/shortcuts.tsx:173-188 | each of `g`, `s`, `a`, `b`, `h` and `p` has the effect of a press of its key on the recorded press |
| Shortcuts.Run | app/src/shortcuts.tsx:173-188 | a run of presses gives one outcome per press |
| Shortcuts.NoPressNoNavigation | app/src/shortcuts.tsx:23-26 | without a recorded press no key navigates, and `g` records its time |
| Shortcuts.TimeoutBoundary | app/src/shortcuts.tsx:28-32 | a key exactly the timeout after `g` navigates; one millisecond later it does not, and the record is kept or, for `g`, renewed |
| Shortcuts.NavigationClears | app/src/shortcuts.tsx:34-37 | after a navigation the next key, at any time, does not navigate |
| Shortcuts.DoubleG | app/src/shortcuts.tsx:173-178 | `g` twice goes to the genres page exactly when the second press is within the timeout |
| Shortcuts.GThenKey | app/src/shortcuts.tsx:173-188 | `g` followed within the timeout by a route key navigates to that key's route and forgets the press |
| Shortcuts.NoTwoNavigationsInARow | app/src/shortcuts.tsx:18-38 | from a fresh start, every navigation follows a press that did not navigate |
| Shortcuts.NavigationsAlternate | app/src/shortcuts.tsx:18-38 | no two consecutive presses both navigate, and the first press from no record does not |
| StatusBar.Apply | app/src/mobile/status-bar.tsx:14-30 | every request keeps the provider consistent: a marked temporary style is shown, else the default once set |
| StatusBar.TemporaryShownAtOnce | app/src/mobile/status-bar.tsx:18-20 | `setTemporary` marks and shows the style at once and keeps the default |
| StatusBar.DefaultShownUnlessTemporary | app/src/mobile/status-bar.tsx:27-30 | `setDefault` records the default and shows it exactly when no temporary style is marked |
| StatusBar.ReleaseShowsDefault | app/src/mobile/status-bar.tsx:21-24 | releasing clears the mark and shows the default when there is one, else leaves the bar as it is |
| StatusBar.RunConsistent | app/src/mobile/status-bar.tsx:14-30 | any sequence of requests keeps the provider consistent |
| StatusBar.DefaultWaitsForRelease | app/src/mobile/status-bar.tsx:27-30 | a default set while a temporary style is up leaves the bar alone until the release shows it |
| StatusBar.NestedReleaseClears | app/src/mobile/status-bar.tsx:18-30 | releasing the first of two temporary styles already clears the mark, and a later default shows at once |
| StatusBar.Provider.constructor | app/src/mobile/status-bar.tsx:15-16 | both refs start undefined and the bar has been told nothing |
| StatusBar.Provider.SetTemporaryStyle | app/src/mobile/status-bar.tsx:18-20 | the provider moves as `Apply` says for `setTemporary` |
| StatusBar.Provider.ReleaseTemporary | app/src/mobile/status-bar.tsx:21-24 | the provider moves as `Apply` says for the release |
| StatusBar.Provider.SetDefaultStyle | app/src/mobile/status-bar.tsx:27-30 | the provider moves as `Apply` says for `setDefault` |

## Left out

- Native audio, React and DOM plumbing are not modelled. This covers hooks, effects, event listeners, IntersectionObserver and ResizeObserver, modals and pages. The values they deliver, such as scroll positions, sizes, observer entries and key presses, are parameters.
- Firebase, Firestore, IndexedDB, Capacitor Storage and the event emitters are I/O and are not modelled. A fetched document list, a snapshot's changes and a stored string are inputs, and a write is the new value of a field. Transactions around playlist edits, `likeSong`, and server timestamps (`serverTimestamp()`) are not modelled. Fresh ids (uuid) and timestamps are parameters.
- Clocks (`Date.now()`, the audio's `currentTime`) are parameters, and `Math.random()` is an oracle of indices, not randomness.
- Fuzzy ranking (Fuse) is an input: the search grouping takes the ranked list as given. `localeCompare` is replaced by a code-point comparison, with no locale collation.
- `toLowerCase` is modelled on ASCII letters only.
- Strings are sequences of Unicode scalar values, where JavaScript strings are sequences of UTF-16 code units. The one length the source counts on user text is the password's, and the model counts it in code units (`Utf16Length`). Elsewhere strings are searched, split and replaced as wholes, which gives the same strings in either representation. String comparisons compare code points. JavaScript compares code units, so a character beyond U+FFFF sorts below U+E000–U+FFFF there and above them here. This can change the album order for such names. It does not change the jump-to-letter scan, whose letters lie below U+D800.
- Floating point is modelled with exact reals. `Math.round` is exact, and the 53-bit precision of doubles, `NaN` and `Infinity` are not modelled. This covers the MP3 duration sum, `getColumnWidth` and the scroll arithmetic.
- The volume conversion, `fmtMSS` on non-integer seconds beyond its `Math.round`, and `onConditions` are not modelled.
- The order of `Object.values` and `Object.keys` over string keys is not modelled. Album sorting accepts any listing of the albums, and JavaScript number keys are taken in ascending order.
- `Array.prototype.sort` is modelled as a stable insertion sort.
- Splices of `copy` and `data.songs` are modelled on sequences, not as in-place array updates.
- Only the "G then X" hotkeys and the `g` handler are modelled. The other hotkeys, including the second binding of `s` to `toggleShuffle`, are not.
- The recycling tables are modelled for `rowHeight > 0`, and the grid for at least one column. With zero, the source divides by zero.
- Offline: the emitter subscription and `dispose` are left out. The native "init-offline" and "download-complete" events are method calls.
- Sync: rebuilding the timestamps of documents read back from IndexedDB is not modelled.
- BlockRecycle.Recycler.Observe: the block of a sentinel is the integer quotient `index / rowsPerBlock`. The source divides as a float, so a non-sentinel index would give a fractional key. The two agree on the sentinels, the only elements observed.
- Playlists.Delete: the document is taken as given. Firestore's `update` of a missing document fails, and that failure is not modelled.
- Mp3.GetMp3Duration: each `Buffer.copy` into the reused scratch buffer is modelled as a slice of the input. The model does not track the scratch buffer, so it leaves out the stale bytes a short copy would leave in it. The source returns as soon as a copy is short, so those bytes are never read.
- Albums.CalculateAlbums: the lookup is modelled as a map of own keys. The source's `{}` records also see the properties inherited from `Object.prototype`. So an album named like one of them ("constructor", "toString", "hasOwnProperty", …) finds the inherited function instead of a missing entry, and `.songs.push` then throws a TypeError. An artist of that name finds the inherited value too, and its albums are stored on that shared value rather than in the lookup. A key "__proto__" changes the record's prototype instead of adding an entry. The model files such songs like any other.
- Albums.AddSong: the same inherited keys are not modelled, for the same reason; the model creates the artist entry and the album where the source finds an inherited property.
- Albums.FileSong: the same inherited keys are not modelled; see Albums.CalculateAlbums.
- Albums.AlbumLookup: the same inherited keys are not modelled; see Albums.CalculateAlbums.
- Search.Note: `seenArtists` and `seenAlbums` are modelled as maps of own keys. In the source an artist, album artist or album name named like an inherited `Object.prototype` property ("constructor", "toString", …) already looks seen, so it is never listed (app/src/search.ts:78-80 and 96-108). The model lists it like any other key.
- Search.Search: the artist and album lists are built with `Search.Note`, so they list keys named like inherited `Object.prototype` properties that the source leaves out.
