/** The mobile downloader's bookkeeping: the groups (playlists, albums, ...)
    marked for offline use, kept per group type as a set of ids and stored
    as one string "type:id,id;type:id;..." under the key
    "downloaded-groups", plus the set of song ids the native player reports
    as downloaded. The stored value and the native events are inputs of the
    class below; what it writes back is its `groups` field. */
module Offline {
  import opened Wrappers
  import opened Strings

  datatype GroupType = Playlist | Generated | Album | Artist | Genre | Manual

  /** The fixed order of the types, which is also the order they are written in. */
  const Types: seq<GroupType> := [Playlist, Generated, Album, Artist, Genre, Manual]

  function TypeName(t: GroupType): string {
    match t
    case Playlist => "playlist"
    case Generated => "generated"
    case Album => "album"
    case Artist => "artist"
    case Genre => "genre"
    case Manual => "manual"
  }

  function TypeIndex(t: GroupType): (i: nat)
    ensures i < |Types| && Types[i] == t
  {
    match t
    case Playlist => 0
    case Generated => 1
    case Album => 2
    case Artist => 3
    case Genre => 4
    case Manual => 5
  }

  lemma IndexOfType(k: nat)
    requires k < |Types|
    ensures TypeIndex(Types[k]) == k
  {
    if k == 0 {
    } else if k == 1 {
    } else if k == 2 {
    } else if k == 3 {
    } else if k == 4 {
    }
  }

  /** `isDownloadType`: the type a group's text names, if it names one. */
  function TypeNamed(s: string): (r: Option<GroupType>)
    ensures r.Some? ==> TypeName(r.value) == s
    ensures r.None? <==> forall t: GroupType :: TypeName(t) != s
  {
    if s == "playlist" then Some(Playlist)
    else if s == "generated" then Some(Generated)
    else if s == "album" then Some(Album)
    else if s == "artist" then Some(Artist)
    else if s == "genre" then Some(Genre)
    else if s == "manual" then Some(Manual)
    else None
  }

  lemma NamedType(t: GroupType)
    ensures TypeNamed(TypeName(t)) == Some(t)
  {
    match t
    case Playlist =>
    case Generated =>
    case Album =>
    case Artist =>
    case Genre =>
    case Manual =>
  }

  // ---------------------------------------------------------------------------
  // A JavaScript Set<string>: its members in insertion order
  // ---------------------------------------------------------------------------

  predicate NoDuplicates(s: seq<string>) {
    forall i, j :: 0 <= i < j < |s| ==> s[i] != s[j]
  }

  /** `set.add(id)`: a new member goes to the end; a present one stays put. */
  function SetAdd(s: seq<string>, id: string): (r: seq<string>)
    ensures forall x :: x in r <==> x in s || x == id
    ensures NoDuplicates(s) ==> NoDuplicates(r)
    ensures id in s ==> r == s
    ensures id !in s ==> |r| == |s| + 1 && r[..|s|] == s
  {
    if id in s then s else s + [id]
  }

  /** `set.delete(id)`: the other members keep their order. */
  function SetDelete(s: seq<string>, id: string): (r: seq<string>)
    ensures forall x :: x in r <==> x in s && x != id
    ensures NoDuplicates(s) ==> NoDuplicates(r)
    ensures id !in s ==> r == s
  {
    if s == [] then []
    else if s[0] == id then SetDelete(s[1..], id)
    else
      var rest := SetDelete(s[1..], id);
      assert NoDuplicates(s) ==> s[0] !in s[1..];
      [s[0]] + rest
  }

  /** `ids.map((id) => set.add(id))`: the ids added in order. */
  function AddIds(s: seq<string>, ids: seq<string>): (r: seq<string>)
    ensures forall x :: x in r <==> x in s || x in ids
    ensures NoDuplicates(s) ==> NoDuplicates(r)
  {
    if ids == [] then s else SetAdd(AddIds(s, ids[..|ids| - 1]), ids[|ids| - 1])
  }

  /** Adding distinct ids to an empty set gives them back in the same order. */
  lemma {:induction false} AddDistinctIds(ids: seq<string>)
    requires NoDuplicates(ids)
    ensures AddIds([], ids) == ids
  {
    if ids != [] {
      var init := ids[..|ids| - 1];
      AddDistinctIds(init);
      assert ids[|ids| - 1] !in init;
      assert init + [ids[|ids| - 1]] == ids;
    }
  }

  // ---------------------------------------------------------------------------
  // The per-type sets and their string form
  // ---------------------------------------------------------------------------

  /** The `downloaded` record: one set per type. */
  datatype Downloaded = Downloaded(playlist: seq<string>, generated: seq<string>, album: seq<string>,
                                   artist: seq<string>, genre: seq<string>, manual: seq<string>)
  {
    function Get(t: GroupType): seq<string> {
      match t
      case Playlist => playlist
      case Generated => generated
      case Album => album
      case Artist => artist
      case Genre => genre
      case Manual => manual
    }

    /** The record with the set of type `t` replaced. */
    function With(t: GroupType, ids: seq<string>): (r: Downloaded)
      ensures r.Get(t) == ids
      ensures forall u: GroupType :: u != t ==> r.Get(u) == Get(u)
    {
      match t
      case Playlist => this.(playlist := ids)
      case Generated => this.(generated := ids)
      case Album => this.(album := ids)
      case Artist => this.(artist := ids)
      case Genre => this.(genre := ids)
      case Manual => this.(manual := ids)
    }
  }

  /** No set holds a member twice. */
  predicate WellFormed(d: Downloaded) {
    forall t: GroupType :: NoDuplicates(d.Get(t))
  }

  function Empty(): (d: Downloaded)
    ensures WellFormed(d) && forall t: GroupType :: d.Get(t) == []
  {
    Downloaded([], [], [], [], [], [])
  }

  /** One type's group: "type:" followed by its ids joined by ",". */
  function GroupText(d: Downloaded, t: GroupType): string {
    TypeName(t) + ":" + Join(d.Get(t), ",")
  }

  /** The groups of the types `ts`, in that order. */
  function GroupTexts(d: Downloaded, ts: seq<GroupType>): (r: seq<string>)
    ensures |r| == |ts|
    ensures forall i :: 0 <= i < |ts| ==> r[i] == GroupText(d, ts[i])
  {
    if ts == [] then []
    else GroupTexts(d, ts[..|ts| - 1]) + [GroupText(d, ts[|ts| - 1])]
  }

  /** `writeGroups`: the six groups in the order of `Types`, joined by ";".
      When no id holds a separator, splitting at ";" gives the groups back. */
  function Serialise(d: Downloaded): (r: string)
    ensures Separable(d) ==> Split(r, ';') == GroupTexts(d, Types)
  {
    var texts := GroupTexts(d, Types);
    if Separable(d) then
      GroupTextsSeparable(d, Types);
      SplitJoin(texts, ';');
      Join(texts, ";")
    else
      Join(texts, ";")
  }

  /** One "type:ids" group folded into the sets: an unknown type is
      skipped; a known type with no ":" leaves `ids` undefined and the
      call on it throws. */
  function ParseGroup(d: Downloaded, key: string): (r: Result<Downloaded>)
    ensures WellFormed(d) && r.Ok? ==> WellFormed(r.value)
    ensures TypeNamed(Split(key, ':')[0]).None? ==> r == Ok(d)
  {
    var parts := Split(key, ':');
    match TypeNamed(parts[0])
    case None => Ok(d)
    case Some(t) =>
      if |parts| < 2 then Err("TypeError: cannot read property 'split' of undefined")
      else Ok(d.With(t, AddIds(d.Get(t), Split(parts[1], ','))))
  }

  /** The groups folded in order, starting from six empty sets; the first
      throw ends the whole parse. */
  function ParseGroups(keys: seq<string>): (r: Result<Downloaded>)
    ensures r.Ok? ==> WellFormed(r.value)
  {
    if keys == [] then Ok(Empty())
    else
      match ParseGroups(keys[..|keys| - 1])
      case Err(e) => Err(e)
      case Ok(d) => ParseGroup(d, keys[|keys| - 1])
  }

  /** The stored value after `Storage.get`: an empty string counts as no
      value. */
  function Normalised(stored: Option<string>): (r: Option<string>)
    ensures r.Some? ==> r.value != "" && stored == r
    ensures r.None? <==> stored.None? || stored == Some("")
  {
    if stored == Some("") then None else stored
  }

  /** The sets `createDownloader` starts with. */
  function Parse(stored: Option<string>): (r: Result<Downloaded>)
    ensures r.Ok? ==> WellFormed(r.value)
    ensures Normalised(stored).None? ==> r == Ok(Empty())
  {
    match Normalised(stored)
    case None => Ok(Empty())
    case Some(groups) => ParseGroups(Split(groups, ';'))
  }

  /** The parse in `createDownloader`: the `forEach` over the groups adds
      each group's ids to its type's set. */
  method ParseStored(stored: Option<string>) returns (r: Result<Downloaded>)
    ensures r == Parse(stored)
  {
    var groups := stored;
    if groups == Some("") {
      groups := None;
    }
    var downloaded := Empty();
    if groups.None? {
      return Ok(downloaded);
    }
    var keys := Split(groups.value, ';');
    for k := 0 to |keys|
      invariant ParseGroups(keys[..k]) == Ok(downloaded)
    {
      PrefixOfPrefix(keys, k + 1);
      var next := ParseKey(downloaded, keys[k]);
      if next.Err? {
        ErrorPersists(keys, k + 1);
        return next;
      }
      downloaded := next.value;
    }
    assert keys[..|keys|] == keys;
    return Ok(downloaded);
  }

  /** The `forEach` callback for one group. */
  method ParseKey(downloaded: Downloaded, key: string) returns (r: Result<Downloaded>)
    ensures r == ParseGroup(downloaded, key)
  {
    var parts := Split(key, ':');
    var t := TypeNamed(parts[0]);
    if t.None? {
      return Ok(downloaded);
    }
    if |parts| < 2 {
      return Err("TypeError: cannot read property 'split' of undefined");
    }
    var ids := Split(parts[1], ',');
    var d := downloaded;
    for j := 0 to |ids|
      invariant d == downloaded.With(t.value, AddIds(downloaded.Get(t.value), ids[..j]))
    {
      PrefixOfPrefix(ids, j + 1);
      d := d.With(t.value, SetAdd(d.Get(t.value), ids[j]));
    }
    assert ids[..|ids|] == ids;
    return Ok(d);
  }

  lemma PrefixOfPrefix<T>(s: seq<T>, k: nat)
    requires 1 <= k <= |s|
    ensures s[..k][..k - 1] == s[..k - 1] && s[..k][k - 1] == s[k - 1]
  {
  }

  /** Once a group throws, the parse of any longer list ends with that throw. */
  lemma {:induction false} ErrorPersists(keys: seq<string>, k: nat)
    requires k <= |keys| && ParseGroups(keys[..k]).Err?
    ensures ParseGroups(keys) == ParseGroups(keys[..k])
    decreases |keys| - k
  {
    if k < |keys| {
      PrefixOfPrefix(keys, k + 1);
      ErrorPersists(keys, k + 1);
    } else {
      assert keys[..k] == keys;
    }
  }

  // ---------------------------------------------------------------------------
  // Properties of the codec
  // ---------------------------------------------------------------------------

  /** What a set comes back as: an empty set was written as "type:", whose
      ids split to the single empty id. */
  function Reparsed(ids: seq<string>): (r: seq<string>)
    ensures ids != [] ==> r == ids
    ensures ids == [] ==> r == [""]
  {
    if ids == [] then [""] else ids
  }

  /** No id holds one of the separators the stored text uses. */
  predicate Separable(d: Downloaded) {
    forall t: GroupType :: IdsSeparable(d.Get(t))
  }

  predicate IdsSeparable(ids: seq<string>) {
    forall i :: 0 <= i < |ids| ==> ',' !in ids[i] && ';' !in ids[i] && ':' !in ids[i]
  }

  /** The sets after reading back the first `k` groups written: those
      types have their sets back, the others are still empty. */
  function Partial(d: Downloaded, k: nat): (r: Downloaded)
    ensures forall t: GroupType :: r.Get(t) == if TypeIndex(t) < k then Reparsed(d.Get(t)) else []
  {
    Downloaded(Prefix(d.playlist, 0, k), Prefix(d.generated, 1, k), Prefix(d.album, 2, k),
               Prefix(d.artist, 3, k), Prefix(d.genre, 4, k), Prefix(d.manual, 5, k))
  }

  /** The set of the type at position `i` after `k` groups are read back. */
  function Prefix(ids: seq<string>, i: nat, k: nat): (r: seq<string>)
    ensures i < k ==> r == Reparsed(ids)
    ensures i >= k ==> r == []
  {
    if i < k then Reparsed(ids) else []
  }

  /** Reading back what was written: every type gets its set back, except
      that an empty set comes back holding the empty id. */
  lemma RoundTrip(d: Downloaded)
    requires WellFormed(d) && Separable(d)
    ensures Parse(Some(Serialise(d))).Ok?
    ensures forall t: GroupType :: Parse(Some(Serialise(d))).value.Get(t) == Reparsed(d.Get(t))
  {
    var texts := GroupTexts(d, Types);
    var stored := Serialise(d);
    GroupTextsSeparable(d, Types);
    SplitJoin(texts, ';');
    JoinNotEmpty(texts, ";");
    assert Normalised(Some(stored)) == Some(stored);
    assert Parse(Some(stored)) == ParseGroups(texts);
    ParsePrefix(d, |Types|);
    assert texts[..|Types|] == texts;
    PartialAll(d);
  }

  /** After all the groups are read back, every type has its set back. */
  lemma PartialAll(d: Downloaded)
    ensures forall t: GroupType :: Partial(d, |Types|).Get(t) == Reparsed(d.Get(t))
  {
    forall t: GroupType ensures Partial(d, |Types|).Get(t) == Reparsed(d.Get(t)) {
      assert TypeIndex(t) < |Types|;
    }
  }

  lemma JoinNotEmpty(parts: seq<string>, sep: string)
    requires |parts| >= 1 && |parts[0]| >= 1
    ensures Join(parts, sep) != ""
  {
  }

  lemma GroupTextsSeparable(d: Downloaded, ts: seq<GroupType>)
    requires Separable(d)
    ensures forall i :: 0 <= i < |ts| ==> ';' !in GroupTexts(d, ts)[i]
  {
    var texts := GroupTexts(d, ts);
    forall i | 0 <= i < |ts|
      ensures ';' !in texts[i]
    {
      GroupTextAvoids(d, ts[i]);
    }
  }

  lemma GroupTextAvoids(d: Downloaded, t: GroupType)
    requires IdsSeparable(d.Get(t))
    ensures ';' !in GroupText(d, t)
  {
    JoinAvoids(d.Get(t), ",", ';');
  }

  /** Joining parts none of which holds `c` with a separator without `c`
      gives a text without `c`. */
  lemma {:induction false} JoinAvoids(parts: seq<string>, sep: string, c: char)
    requires c !in sep && forall i :: 0 <= i < |parts| ==> c !in parts[i]
    ensures c !in Join(parts, sep)
    decreases |parts|
  {
    if |parts| > 1 {
      JoinAvoids(parts[1..], sep, c);
    }
  }

  /** Reading back the first `k` groups written. */
  lemma {:induction false} ParsePrefix(d: Downloaded, k: nat)
    requires WellFormed(d) && Separable(d) && k <= |Types|
    ensures ParseGroups(GroupTexts(d, Types)[..k]) == Ok(Partial(d, k))
  {
    var texts := GroupTexts(d, Types);
    if k == 0 {
      assert Partial(d, 0) == Empty();
    } else {
      ParsePrefix(d, k - 1);
      PrefixOfPrefix(texts, k);
      assert texts[k - 1] == GroupText(d, Types[k - 1]);
      assert ParseGroups(texts[..k]) == ParseGroup(Partial(d, k - 1), texts[k - 1]);
      GroupStep(d, k - 1);
    }
  }

  /** Reading back the group of the `k`-th type. */
  lemma GroupStep(d: Downloaded, k: nat)
    requires WellFormed(d) && Separable(d) && k < |Types|
    ensures ParseGroup(Partial(d, k), GroupText(d, Types[k])) == Ok(Partial(d, k + 1))
  {
    var t := Types[k];
    IndexOfType(k);
    GroupSplits(d, t);
    NamedType(t);
    SplitJoinIds(d.Get(t));
    AddDistinctIds(Reparsed(d.Get(t)));
    assert Partial(d, k).Get(t) == [];
    assert Partial(d, k).With(t, Reparsed(d.Get(t))) == Partial(d, k + 1);
  }

  /** A written group splits at its first ":" into the type name and the
      joined ids. */
  lemma GroupSplits(d: Downloaded, t: GroupType)
    requires Separable(d)
    ensures var parts := Split(GroupText(d, t), ':');
      |parts| >= 2 && parts[0] == TypeName(t) && parts[1] == Join(d.Get(t), ",")
  {
    var ids := Join(d.Get(t), ",");
    JoinAvoids(d.Get(t), ",", ':');
    SplitJoin([TypeName(t), ids], ':');
    assert Join([TypeName(t), ids], [':']) == TypeName(t) + ":" + ids by {
      assert [TypeName(t), ids][1..] == [ids];
    }
  }

  /** The ids of a written group split back into the set, or into the
      single empty id for an empty set. */
  lemma SplitJoinIds(ids: seq<string>)
    requires NoDuplicates(ids) && IdsSeparable(ids)
    ensures Split(Join(ids, ","), ',') == Reparsed(ids)
    ensures NoDuplicates(Reparsed(ids))
  {
    if ids != [] {
      SplitJoin(ids, ',');
    }
  }

  /** A group whose text names no type changes nothing. */
  lemma UnknownTypeIgnored(keys: seq<string>, key: string)
    requires TypeNamed(Split(key, ':')[0]).None?
    ensures ParseGroups(keys + [key]) == ParseGroups(keys)
  {
    assert (keys + [key])[..|keys|] == keys;
  }

  /** A group that is just a known type name, with no ":", throws. */
  lemma MissingIdsThrows(keys: seq<string>, t: GroupType)
    ensures ParseGroups(keys + [TypeName(t)]).Err?
  {
    assert (keys + [TypeName(t)])[..|keys|] == keys;
    SplitNoSeparator(TypeName(t), "", ':');
    assert TypeName(t) + "" == TypeName(t);
    NamedType(t);
  }

  // ---------------------------------------------------------------------------
  // The downloader
  // ---------------------------------------------------------------------------

  /** The object `createDownloader` resolves to. `groups` is the text last
      read from or written to storage; `songIds` is undefined until the
      native "init-offline" event. */
  class Downloader {
    var downloaded: Downloaded
    var groups: Option<string>
    var songIds: Option<set<string>>

    ghost predicate Valid()
      reads `downloaded
    {
      WellFormed(downloaded)
    }

    constructor(downloaded: Downloaded, groups: Option<string>)
      requires WellFormed(downloaded)
      ensures this.downloaded == downloaded && this.groups == groups && songIds == None
      ensures Valid()
    {
      this.downloaded := downloaded;
      this.groups := groups;
      songIds := None;
    }

    /** `hasGroup`. */
    function HasGroup(t: GroupType, id: string): (r: bool)
      reads `downloaded
      ensures r <==> id in downloaded.Get(t)
    {
      id in downloaded.Get(t)
    }

    /** `hasSong`: undefined before "init-offline". */
    function HasSong(id: string): (r: Option<bool>)
      reads `songIds
      ensures r.None? <==> songIds.None?
      ensures r.Some? ==> (r.value <==> id in songIds.value)
    {
      match songIds
      case None => None
      case Some(ids) => Some(id in ids)
    }

    /** `writeGroups`: the sets are written back as one string. */
    method WriteGroups()
      modifies `groups
      ensures groups == Some(Serialise(downloaded))
    {
      groups := Some(Serialise(downloaded));
    }

    /** `addDownloaded`: the id joins its type's set and the sets are written. */
    method AddDownloaded(t: GroupType, id: string)
      requires Valid()
      modifies `downloaded, `groups
      ensures downloaded == old(downloaded).With(t, SetAdd(old(downloaded).Get(t), id))
      ensures groups == Some(Serialise(downloaded))
      ensures Valid() && HasGroup(t, id)
      ensures forall u: GroupType :: u != t ==> downloaded.Get(u) == old(downloaded).Get(u)
    {
      downloaded := downloaded.With(t, SetAdd(downloaded.Get(t), id));
      WriteGroups();
    }

    /** `removeDownloaded`: an absent id changes nothing and writes nothing. */
    method RemoveDownloaded(t: GroupType, id: string)
      requires Valid()
      modifies `downloaded, `groups
      ensures old(id !in downloaded.Get(t)) ==> downloaded == old(downloaded) && groups == old(groups)
      ensures old(id in downloaded.Get(t)) ==>
                downloaded == old(downloaded).With(t, SetDelete(old(downloaded).Get(t), id))
                && groups == Some(Serialise(downloaded))
      ensures Valid() && !HasGroup(t, id)
      ensures forall u: GroupType :: u != t ==> downloaded.Get(u) == old(downloaded).Get(u)
    {
      if id !in downloaded.Get(t) {
        return;
      }
      downloaded := downloaded.With(t, SetDelete(downloaded.Get(t), id));
      WriteGroups();
    }

    /** The "init-offline" listener: a second call throws. */
    method InitOffline(initialSongIds: seq<string>) returns (r: Result<bool>)
      modifies `songIds
      ensures r.Err? <==> old(songIds).Some?
      ensures r.Err? ==> songIds == old(songIds)
      ensures r.Ok? ==> songIds == Some(set id | id in initialSongIds)
    {
      if songIds.Some? {
        return Err("\"init-offline\" called twice");
      }
      songIds := Some(set id | id in initialSongIds);
      return Ok(true);
    }

    /** The "download-complete" listener: it throws before "init-offline". */
    method DownloadComplete(songId: string) returns (r: Result<bool>)
      modifies `songIds
      ensures r.Err? <==> old(songIds).None?
      ensures r.Err? ==> songIds == old(songIds)
      ensures r.Ok? ==> songIds == Some(old(songIds).value + {songId})
    {
      if songIds.None? {
        return Err("\"download-complete\" emitted before \"init-offline\"");
      }
      songIds := Some(songIds.value + {songId});
      return Ok(true);
    }
  }

  /** `createDownloader`: the stored groups are read and parsed; a parse
      that throws rejects the whole creation. */
  method CreateDownloader(stored: Option<string>) returns (r: Result<Downloader>)
    ensures r.Err? <==> Parse(stored).Err?
    ensures r.Ok? ==> fresh(r.value) && r.value.Valid()
    ensures r.Ok? ==> r.value.downloaded == Parse(stored).value
    ensures r.Ok? ==> r.value.groups == Normalised(stored) && r.value.songIds.None?
  {
    var parsed := ParseStored(stored);
    match parsed {
      case Err(e) =>
        return Err(e);
      case Ok(d) =>
        var downloader := new Downloader(d, Normalised(stored));
        return Ok(downloader);
    }
  }

  /** Adding and then removing a download leaves the group not downloaded
      and the groups of other types as they were. */
  method AddThenRemove(downloader: Downloader, t: GroupType, id: string, other: GroupType)
    requires downloader.Valid() && other != t
    modifies downloader
    ensures downloader.Valid() && !downloader.HasGroup(t, id)
    ensures downloader.downloaded.Get(other) == old(downloader.downloaded.Get(other))
  {
    downloader.AddDownloaded(t, id);
    assert downloader.HasGroup(t, id);
    downloader.RemoveDownloaded(t, id);
  }
}
