/** Helpers shared by the web app and the cloud functions
    (shared/universal/utils.ts, and the copy in packages/shared/universal/utils.ts):
    the password rule, the path builder and the paths built with it, the
    album id codec, the escaping of Firestore keys, and the two small
    `undefined` helpers. */
module UniversalUtils {
  import opened Wrappers
  import opened Strings

  // ---------------------------------------------------------------------
  // isPasswordValid: /(?=.*\d)(?=.*[a-z])(?=.*[A-Z]).{8,}/.test(password)

  /** The characters `.` does not match in a JavaScript regular expression. */
  predicate IsLineTerminator(c: char) {
    c == '\n' || c == '\r' || c as int == 0x2028 || c as int == 0x2029
  }

  predicate IsDigit(c: char) { '0' <= c <= '9' }
  predicate IsLower(c: char) { 'a' <= c <= 'z' }
  predicate IsUpper(c: char) { 'A' <= c <= 'Z' }

  /** How many characters `.` can match from position `i` on. */
  function LineRun(p: string, i: nat): (k: nat)
    requires i <= |p|
    ensures i + k <= |p|
    ensures forall j :: i <= j < i + k ==> !IsLineTerminator(p[j])
    ensures i + k < |p| ==> IsLineTerminator(p[i + k])
    decreases |p| - i
  {
    if i < |p| && !IsLineTerminator(p[i]) then 1 + LineRun(p, i + 1) else 0
  }

  /** How many UTF-16 code units JavaScript stores for `c`: characters
      beyond the Basic Multilingual Plane take a surrogate pair. */
  function CodeUnits(c: char): (n: nat)
    ensures n == 1 || n == 2
    ensures n == 2 <==> c as int >= 0x10000
  {
    if c as int >= 0x10000 then 2 else 1
  }

  /** The `length` JavaScript gives `s`, which is what `.{8,}` counts
      (`.` without the `u` flag matches one code unit). */
  function Utf16Length(s: string): (n: nat)
    ensures n >= |s|
  {
    if s == [] then 0 else CodeUnits(s[0]) + Utf16Length(s[1..])
  }

  /** Inside the Basic Multilingual Plane a character is one code unit. */
  lemma {:induction false} Utf16Bmp(s: string)
    requires forall j :: 0 <= j < |s| ==> s[j] as int < 0x10000
    ensures Utf16Length(s) == |s|
  {
    if s != [] {
      assert forall j :: 0 <= j < |s| - 1 ==> s[1..][j] == s[j + 1];
      Utf16Bmp(s[1..]);
    }
  }

  lemma {:induction false} Utf16Append(a: string, b: string)
    ensures Utf16Length(a + b) == Utf16Length(a) + Utf16Length(b)
  {
    if a != [] {
      assert (a + b)[0] == a[0];
      assert (a + b)[1..] == a[1..] + b;
      Utf16Append(a[1..], b);
    } else {
      assert a + b == b;
    }
  }

  predicate HasDigit(s: string) { exists j :: 0 <= j < |s| && IsDigit(s[j]) }
  predicate HasLower(s: string) { exists j :: 0 <= j < |s| && IsLower(s[j]) }
  predicate HasUpper(s: string) { exists j :: 0 <= j < |s| && IsUpper(s[j]) }

  /** The rule read on one line: eight code units or more, among them a
      digit, a lower-case and an upper-case letter. */
  predicate MeetsRule(line: string)
  {
    Utf16Length(line) >= 8 && HasDigit(line) && HasLower(line) && HasUpper(line)
  }

  /** The pattern matches at position `i`: the three look-aheads find a
      digit, a lower-case and an upper-case letter before the end of the
      line, and `.{8,}` finds eight code units on it. Starting inside a
      surrogate pair would only shorten the line, so looking at character
      positions finds every match there is. */
  predicate MatchesAt(p: string, i: nat)
    requires i <= |p|
  {
    MeetsRule(p[i..i + LineRun(p, i)])
  }

  /** `isPasswordValid(password)`: `test` looks for a match anywhere. For a
      password without line breaks this is the stated rule: at least eight
      UTF-16 code units with a digit, a lower-case and an upper-case letter. */
  predicate IsPasswordValid(password: string)
    ensures (forall j :: 0 <= j < |password| ==> !IsLineTerminator(password[j])) ==>
              (IsPasswordValid(password) <==>
                 Utf16Length(password) >= 8 && HasDigit(password) && HasLower(password) && HasUpper(password))
  {
    PasswordOneLine(password);
    exists i: nat :: i <= |password| && MatchesAt(password, i)
  }

  lemma PasswordOneLine(p: string)
    ensures (forall j :: 0 <= j < |p| ==> !IsLineTerminator(p[j])) ==>
              ((exists i: nat :: i <= |p| && MatchesAt(p, i)) <==> MeetsRule(p))
  {
    if forall j :: 0 <= j < |p| ==> !IsLineTerminator(p[j]) {
      WholeLine(p);
      if exists i: nat :: i <= |p| && MatchesAt(p, i) {
        var i: nat :| i <= |p| && MatchesAt(p, i);
        MatchInLine(p, i);
      }
    }
  }

  /** Without line breaks the line read from the start is the whole string. */
  lemma WholeLine(p: string)
    requires forall j :: 0 <= j < |p| ==> !IsLineTerminator(p[j])
    ensures MatchesAt(p, 0) <==> MeetsRule(p)
  {
    assert LineRun(p, 0) == |p|;
    assert p[0..|p|] == p;
  }

  /** A match anywhere means the whole string has the three classes and at
      least eight code units. */
  lemma MatchInLine(p: string, i: nat)
    requires i <= |p| && MatchesAt(p, i)
    ensures MeetsRule(p)
  {
    RuleInSlice(p, i, i + LineRun(p, i));
  }

  lemma RuleInSlice(p: string, i: nat, j: nat)
    requires i <= j <= |p| && MeetsRule(p[i..j])
    ensures MeetsRule(p)
  {
    Utf16Slice(p, i, j);
    SuffixClasses(p, i, j - i);
  }

  lemma Utf16Slice(p: string, i: nat, j: nat)
    requires i <= j <= |p|
    ensures Utf16Length(p[i..j]) <= Utf16Length(p)
  {
    var q := p[..j];
    Utf16Split(p, j);
    Utf16Split(q, i);
    assert q[i..] == p[i..j];
  }

  lemma Utf16Split(p: string, i: nat)
    requires i <= |p|
    ensures Utf16Length(p) == Utf16Length(p[..i]) + Utf16Length(p[i..])
  {
    assert p == p[..i] + p[i..];
    Utf16Append(p[..i], p[i..]);
  }

  /** A character class found in a slice is found in the whole string. */
  lemma SuffixClasses(p: string, i: nat, k: nat)
    requires i + k <= |p|
    ensures HasDigit(p[i..i + k]) ==> HasDigit(p)
    ensures HasLower(p[i..i + k]) ==> HasLower(p)
    ensures HasUpper(p[i..i + k]) ==> HasUpper(p)
  {
    var s := p[i..i + k];
    if HasDigit(s) { var j :| 0 <= j < |s| && IsDigit(s[j]); assert p[i + j] == s[j]; }
    if HasLower(s) { var j :| 0 <= j < |s| && IsLower(s[j]); assert p[i + j] == s[j]; }
    if HasUpper(s) { var j :| 0 <= j < |s| && IsUpper(s[j]); assert p[i + j] == s[j]; }
  }

  /** The cases the sign-up endpoint is checked against. Seven characters
      are too few, although the comment above the rule says six suffice. */
  lemma PasswordExamples()
    ensures !IsPasswordValid("12345aA")
    ensures !IsPasswordValid("123456AA")
    ensures !IsPasswordValid("123456aa")
    ensures IsPasswordValid("123456aA")
  {
    SevenRejected();
    NoLowerRejected();
    NoUpperRejected();
    AllClassesAccepted();
  }

  lemma SevenRejected()
    ensures !IsPasswordValid("12345aA")
  {
    AsciiRule("12345aA");
  }

  lemma NoLowerRejected()
    ensures !IsPasswordValid("123456AA")
  {
    AsciiRule("123456AA");
    LowerAbsent("123456AA");
  }

  lemma NoUpperRejected()
    ensures !IsPasswordValid("123456aa")
  {
    AsciiRule("123456aa");
    UpperAbsent("123456", "aa");
    assert "123456" + "aa" == "123456aa";
  }

  lemma AllClassesAccepted()
    ensures IsPasswordValid("123456aA")
  {
    AsciiRule("123456aA");
    assert IsLower("123456aA"[6]) && IsUpper("123456aA"[7]) && IsDigit("123456aA"[0]);
  }

  /** Every character of `p` lies between `lo` and `hi`, checked one by one. */
  predicate AllWithin(p: string, lo: char, hi: char)
  {
    p == [] || (lo <= p[0] <= hi && AllWithin(p[1..], lo, hi))
  }

  lemma {:induction false} Within(p: string, lo: char, hi: char)
    requires AllWithin(p, lo, hi)
    ensures forall j :: 0 <= j < |p| ==> lo <= p[j] <= hi
  {
    if p != [] {
      Within(p[1..], lo, hi);
      assert forall j :: 1 <= j < |p| ==> p[j] == p[1..][j - 1];
    }
  }

  /** For passwords of digits and letters the code units are the characters. */
  lemma AsciiRule(p: string)
    requires AllWithin(p, '0', 'z')
    ensures IsPasswordValid(p) <==> |p| >= 8 && HasDigit(p) && HasLower(p) && HasUpper(p)
  {
    Within(p, '0', 'z');
    NoLineBreaks(p);
  }

  lemma LowerAbsent(p: string)
    requires AllWithin(p, '0', 'Z')
    ensures !HasLower(p)
  {
    Within(p, '0', 'Z');
  }

  /** Digits followed by lower-case letters hold no upper-case letter. */
  lemma UpperAbsent(digits: string, lower: string)
    requires AllWithin(digits, '0', '9') && AllWithin(lower, 'a', 'z')
    ensures !HasUpper(digits + lower)
  {
    Within(digits, '0', '9');
    Within(lower, 'a', 'z');
    var p := digits + lower;
    forall j | 0 <= j < |p| ensures !IsUpper(p[j]) {
      if j < |digits| { assert p[j] == digits[j]; } else { assert p[j] == lower[j - |digits|]; }
    }
  }

  /** `.{8,}` counts code units: three characters outside the Basic
      Multilingual Plane (an emoji, say) after "aA1" make nine of them, two
      make seven. */
  lemma SurrogatePairsCount(c: char)
    requires c as int >= 0x10000
    ensures IsPasswordValid("aA1" + [c, c, c])
    ensures !IsPasswordValid("aA1" + [c, c])
  {
    NineUnitsAccepted(c);
    SevenUnitsRejected(c);
  }

  lemma NineUnitsAccepted(c: char)
    requires c as int >= 0x10000
    ensures IsPasswordValid("aA1" + [c, c, c])
  {
    var p := "aA1" + [c, c, c];
    assert Utf16Length(p) == 9 by {
      Utf16Bmp("aA1");
      AstralRun(c);
      Utf16Append("aA1", [c, c, c]);
    }
    assert forall j :: 0 <= j < |p| ==> !IsLineTerminator(p[j]);
    assert IsLower(p[0]) && IsUpper(p[1]) && IsDigit(p[2]);
  }

  lemma SevenUnitsRejected(c: char)
    requires c as int >= 0x10000
    ensures !IsPasswordValid("aA1" + [c, c])
  {
    var q := "aA1" + [c, c];
    assert Utf16Length(q) == 7 by {
      Utf16Bmp("aA1");
      AstralRun(c);
      Utf16Append("aA1", [c, c]);
    }
    assert forall j :: 0 <= j < |q| ==> !IsLineTerminator(q[j]);
  }

  lemma AstralRun(c: char)
    requires c as int >= 0x10000
    ensures Utf16Length([c, c]) == 4 && Utf16Length([c, c, c]) == 6
  {
    assert [c][1..] == [];
    assert Utf16Length([c]) == 2;
    assert [c, c][1..] == [c];
    assert Utf16Length([c, c]) == 4;
    assert [c, c, c][1..] == [c, c];
  }

  lemma NoLineBreaks(p: string)
    requires forall j :: 0 <= j < |p| ==> '0' <= p[j] <= 'z'
    ensures forall j :: 0 <= j < |p| ==> !IsLineTerminator(p[j])
    ensures Utf16Length(p) == |p|
  {
    Utf16Bmp(p);
  }

  // ---------------------------------------------------------------------
  // createPath(parts).append(part) / .build()

  /** What `createPath(parts)` closes over. */
  datatype Path = Path(parts: seq<string>) {
    /** `append(part)`: a new path with one more part. */
    function Append(part: string): (r: Path)
      ensures r.parts == parts + [part]
    {
      Path(parts + [part])
    }

    /** `build()`: the parts joined with "/". */
    function Build(): string {
      Join(parts, "/")
    }
  }

  /** `createPath()`. */
  const EmptyPath := Path([])

  /** Appending a part adds "/" and the part to what was built before; on the
      empty path the part alone is built. */
  lemma {:induction false} BuildAppend(p: Path, part: string)
    ensures p.Append(part).Build() == if p.parts == [] then part else p.Build() + "/" + part
    decreases |p.parts|
  {
    var all := p.parts + [part];
    if |p.parts| == 1 {
      assert all == [p.parts[0], part] && all[1..] == [part];
      assert Join(all, "/") == p.parts[0] + "/" + Join([part], "/");
    } else if |p.parts| > 1 {
      var rest := Path(p.parts[1..]);
      BuildAppend(rest, part);
      assert all[1..] == rest.Append(part).parts;
      calc {
        p.Append(part).Build();
        p.parts[0] + "/" + Join(all[1..], "/");
        p.parts[0] + "/" + (rest.Build() + "/" + part);
        (p.parts[0] + "/" + rest.Build()) + "/" + part;
      }
    }
  }

  lemma EmptyBuild()
    ensures EmptyPath.Build() == ""
  {
  }

  /** A path built from three parts. */
  lemma BuildThree(a: string, b: string, c: string)
    ensures EmptyPath.Append(a).Append(b).Append(c).Build() == a + "/" + b + "/" + c
  {
    BuildAppend(EmptyPath, a);
    BuildAppend(EmptyPath.Append(a), b);
    BuildAppend(EmptyPath.Append(a).Append(b), c);
  }

  // ---------------------------------------------------------------------
  // clientStorage(storage, userId) and clientDb(userId)

  datatype ImageType = Jpg | Png

  function Extension(t: ImageType): string {
    match t
    case Jpg => "jpg"
    case Png => "png"
  }

  /** The thumbnail sizes `clientStorage(...).artworks(...)` offers. */
  datatype ThumbSize = Size32 | Size64 | Size128 | Size256

  function SizeText(s: ThumbSize): string {
    match s
    case Size32 => "32"
    case Size64 => "64"
    case Size128 => "128"
    case Size256 => "256"
  }

  /** The file names under an artwork's folder: `artwork.<type>` for
      `original()`, `thumb@<size>_artwork.<type>` for a thumbnail. */
  function ArtworkFileName(t: ImageType, size: Option<ThumbSize>): string {
    match size
    case None => "artwork." + Extension(t)
    case Some(sz) => "thumb@" + SizeText(sz) + "_artwork." + Extension(t)
  }

  /** `artworks(hash, type).original()` and `artworks(hash, type)[size]()`:
      the original and its thumbnails share the folder
      `<userId>/song_artwork/<hash>`. */
  function ArtworkPath(userId: string, hash: string, t: ImageType, size: Option<ThumbSize>): (r: string)
    ensures r == userId + "/song_artwork/" + hash + "/" + ArtworkFileName(t, size)
  {
    var file := ArtworkFileName(t, size);
    BuildFour(userId, "song_artwork", hash, file);
    EmptyPath.Append(userId).Append("song_artwork").Append(hash).Append(file).Build()
  }

  /** `song(songId, fileName)`. */
  function SongFilePath(userId: string, songId: string, fileName: string): (r: string)
    ensures r == userId + "/songs/" + songId + "/" + fileName
  {
    var p := EmptyPath.Append(userId).Append("songs").Append(songId).Append(fileName);
    BuildFour(userId, "songs", songId, fileName);
    p.Build()
  }

  lemma BuildFour(a: string, b: string, c: string, d: string)
    ensures EmptyPath.Append(a).Append(b).Append(c).Append(d).Build() == a + "/" + b + "/" + c + "/" + d
  {
    BuildThree(a, b, c);
    BuildAppend(EmptyPath.Append(a).Append(b).Append(c), d);
  }

  /** The Firestore document of a song: `clientDb(userId).song(songId)`. */
  function SongDocPath(userId: string, songId: string): (r: string)
    ensures r == "user_data/" + userId + "/songs/" + songId
  {
    BuildFour("user_data", userId, "songs", songId);
    EmptyPath.Append("user_data").Append(userId).Append("songs").Append(songId).Build()
  }

  /** The Firestore document of an album; the web app escapes the id first. */
  function AlbumDocPath(userId: string, albumId: string): (r: string)
    ensures r == "user_data/" + userId + "/albums/" + EncodeFirebase(albumId)
  {
    BuildFour("user_data", userId, "albums", EncodeFirebase(albumId));
    EmptyPath.Append("user_data").Append(userId).Append("albums").Append(EncodeFirebase(albumId)).Build()
  }

  // ---------------------------------------------------------------------
  // createAlbumId / getAlbumAttributes

  const AlbumIdDivider := "<<<<<<<"

  /** The fields an album id is made of. */
  datatype AlbumKey = AlbumKey(albumName: Option<string>, albumArtist: Option<string>, artist: Option<string>)

  /** `albumArtist ? albumArtist : artist ? artist : ""`: an empty string
      counts as missing. */
  function TruthyArtist(k: AlbumKey): (r: string)
    ensures k.albumArtist.Some? && k.albumArtist.value != "" ==> r == k.albumArtist.value
    ensures (k.albumArtist.None? || k.albumArtist.value == "") && k.artist.Some? ==> r == k.artist.value
    ensures (k.albumArtist.None? || k.albumArtist.value == "") && k.artist.None? ==> r == ""
  {
    if k.albumArtist.Some? && k.albumArtist.value != "" then k.albumArtist.value
    else if k.artist.Some? then k.artist.value
    else ""
  }

  /** `createAlbumId` of shared/universal/utils.ts. */
  function CreateAlbumId(k: AlbumKey): (r: string)
    ensures r == TruthyArtist(k) + AlbumIdDivider + k.albumName.GetOr("")
  {
    TruthyArtist(k) + AlbumIdDivider + k.albumName.GetOr("")
  }

  /** `albumArtist ?? artist ?? ""`: only a missing field falls through, an
      empty string is kept. */
  function NullishArtist(k: AlbumKey): (r: string)
    ensures k.albumArtist.Some? ==> r == k.albumArtist.value
    ensures k.albumArtist.None? ==> r == k.artist.GetOr("")
  {
    if k.albumArtist.Some? then k.albumArtist.value else k.artist.GetOr("")
  }

  /** `createAlbumId` of packages/shared/universal/utils.ts: the id starts
      with the `??` artist, ends with the album name (or ""), and holds the
      divider between them. */
  function CreateAlbumIdNullish(k: AlbumKey): (r: string)
    ensures var artist, name := NullishArtist(k), k.albumName.GetOr("");
      && |r| == |artist| + |AlbumIdDivider| + |name|
      && r[..|artist|] == artist
      && r[|artist|..|artist| + |AlbumIdDivider|] == AlbumIdDivider
      && r[|artist| + |AlbumIdDivider|..] == name
  {
    NullishArtist(k) + AlbumIdDivider + k.albumName.GetOr("")
  }

  /** The two versions differ exactly when the album artist is empty and an
      artist is known and not empty. */
  lemma AlbumIdVersionsDiffer(k: AlbumKey)
    ensures CreateAlbumId(k) != CreateAlbumIdNullish(k) <==>
              k.albumArtist == Some("") && k.artist.Some? && k.artist.value != ""
  {
    if k.albumArtist == Some("") && k.artist.Some? && k.artist.value != "" {
      assert |CreateAlbumId(k)| > |CreateAlbumIdNullish(k)|;
    } else {
      assert TruthyArtist(k) == NullishArtist(k);
    }
  }

  /** What `getAlbumAttributes` returns; `name` is `undefined` when the id
      holds no divider. */
  datatype AlbumAttributes = AlbumAttributes(albumArtist: string, name: Option<string>)

  /** `getAlbumAttributes(albumId)`: the first two pieces of
      `albumId.split(ALBUM_ID_DIVIDER)`. */
  function GetAlbumAttributes(albumId: string): (r: AlbumAttributes)
    ensures r.name.None? <==> !Contains(albumId, AlbumIdDivider)
    ensures !Contains(albumId, AlbumIdDivider) ==> r.albumArtist == albumId
  {
    var split := SplitOn(albumId, AlbumIdDivider);
    SplitOnSingle(albumId, AlbumIdDivider);
    AlbumAttributes(split[0], if |split| > 1 then Some(split[1]) else None)
  }

  lemma SplitOnSingle(s: string, d: string)
    requires |d| > 0
    ensures |SplitOn(s, d)| == 1 <==> !Contains(s, d)
    ensures !Contains(s, d) ==> SplitOn(s, d) == [s]
  {
  }

  /** The id splits back into its parts exactly when the divider first
      occurs right after the artist and not again inside the album name. */
  predicate SplitsCleanly(artist: string, name: string) {
    IndexOf(artist + AlbumIdDivider, AlbumIdDivider) == Some(|artist|) && !Contains(name, AlbumIdDivider)
  }

  /** Reading an album id back gives the artist it was made from and the
      album name, under the condition above. */
  lemma AlbumIdRoundTrip(k: AlbumKey)
    requires SplitsCleanly(TruthyArtist(k), k.albumName.GetOr(""))
    ensures GetAlbumAttributes(CreateAlbumId(k)) == AlbumAttributes(TruthyArtist(k), Some(k.albumName.GetOr("")))
  {
    SplitAtDivider(TruthyArtist(k), k.albumName.GetOr(""));
  }

  lemma AlbumIdRoundTripNullish(k: AlbumKey)
    requires SplitsCleanly(NullishArtist(k), k.albumName.GetOr(""))
    ensures GetAlbumAttributes(CreateAlbumIdNullish(k)) == AlbumAttributes(NullishArtist(k), Some(k.albumName.GetOr("")))
  {
    SplitAtDivider(NullishArtist(k), k.albumName.GetOr(""));
  }

  lemma SplitAtDivider(artist: string, name: string)
    requires SplitsCleanly(artist, name)
    ensures SplitOn(artist + AlbumIdDivider + name, AlbumIdDivider) == [artist, name]
  {
    var id := artist + AlbumIdDivider + name;
    var n := |artist|;
    assert OccursAt(id, AlbumIdDivider, n);
    forall j: nat | j < n ensures !OccursAt(id, AlbumIdDivider, j) {
      assert !OccursAt(artist + AlbumIdDivider, AlbumIdDivider, j);
      assert id[j..j + 7] == (artist + AlbumIdDivider)[j..j + 7];
    }
    IndexOfIs(id, AlbumIdDivider, n);
    assert id[..n] == artist;
    assert id[n + 7..] == name;
    SplitOnSingle(name, AlbumIdDivider);
  }

  /** The first place a pattern occurs is where `IndexOf` finds it. */
  lemma IndexOfIs(s: string, p: string, n: nat)
    requires OccursAt(s, p, n)
    requires forall j: nat :: j < n ==> !OccursAt(s, p, j)
    ensures IndexOf(s, p) == Some(n)
  {
    assert Contains(s, p);
    var r := IndexOf(s, p);
    assert !(r.value < n);
    assert !(r.value > n);
  }

  /** Keeping the divider out of both parts is not enough: an artist ending
      in "<" shifts the cut one place to the left. */
  lemma ArtistEndingInAngle()
    ensures var k := AlbumKey(Some("x"), Some("a<"), None);
      !Contains("a<", AlbumIdDivider) && !Contains("x", AlbumIdDivider) &&
      GetAlbumAttributes(CreateAlbumId(k)) == AlbumAttributes("a", Some("<x"))
  {
    var id := "a<" + AlbumIdDivider + "x";
    assert OccursAt(id, AlbumIdDivider, 1);
    assert id[0..7][0] == 'a';
    assert !OccursAt(id, AlbumIdDivider, 0);
    IndexOfIs(id, AlbumIdDivider, 1);
    assert id[8..] == "<x";
    assert !OccursAt("<x", AlbumIdDivider, 0);
    assert IndexOf("<x", AlbumIdDivider) == None;
    assert !OccursAt("a<", AlbumIdDivider, 0);
    assert !OccursAt("x", AlbumIdDivider, 0);
  }

  // ---------------------------------------------------------------------
  // encodeFirebase / decodeFirebase

  /** The characters Firestore keys must not hold, escaped by `create`. */
  const FirebaseChars := ".$[]#/%"

  function HexDigit(d: nat): char
    requires d < 16
  {
    "0123456789ABCDEF"[d]
  }

  /** `n.toString(16).toUpperCase()`. */
  function HexUpper(n: nat): (r: string)
    ensures |r| >= 1
    decreases n
  {
    if n < 16 then [HexDigit(n)] else HexUpper(n / 16) + [HexDigit(n % 16)]
  }

  /** `%${c.charCodeAt(0).toString(16).toUpperCase()}`. */
  function CharCode(c: char): string {
    "%" + HexUpper(c as nat)
  }

  /** The two lookup tables `create(chars)` fills: `charToCode` and its
      reverse `codeToChar`. */
  method Create(chars: seq<char>) returns (charToCode: map<char, string>, codeToChar: map<string, char>)
    ensures charToCode.Keys == set c | c in chars
    ensures forall c :: c in charToCode ==> charToCode[c] == CharCode(c)
    ensures codeToChar.Keys == set c | c in chars :: CharCode(c)
    ensures forall k :: k in codeToChar ==> codeToChar[k] in chars && CharCode(codeToChar[k]) == k
  {
    charToCode := map[];
    codeToChar := map[];
    for i := 0 to |chars|
      invariant charToCode.Keys == set c | c in chars[..i]
      invariant forall c :: c in charToCode ==> charToCode[c] == CharCode(c)
      invariant codeToChar.Keys == set c | c in chars[..i] :: CharCode(c)
      invariant forall k :: k in codeToChar ==> codeToChar[k] in chars && CharCode(codeToChar[k]) == k
    {
      assert chars[..i + 1] == chars[..i] + [chars[i]];
      charToCode := charToCode[chars[i] := CharCode(chars[i])];
      codeToChar := codeToChar[CharCode(chars[i]) := chars[i]];
    }
    assert chars[..|chars|] == chars;
  }

  /** The tables for `".$[]#/%"`, written out. */
  const CharToCode: map<char, string> :=
    map['.' := "%2E", '$' := "%24", '[' := "%5B", ']' := "%5D", '#' := "%23", '/' := "%2F", '%' := "%25"]

  const CodeToChar: map<string, char> :=
    map["%2E" := '.', "%24" := '$', "%5B" := '[', "%5D" := ']', "%23" := '#', "%2F" := '/', "%25" := '%']

  /** The written-out tables are the ones `create` computes. */
  lemma TablesComputed()
    ensures CharToCode.Keys == set c | c in FirebaseChars
    ensures forall c :: c in CharToCode ==> CharToCode[c] == CharCode(c)
    ensures CodeToChar.Keys == set c | c in FirebaseChars :: CharCode(c)
    ensures forall k :: k in CodeToChar ==> CodeToChar[k] in FirebaseChars && CharCode(CodeToChar[k]) == k
  {
    TableKeys();
    TableCodes();
  }

  lemma TableKeys()
    ensures (set c | c in FirebaseChars) == {'.', '$', '[', ']', '#', '/', '%'}
    ensures CharToCode.Keys == {'.', '$', '[', ']', '#', '/', '%'}
  {
  }

  lemma TableCodes()
    ensures forall c :: c in CharToCode ==> CharToCode[c] == CharCode(c)
    ensures CodeToChar.Keys == set c | c in FirebaseChars :: CharCode(c)
    ensures forall k :: k in CodeToChar ==> CodeToChar[k] in FirebaseChars && CharCode(CodeToChar[k]) == k
  {
    CharCodes();
    CodeKeys();
    CodeChars();
  }

  lemma CharCodes()
    ensures forall c :: c in CharToCode ==> CharToCode[c] == CharCode(c)
  {
    HexCodes();
    TableKeys();
  }

  lemma CodeKeys()
    ensures CodeToChar.Keys == set c | c in FirebaseChars :: CharCode(c)
  {
    HexCodes();
    TableKeys();
    assert CodeToChar.Keys == {"%2E", "%24", "%5B", "%5D", "%23", "%2F", "%25"};
  }

  lemma CodeChars()
    ensures forall k :: k in CodeToChar ==> CodeToChar[k] in FirebaseChars && CharCode(CodeToChar[k]) == k
  {
    HexCodes();
  }

  /** The codes of the escaped characters. */
  lemma HexCodes()
    ensures CharCode('.') == "%2E" && CharCode('$') == "%24" && CharCode('[') == "%5B" && CharCode(']') == "%5D"
    ensures CharCode('#') == "%23" && CharCode('/') == "%2F" && CharCode('%') == "%25"
  {
    assert CharCode('.') == "%2E" by { assert HexUpper(46) == HexUpper(2) + [HexDigit(14)]; }
    assert CharCode('$') == "%24" by { assert HexUpper(36) == HexUpper(2) + [HexDigit(4)]; }
    assert CharCode('[') == "%5B" by { assert HexUpper(91) == HexUpper(5) + [HexDigit(11)]; }
    assert CharCode(']') == "%5D" by { assert HexUpper(93) == HexUpper(5) + [HexDigit(13)]; }
    assert CharCode('#') == "%23" by { assert HexUpper(35) == HexUpper(2) + [HexDigit(3)]; }
    assert CharCode('/') == "%2F" by { assert HexUpper(47) == HexUpper(2) + [HexDigit(15)]; }
    assert CharCode('%') == "%25" by { assert HexUpper(37) == HexUpper(2) + [HexDigit(5)]; }
  }

  /** `str.replace(charsRegex, match => charToCode[match])`: every
      character that is a key of the table is replaced by its code. */
  function Encode(s: string, charToCode: map<char, string>): string {
    if |s| == 0 then ""
    else (if s[0] in charToCode then charToCode[s[0]] else [s[0]]) + Encode(s[1..], charToCode)
  }

  /** `str.replace(charCodesRegex, match => codeToChar[match])`, for codes
      of three characters: scanning left to right, a code is replaced and
      skipped over, any other character is kept. */
  function Decode(s: string, codeToChar: map<string, char>): string
    decreases |s|
  {
    if |s| == 0 then ""
    else if |s| >= 3 && s[..3] in codeToChar then [codeToChar[s[..3]]] + Decode(s[3..], codeToChar)
    else [s[0]] + Decode(s[1..], codeToChar)
  }

  /** `encodeFirebase(str)`: the key decodes back to `str` and holds none
      of the characters a Firebase key may not contain. */
  function EncodeFirebase(s: string): (r: string)
    ensures DecodeFirebase(r) == s
    ensures forall i :: 0 <= i < |r| ==> r[i] !in ".$[]#/"
  {
    EncodeDecode(s, CharToCode, CodeToChar);
    EncodeAvoids(s);
    Encode(s, CharToCode)
  }

  /** `decodeFirebase(str)`: never longer than `str`, and text without a
      "%" comes back as it is. */
  function DecodeFirebase(s: string): (r: string)
    ensures |r| <= |s|
    ensures '%' !in s ==> r == s
  {
    DecodePlain(s, CodeToChar);
    Decode(s, CodeToChar)
  }

  /** Decoding with codes that start with "%" only shortens the text, and
      leaves text without a "%" alone. */
  lemma {:induction false} DecodePlain(s: string, codeToChar: map<string, char>)
    requires forall k :: k in codeToChar ==> |k| == 3 && k[0] == '%'
    ensures |Decode(s, codeToChar)| <= |s|
    ensures '%' !in s ==> Decode(s, codeToChar) == s
    decreases |s|
  {
    if |s| > 0 {
      if |s| >= 3 && s[..3] in codeToChar {
        DecodePlain(s[3..], codeToChar);
        assert s[..3][0] == s[0];
      } else {
        DecodePlain(s[1..], codeToChar);
        assert '%' !in s ==> s == [s[0]] + s[1..];
      }
    }
  }

  /** Tables that undo each other, with three-character codes that start
      with an escaped "%", decode what they encode. */
  ghost predicate InverseTables(charToCode: map<char, string>, codeToChar: map<string, char>) {
    && '%' in charToCode
    && (forall c :: c in charToCode ==> |charToCode[c]| == 3 && charToCode[c][0] == '%')
    && (forall c :: c in charToCode ==> charToCode[c] in codeToChar && codeToChar[charToCode[c]] == c)
    && (forall k :: k in codeToChar ==> |k| > 0 && k[0] == '%')
  }

  lemma {:induction false} EncodeDecode(s: string, charToCode: map<char, string>, codeToChar: map<string, char>)
    requires InverseTables(charToCode, codeToChar)
    ensures Decode(Encode(s, charToCode), codeToChar) == s
    decreases |s|
  {
    if |s| > 0 {
      var rest := Encode(s[1..], charToCode);
      EncodeDecode(s[1..], charToCode, codeToChar);
      if s[0] in charToCode {
        var code := charToCode[s[0]];
        var e := code + rest;
        assert e[..3] == code && e[3..] == rest;
      } else {
        var e := [s[0]] + rest;
        assert e[1..] == rest;
        assert s[0] != '%';
        if |e| >= 3 {
          assert e[..3][0] == s[0];
        }
      }
    }
  }

  /** Encoding with the Firebase table leaves none of `. $ [ ] # /`. */
  lemma {:induction false} EncodeAvoids(s: string)
    ensures forall i :: 0 <= i < |Encode(s, CharToCode)| ==> Encode(s, CharToCode)[i] !in ".$[]#/"
    decreases |s|
  {
    if |s| > 0 {
      EncodeAvoids(s[1..]);
      var head := if s[0] in CharToCode then CharToCode[s[0]] else [s[0]];
      assert Encode(s, CharToCode) == head + Encode(s[1..], CharToCode);
      assert forall i :: 0 <= i < |head| ==> head[i] !in ".$[]#/";
    }
  }

  /** Encoding replaces each escaped character by its code and keeps the rest. */
  lemma EncodeChar(c: char)
    ensures EncodeFirebase([c]) == if c in FirebaseChars then CharCode(c) else [c]
  {
    TableKeys();
    TableCodes();
    assert [c][1..] == [];
    assert EncodeFirebase([c]) == (if c in CharToCode then CharToCode[c] else [c]) + Encode([], CharToCode);
  }

  // ---------------------------------------------------------------------
  // isDefined / removedUndefinedValues

  /** A JavaScript value that may be `undefined` or `null`. */
  datatype Nullable<T> = Undefined | Null | Defined(value: T)

  /** `isDefined(value)`. */
  predicate IsDefined<T>(v: Nullable<T>) {
    v != Null && v != Undefined
  }

  lemma IsDefinedExactly<T>(v: Nullable<T>)
    ensures IsDefined(v) <==> v.Defined?
  {
  }

  /** A plain object whose properties may hold `undefined` (`None`). */
  class JsObject<V> {
    var properties: map<string, Option<V>>

    constructor(properties: map<string, Option<V>>)
      ensures this.properties == properties
    {
      this.properties := properties;
    }
  }

  /** The properties that are not `undefined`. */
  function DefinedOnly<V>(m: map<string, Option<V>>): (r: map<string, Option<V>>)
    ensures forall k :: k in r <==> k in m && m[k].Some?
    ensures forall k :: k in r ==> r[k] == m[k]
  {
    map k | k in m && m[k].Some? :: m[k]
  }

  /** `removedUndefinedValues(obj)`: deletes, in place, every property
      holding `undefined`, and returns the same object. */
  method RemovedUndefinedValues<V>(obj: JsObject<V>) returns (r: JsObject<V>)
    modifies obj`properties
    ensures r == obj
    ensures obj.properties == DefinedOnly(old(obj.properties))
  {
    ghost var m0 := obj.properties;
    var names := obj.properties.Keys;
    while names != {}
      invariant names <= m0.Keys
      invariant forall k :: k in obj.properties <==> k in m0 && (k in names || m0[k].Some?)
      invariant forall k :: k in obj.properties ==> obj.properties[k] == m0[k]
      decreases |names|
    {
      var name :| name in names;
      if obj.properties[name].None? {
        obj.properties := obj.properties - {name};
      }
      names := names - {name};
    }
    r := obj;
  }
}
