/** The JavaScript string operations the application relies on, restated over
    `seq<char>`: `split` on one character or on a longer separator, `join`,
    `indexOf`, `replace` of the first occurrence, `slice` with its negative
    indices, number-to-string conversion and ASCII lower-casing. */
module Strings {
  import opened Wrappers

  /** `p` occurs in `s` starting at position `i`. */
  predicate OccursAt(s: string, p: string, i: nat) {
    i + |p| <= |s| && s[i..i + |p|] == p
  }

  predicate Contains(s: string, p: string) {
    exists i: nat :: i <= |s| && OccursAt(s, p, i)
  }

  /** `s.indexOf(p, from)`: the first occurrence at or after `from`. */
  function IndexOfFrom(s: string, p: string, from: nat): (r: Option<nat>)
    requires from <= |s|
    decreases |s| - from
    ensures r.Some? ==> from <= r.value <= |s| && OccursAt(s, p, r.value)
    ensures r.Some? ==> forall j: nat :: from <= j < r.value ==> !OccursAt(s, p, j)
    ensures r.None? ==> forall j: nat :: from <= j <= |s| ==> !OccursAt(s, p, j)
  {
    if OccursAt(s, p, from) then Some(from)
    else if from == |s| then None
    else IndexOfFrom(s, p, from + 1)
  }

  function IndexOf(s: string, p: string): (r: Option<nat>)
    ensures r.Some? ==> r.value <= |s| && OccursAt(s, p, r.value)
    ensures r.Some? ==> forall j: nat :: j < r.value ==> !OccursAt(s, p, j)
    ensures r.None? <==> !Contains(s, p)
  {
    IndexOfFrom(s, p, 0)
  }

  /** The replacement text `replace` inserts for the value `v` (GetSubstitution
      in section 22.1.3.19.1 of ECMA-262, with no capture groups): `$$`
      gives `$`, `$&` the matched text, `` $` `` the text before the match,
      `$'` the text after it; any other `$` stays as it is. */
  function Expand(v: string, before: string, matched: string, after: string): (r: string)
    ensures '$' !in v ==> r == v
    decreases |v|
  {
    if |v| == 0 then ""
    else if v[0] == '$' && |v| >= 2 && v[1] == '$' then "$" + Expand(v[2..], before, matched, after)
    else if v[0] == '$' && |v| >= 2 && v[1] == '&' then matched + Expand(v[2..], before, matched, after)
    else if v[0] == '$' && |v| >= 2 && v[1] == '`' then before + Expand(v[2..], before, matched, after)
    else if v[0] == '$' && |v| >= 2 && v[1] == '\'' then after + Expand(v[2..], before, matched, after)
    else [v[0]] + Expand(v[1..], before, matched, after)
  }

  /** Every character of the expansion comes from the value or from the
      text around and in the match. */
  lemma {:induction false} ExpandAvoids(v: string, before: string, matched: string, after: string, c: char)
    requires c !in v && c !in before && c !in matched && c !in after
    ensures c !in Expand(v, before, matched, after)
    decreases |v|
  {
    if |v| >= 2 {
      assert c !in v[2..] && c !in v[1..];
      ExpandAvoids(v[2..], before, matched, after, c);
      ExpandAvoids(v[1..], before, matched, after, c);
    } else if |v| == 1 {
      assert c !in v[1..];
      ExpandAvoids(v[1..], before, matched, after, c);
    }
  }

  /** `s.replace(p, v)` with a string pattern: only the first occurrence is
      replaced, by the expansion of `v`. */
  function ReplaceFirst(s: string, p: string, v: string): (r: string)
    ensures !Contains(s, p) ==> r == s
  {
    match IndexOf(s, p)
    case None => s
    case Some(i) => s[..i] + Expand(v, s[..i], p, s[i + |p|..]) + s[i + |p|..]
  }

  /** The occurrence `replace` rewrites is the first one. */
  lemma ReplaceFirstAt(s: string, p: string, v: string, i: nat)
    requires i <= |s| && OccursAt(s, p, i)
    requires forall j: nat :: j < i ==> !OccursAt(s, p, j)
    ensures ReplaceFirst(s, p, v) == s[..i] + Expand(v, s[..i], p, s[i + |p|..]) + s[i + |p|..]
  {
    assert Contains(s, p);
  }

  /** `s.split(c)` for a one-character separator. */
  function Split(s: string, c: char): (r: seq<string>)
    ensures |r| >= 1
  {
    if |s| == 0 then [""]
    else
      var rest := Split(s[1..], c);
      if s[0] == c then [""] + rest else [[s[0]] + rest[0]] + rest[1..]
  }

  /** `parts.join(sep)`. */
  function Join(parts: seq<string>, sep: string): string {
    if |parts| == 0 then ""
    else if |parts| == 1 then parts[0]
    else parts[0] + sep + Join(parts[1..], sep)
  }

  /** `s.split(d)` for a separator of one or more characters: the leftmost
      occurrence is cut first and the search resumes after it. */
  function SplitOn(s: string, d: string): (r: seq<string>)
    requires |d| > 0
    ensures |r| >= 1
    decreases |s|
  {
    match IndexOf(s, d)
    case None => [s]
    case Some(i) => [s[..i]] + SplitOn(s[i + |d|..], d)
  }

  lemma {:induction false} SplitNoSeparator(a: string, t: string, c: char)
    requires c !in a
    ensures Split(a + t, c) == [a + Split(t, c)[0]] + Split(t, c)[1..]
    decreases |a|
  {
    if |a| > 0 {
      assert (a + t)[1..] == a[1..] + t;
      SplitNoSeparator(a[1..], t, c);
      assert [a[0]] + (a[1..] + Split(t, c)[0]) == a + Split(t, c)[0];
    } else {
      assert a + t == t;
      var r := Split(t, c);
      assert a + r[0] == r[0];
      assert [r[0]] + r[1..] == r;
    }
  }

  /** Splitting a joined list gives the list back when no part holds the separator. */
  lemma {:induction false} SplitJoin(parts: seq<string>, c: char)
    requires |parts| >= 1
    requires forall k :: 0 <= k < |parts| ==> c !in parts[k]
    ensures Split(Join(parts, [c]), c) == parts
    decreases |parts|
  {
    if |parts| == 1 {
      SplitNoSeparator(parts[0], "", c);
      assert parts[0] + "" == parts[0];
    } else {
      var rest := Join(parts[1..], [c]);
      SplitJoin(parts[1..], c);
      assert parts[0] + [c] + rest == parts[0] + ([c] + rest);
      SplitNoSeparator(parts[0], [c] + rest, c);
      assert ([c] + rest)[1..] == rest;
      assert Split([c] + rest, c) == [""] + parts[1..];
      assert parts[0] + "" == parts[0];
      assert [parts[0]] + parts[1..] == parts;
    }
  }

  function DigitChar(d: nat): char
    requires d < 10
  {
    "0123456789"[d]
  }

  /** Decimal digits of a natural number, as `String(n)` writes them. */
  function NatToString(n: nat): (r: string)
    ensures |r| >= 1
    ensures forall k :: 0 <= k < |r| ==> '0' <= r[k] <= '9'
    decreases n
  {
    if n < 10 then [DigitChar(n)] else NatToString(n / 10) + [DigitChar(n % 10)]
  }

  function IntToString(n: int): string {
    if n < 0 then "-" + NatToString(-n) else NatToString(n)
  }

  function LowerAscii(c: char): (r: char)
    ensures 'A' <= c <= 'Z' ==> 'a' <= r <= 'z'
    ensures !('A' <= c <= 'Z') ==> r == c
  {
    if 'A' <= c <= 'Z' then (c as int + 32) as char else c
  }

  /** The index `Array.prototype.slice` uses for a start or end argument:
      a negative index counts from the end, and the result is clamped. */
  function SliceIndex(k: int, len: nat): (r: nat)
    ensures r <= len
    ensures 0 <= k <= len ==> r == k
  {
    if k < 0 then (if len + k < 0 then 0 else len + k)
    else if k > len then len
    else k
  }

  /** `xs.slice(start, end)`. */
  function JsSlice<T>(xs: seq<T>, start: int, end: int): (r: seq<T>)
    ensures 0 <= start <= end <= |xs| ==> r == xs[start..end]
  {
    var a := SliceIndex(start, |xs|);
    var b := SliceIndex(end, |xs|);
    if a <= b then xs[a..b] else []
  }
}
