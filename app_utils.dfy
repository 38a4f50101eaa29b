/** Small helpers of app/src/utils.ts (and their identical copies in
    packages/app/src/utils.ts): clamping, the "m:ss" duration format, the
    "song"/"songs" label and the lenient integer parse. */
module AppUtils {
  import opened Wrappers
  import opened Strings
  import opened JsNumber

  /** `clamp(value, min, max)` = `Math.max(min, Math.min(max, value))`. */
  function Clamp(value: real, lo: real, hi: real): (r: real)
    ensures r >= lo
    ensures lo <= hi ==> r <= hi
    ensures lo <= value <= hi ==> r == value
    ensures value < lo ==> r == lo
    ensures lo <= hi < value ==> r == hi
  {
    var inner := if hi < value then hi else value;
    if lo > inner then lo else inner
  }

  /** `fmtMSS(s)`: rounds `s`, then writes whole minutes, a colon and the
      seconds, with a `0` put in front of seconds below 10. The remainder
      `s %= 60` truncates, as JavaScript's `%` does. */
  function FmtMSS(s: real): (r: string)
    ensures ':' in r
    ensures Round(s) >= 0 ==>
      r == NatToString(Round(s) / 60) + [':', DigitChar(Round(s) % 60 / 10), DigitChar(Round(s) % 60 % 10)]
  {
    var whole := Round(s);
    if whole >= 0 then
      MinutesSecondsWhole(whole, whole / 60, whole % 60);
      MinutesSeconds(whole)
    else
      MinutesSeconds(whole)
  }

  /** `fmtMSS` once its argument is a whole number. */
  function MinutesSeconds(whole: int): string {
    var seconds := Rem(whole, 60);
    IntToString((whole - seconds) / 60) + (Separator(seconds) + IntToString(seconds))
  }

  /** The colon, and the `0` that pads seconds below 10. */
  function Separator(seconds: int): string {
    if 9 < seconds then ":" else ":0"
  }

  /** A whole, non-negative number of seconds `60 * minutes + seconds` is
      written as the minutes, a colon and the seconds as exactly two digits. */
  lemma FmtMSSWhole(total: nat, minutes: nat, seconds: nat)
    requires seconds < 60 && total == 60 * minutes + seconds
    ensures FmtMSS(total as real) == NatToString(minutes) + [':', DigitChar(seconds / 10), DigitChar(seconds % 10)]
  {
    MinutesSecondsWhole(total, minutes, seconds);
    RoundWhole(total);
  }

  lemma MinutesSecondsWhole(total: nat, minutes: nat, seconds: nat)
    requires seconds < 60 && total == 60 * minutes + seconds
    ensures MinutesSeconds(total) == NatToString(minutes) + [':', DigitChar(seconds / 10), DigitChar(seconds % 10)]
  {
    MinutesSecondsNat(total, minutes, seconds);
    TwoDigits(seconds);
  }

  lemma RoundWhole(w: int)
    ensures FmtMSS(w as real) == MinutesSeconds(w)
  {
    assert Round(w as real) == w;
  }

  lemma MinutesSecondsNat(w: nat, min: nat, sec: nat)
    requires sec < 60 && w == 60 * min + sec
    ensures MinutesSeconds(w) == NatToString(min) + (Separator(sec) + NatToString(sec))
  {
    assert Rem(w, 60) == sec;
    assert (w - sec) / 60 == min;
  }

  lemma TwoDigits(sec: nat)
    requires sec < 60
    ensures Separator(sec) + NatToString(sec) == [':', DigitChar(sec / 10), DigitChar(sec % 10)]
  {
    if sec >= 10 {
      assert NatToString(sec / 10) == [DigitChar(sec / 10)];
    }
  }

  /** Seconds are rounded before formatting. */
  lemma FmtMSSRounds(s: real)
    ensures FmtMSS(s) == FmtMSS(Round(s) as real)
  {
    var r := Round(s);
    assert Round(r as real) == r;
    assert FmtMSS(r as real) == MinutesSeconds(r);
  }

  /** A minute and five seconds. */
  lemma FmtMSSPadsSeconds()
    ensures FmtMSS(65.0) == "1:05"
  {
    assert Round(65.0) == 65;
    assert 65 / 60 == 1 && 65 % 60 == 5 && 5 / 10 == 0 && 5 % 10 == 5;
    assert NatToString(1) == "1";
    assert [':', DigitChar(0), DigitChar(5)] == ":05";
  }

  /** Half a second short of a minute rounds up to a full minute. */
  lemma FmtMSSRoundsUp()
    ensures FmtMSS(59.5) == "1:00"
  {
    assert Round(59.5) == 60;
    assert NatToString(1) == "1";
    assert [':', DigitChar(0), DigitChar(0)] == ":00";
  }

  /** `pluralSongs(count)`. */
  function PluralSongs(count: Option<int>): (r: string)
    ensures r == "song" <==> count == Some(1)
    ensures r != "song" ==> r == "songs"
  {
    if count == Some(1) then "song" else "songs"
  }

  /** `songsCount(count)`: the count (0 when `undefined`), a space and the label. */
  function SongsCount(count: Option<int>): (r: string)
    ensures Split(r, ' ') == [IntToString(count.GetOr(0)), PluralSongs(count)]
  {
    var n := IntToString(count.GetOr(0));
    NoSpaceInNumber(count.GetOr(0));
    SplitJoin([n, PluralSongs(count)], ' ');
    assert Join([n, PluralSongs(count)], [' ']) == n + " " + PluralSongs(count);
    n + " " + PluralSongs(count)
  }

  lemma NoSpaceInNumber(n: int)
    ensures ' ' !in IntToString(n)
  {
    var d := NatToString(if n < 0 then -n else n);
    assert forall k :: 0 <= k < |d| ==> d[k] != ' ';
    if n < 0 {
      assert IntToString(n) == "-" + d;
      assert forall k :: 0 <= k < |IntToString(n)| ==> IntToString(n)[k] != ' ';
    }
  }

  /** What `parseIntOr` returns: a number, or the caller's default. */
  datatype NumberOr<T> = Number(n: int) | Default(value: T)

  /** `parseIntOr(value, defaultValue)`: `parseInt` of the text, unless the
      text is `undefined` or the parse gives a falsy number (`NaN` or 0). */
  function ParseIntOr<T>(value: Option<string>, default: T): (r: NumberOr<T>)
    ensures value.None? ==> r == Default(default)
    ensures value.Some? && (ParseInt(value.value).None? || ParseInt(value.value) == Some(0)) ==> r == Default(default)
    ensures r.Number? ==> value.Some? && ParseInt(value.value) == Some(r.n) && r.n != 0
  {
    match value
    case None => Default(default)
    case Some(text) =>
      match ParseInt(text)
      case Some(parsed) => if parsed != 0 then Number(parsed) else Default(default)
      case None => Default(default)
  }

  /** Written integers read back, except 0, which is falsy. */
  lemma ParseIntOrRoundTrip<T>(n: int, default: T)
    ensures ParseIntOr(Some(IntToString(n)), default) == if n == 0 then Default(default) else Number(n)
  {
    ParseIntToString(n);
  }
}
