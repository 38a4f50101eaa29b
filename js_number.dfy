/** The parts of JavaScript's number semantics the application relies on:
    `Math.round`, the truncating `%` operator and `parseInt` without a radix.
    Numbers are exact (`int` or `real`); the 53-bit precision of doubles is
    not modelled. */
module JsNumber {
  import opened Wrappers
  import opened Strings

  /** `Math.round(x)`: the nearest integer, halves rounded up. */
  function Round(x: real): (r: int)
    ensures r as real - 0.5 <= x < r as real + 0.5
  {
    (x + 0.5).Floor
  }

  /** `a % b` for a positive `b`: the remainder takes the sign of `a`. */
  function Rem(a: int, b: int): (r: int)
    requires b > 0
    ensures a >= 0 ==> 0 <= r < b && r == a % b
    ensures a < 0 ==> -b < r <= 0 && r == -((-a) % b)
  {
    if a >= 0 then a % b else -((-a) % b)
  }

  /** The white space and line terminators `parseInt` skips before a number. */
  predicate IsJsSpace(c: char) {
    var k := c as int;
    || 0x09 <= k <= 0x0D || k == 0x20 || k == 0xA0 || k == 0x1680
    || 0x2000 <= k <= 0x200A || k == 0x2028 || k == 0x2029 || k == 0x202F
    || k == 0x205F || k == 0x3000 || k == 0xFEFF
  }

  function TrimStart(s: string): (r: string)
    ensures |r| <= |s| && r == s[|s| - |r|..]
    ensures |r| > 0 ==> !IsJsSpace(r[0])
    ensures forall i :: 0 <= i < |s| - |r| ==> IsJsSpace(s[i])
  {
    if |s| > 0 && IsJsSpace(s[0]) then TrimStart(s[1..]) else s
  }

  /** The value of `c` as a digit in base `radix` (10 or 16), if it is one. */
  function DigitValue(c: char, radix: nat): (r: Option<nat>)
    ensures r.Some? ==> r.value < radix
  {
    if '0' <= c <= '9' && (c as int - '0' as int) < radix then Some(c as int - '0' as int)
    else if radix == 16 && 'a' <= c <= 'f' then Some(c as int - 'a' as int + 10)
    else if radix == 16 && 'A' <= c <= 'F' then Some(c as int - 'A' as int + 10)
    else None
  }

  /** Length of the longest prefix of `s` made of digits. */
  function LeadingDigits(s: string, radix: nat): (k: nat)
    ensures k <= |s|
    ensures forall i :: 0 <= i < k ==> DigitValue(s[i], radix).Some?
    ensures k < |s| ==> DigitValue(s[k], radix).None?
  {
    if |s| > 0 && DigitValue(s[0], radix).Some? then 1 + LeadingDigits(s[1..], radix) else 0
  }

  /** The number a string of digits denotes, most significant first. */
  function DigitsValue(ds: string, radix: nat): nat
    requires forall i :: 0 <= i < |ds| ==> DigitValue(ds[i], radix).Some?
  {
    if |ds| == 0 then 0
    else DigitsValue(ds[..|ds| - 1], radix) * radix + DigitValue(ds[|ds| - 1], radix).value
  }

  /** The run of digits at the start of `v`, if there is one. */
  function ParseDigitRun(v: string, radix: nat): Option<nat> {
    var k := LeadingDigits(v, radix);
    if k == 0 then None else Some(DigitsValue(v[..k], radix))
  }

  /** The unsigned part of `parseInt`: a `0x`/`0X` prefix selects base 16. */
  function ParseUnsigned(u: string): Option<nat> {
    if |u| >= 2 && u[0] == '0' && (u[1] == 'x' || u[1] == 'X') then ParseDigitRun(u[2..], 16)
    else ParseDigitRun(u, 10)
  }

  /** `parseInt(s)`: leading white space, an optional sign, then the unsigned
      part; `None` stands for `NaN`, returned when there is no digit. Blank
      text and text whose first other character is neither a sign nor a digit
      give `NaN`; a leading non-zero digit always gives a number; only a
      minus sign gives a negative one. */
  function ParseInt(s: string): (r: Option<int>)
    ensures var t := TrimStart(s);
      |t| == 0 || (t[0] != '+' && t[0] != '-' && !('0' <= t[0] <= '9')) ==> r.None?
    ensures var t := TrimStart(s);
      |t| > 0 && '1' <= t[0] <= '9' ==> r.Some? && r.value >= 0
    ensures var t := TrimStart(s);
      r.Some? && r.value < 0 ==> |t| > 0 && t[0] == '-'
  {
    var t := TrimStart(s);
    UnsignedStart(t);
    if |t| > 0 && t[0] == '-' then
      match ParseUnsigned(t[1..])
      case None => None
      case Some(m) => Some(-(m as int))
    else if |t| > 0 && t[0] == '+' then
      match ParseUnsigned(t[1..])
      case None => None
      case Some(m) => Some(m)
    else
      match ParseUnsigned(t)
      case None => None
      case Some(m) => Some(m)
  }

  /** The unsigned part reads nothing unless it starts with a digit, and
      always reads a number after a non-zero digit. */
  lemma UnsignedStart(u: string)
    ensures |u| == 0 || !('0' <= u[0] <= '9') ==> ParseUnsigned(u).None?
    ensures |u| > 0 && '1' <= u[0] <= '9' ==> ParseUnsigned(u).Some?
  {
    if |u| > 0 {
      assert '0' <= u[0] <= '9' <==> DigitValue(u[0], 10).Some?;
    }
  }

  /** The decimal digits `String(n)` writes denote `n`. */
  lemma {:induction false} DecimalDigits(n: nat)
    ensures forall i :: 0 <= i < |NatToString(n)| ==> DigitValue(NatToString(n)[i], 10).Some?
    ensures DigitsValue(NatToString(n), 10) == n
    decreases n
  {
    AllDecimal(NatToString(n));
    if n >= 10 {
      DecimalDigits(n / 10);
      LastDigit(n);
    }
  }

  lemma LastDigit(n: nat)
    requires n >= 10
    requires forall i :: 0 <= i < |NatToString(n)| ==> DigitValue(NatToString(n)[i], 10).Some?
    ensures var s := NatToString(n);
      s[..|s| - 1] == NatToString(n / 10) && DigitValue(s[|s| - 1], 10) == Some(n % 10)
  {
  }

  lemma AllDecimal(s: string)
    requires forall i :: 0 <= i < |s| ==> '0' <= s[i] <= '9'
    ensures forall i :: 0 <= i < |s| ==> DigitValue(s[i], 10) == Some(s[i] as int - '0' as int)
  {
  }

  lemma {:induction false} LeadingDigitsAll(s: string, radix: nat)
    requires forall i :: 0 <= i < |s| ==> DigitValue(s[i], radix).Some?
    ensures LeadingDigits(s, radix) == |s|
  {
    if |s| > 0 {
      LeadingDigitsAll(s[1..], radix);
    }
  }

  /** `parseInt` reads back what `String(n)` writes for an integer. */
  lemma ParseIntToString(n: int)
    ensures ParseInt(IntToString(n)) == Some(n)
  {
    var m := if n < 0 then -n else n;
    var d := NatToString(m);
    UnsignedDecimal(m);
    if n < 0 {
      ParseNegative(d, m);
    } else {
      ParseNonNegative(d, m);
    }
  }

  /** The unsigned part reads back the digits `String(m)` writes. */
  lemma UnsignedDecimal(m: nat)
    ensures ParseUnsigned(NatToString(m)) == Some(m)
  {
    var d := NatToString(m);
    DecimalDigits(m);
    LeadingDigitsAll(d, 10);
    DecimalRun(d, m);
  }

  lemma DecimalRun(d: string, m: nat)
    requires |d| >= 1 && forall i :: 0 <= i < |d| ==> '0' <= d[i] <= '9'
    requires forall i :: 0 <= i < |d| ==> DigitValue(d[i], 10).Some?
    requires LeadingDigits(d, 10) == |d| && DigitsValue(d, 10) == m
    ensures ParseUnsigned(d) == Some(m)
  {
    assert d[..|d|] == d;
    assert ParseDigitRun(d, 10) == Some(m);
    assert !(|d| >= 2 && d[0] == '0' && (d[1] == 'x' || d[1] == 'X'));
  }

  lemma ParseNonNegative(d: string, m: nat)
    requires |d| >= 1 && '0' <= d[0] <= '9' && ParseUnsigned(d) == Some(m)
    ensures ParseInt(d) == Some(m)
  {
    assert !IsJsSpace(d[0]);
    assert TrimStart(d) == d;
  }

  lemma ParseNegative(d: string, m: nat)
    requires |d| >= 1 && '0' <= d[0] <= '9' && ParseUnsigned(d) == Some(m)
    ensures ParseInt("-" + d) == Some(-(m as int))
  {
    var s := "-" + d;
    assert !IsJsSpace(s[0]);
    assert TrimStart(s) == s;
    assert s[1..] == d;
  }
}
