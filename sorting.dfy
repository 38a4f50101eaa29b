/** `Array.prototype.sort(compare)`, which JavaScript requires to be stable,
    modelled as a stable insertion sort, and a code-point comparison of
    strings standing in for `localeCompare`. */
module Sorting {

  /** `xs` is ordered by `cmp`: no element compares above a later one. */
  ghost predicate SortedBy<T>(xs: seq<T>, cmp: (T, T) -> int) {
    forall i, j :: 0 <= i < j < |xs| ==> cmp(xs[i], xs[j]) <= 0
  }

  /** `cmp` is a total preorder on the values in `s`, which is what a sort
      needs of its comparison function. */
  ghost predicate PreorderOn<T(!new)>(cmp: (T, T) -> int, s: set<T>) {
    && (forall a, b :: a in s && b in s ==> cmp(a, b) <= 0 || cmp(b, a) <= 0)
    && (forall a, b, c :: a in s && b in s && c in s && cmp(a, b) <= 0 && cmp(b, c) <= 0 ==> cmp(a, c) <= 0)
  }

  /** Puts `x` after every element of `ys` that does not compare above it,
      up to the first that does. */
  function Insert<T(!new)>(x: T, ys: seq<T>, cmp: (T, T) -> int): (r: seq<T>)
    ensures multiset(r) == multiset(ys) + multiset{x}
    ensures forall z :: z in r <==> z in ys || z == x
    ensures |r| == |ys| + 1
  {
    if ys == [] then [x]
    else
      assert ys == [ys[0]] + ys[1..];
      if cmp(ys[0], x) <= 0 then [ys[0]] + Insert(x, ys[1..], cmp) else [x] + ys
  }

  /** The sorted copy: each element in input order is inserted behind the
      ones before it that compare equal, which keeps the sort stable. */
  function SortBy<T(!new)>(xs: seq<T>, cmp: (T, T) -> int): (r: seq<T>)
    ensures multiset(r) == multiset(xs)
    ensures |r| == |xs|
  {
    if xs == [] then []
    else
      assert xs == xs[..|xs| - 1] + [xs[|xs| - 1]];
      Insert(xs[|xs| - 1], SortBy(xs[..|xs| - 1], cmp), cmp)
  }

  lemma {:induction false} InsertSorted<T(!new)>(x: T, ys: seq<T>, cmp: (T, T) -> int, s: set<T>)
    requires PreorderOn(cmp, s) && x in s && (forall y :: y in ys ==> y in s)
    requires SortedBy(ys, cmp)
    ensures SortedBy(Insert(x, ys, cmp), cmp)
    decreases |ys|
  {
    if ys != [] {
      if cmp(ys[0], x) <= 0 {
        InsertSorted(x, ys[1..], cmp, s);
        SortedHead(ys, cmp);
        var r := Insert(x, ys[1..], cmp);
        assert forall k :: 0 <= k < |r| ==> r[k] in r;
        ConsSorted(ys[0], r, cmp);
      } else {
        AboveHead(x, ys, cmp, s);
        ConsSorted(x, ys, cmp);
      }
    }
  }

  /** An element that compares below the head of an ordered list compares
      below all of it. */
  lemma AboveHead<T(!new)>(x: T, ys: seq<T>, cmp: (T, T) -> int, s: set<T>)
    requires PreorderOn(cmp, s) && x in s && (forall y :: y in ys ==> y in s)
    requires ys != [] && SortedBy(ys, cmp) && cmp(ys[0], x) > 0
    ensures forall k :: 0 <= k < |ys| ==> cmp(x, ys[k]) <= 0
  {
    assert ys[0] in s;
    forall k | 0 < k < |ys| ensures cmp(x, ys[k]) <= 0 {
      assert ys[k] in s && cmp(ys[0], ys[k]) <= 0;
    }
  }

  lemma ConsSorted<T>(h: T, r: seq<T>, cmp: (T, T) -> int)
    requires SortedBy(r, cmp) && forall k :: 0 <= k < |r| ==> cmp(h, r[k]) <= 0
    ensures SortedBy([h] + r, cmp)
  {
    var hr := [h] + r;
    forall i, j | 0 <= i < j < |hr| ensures cmp(hr[i], hr[j]) <= 0 {
      assert hr[j] == r[j - 1];
      if i > 0 {
        assert hr[i] == r[i - 1];
      }
    }
  }

  lemma SortedHead<T>(ys: seq<T>, cmp: (T, T) -> int)
    requires ys != [] && SortedBy(ys, cmp)
    ensures forall y :: y in ys[1..] ==> cmp(ys[0], y) <= 0
  {
    forall y | y in ys[1..] ensures cmp(ys[0], y) <= 0 {
      var m :| 0 <= m < |ys[1..]| && ys[1..][m] == y;
      assert ys[1 + m] == y;
    }
  }

  /** Sorting with a total preorder gives an ordered list. */
  lemma {:induction false} SortSorted<T(!new)>(xs: seq<T>, cmp: (T, T) -> int)
    requires PreorderOn(cmp, set x | x in xs)
    ensures SortedBy(SortBy(xs, cmp), cmp)
    decreases |xs|
  {
    if xs != [] {
      var init := xs[..|xs| - 1];
      var s := set x | x in xs;
      assert PreorderOn(cmp, set x | x in init) by {
        assert forall y :: y in init ==> y in xs;
      }
      SortSorted(init, cmp);
      var sorted := SortBy(init, cmp);
      forall y | y in sorted ensures y in s {
        assert y in multiset(init);
      }
      InsertSorted(xs[|xs| - 1], sorted, cmp, s);
    }
  }

  /** Ordering by a whole-number key, largest first: the comparison
      `(a, b) => key(b) - key(a)`. */
  function Descending<T>(key: T -> int): (T, T) -> int {
    (a, b) => key(b) - key(a)
  }

  /** Sorting by `Descending(key)` lists the keys from largest to smallest. */
  lemma SortDescending<T(!new)>(xs: seq<T>, key: T -> int, r: seq<T>)
    requires r == SortBy(xs, Descending(key))
    ensures forall i, j :: 0 <= i < j < |r| ==> key(r[i]) >= key(r[j])
  {
    SortSorted(xs, Descending(key));
  }

  /** `a.localeCompare(b)` on code points: negative, zero or positive as `a`
      comes before, equals or comes after `b` in dictionary order. */
  function CompareStrings(a: string, b: string): (r: int)
    ensures r == 0 <==> a == b
    ensures -1 <= r <= 1
  {
    if a == [] && b == [] then 0
    else if a == [] then -1
    else if b == [] then 1
    else if a[0] < b[0] then -1
    else if a[0] > b[0] then 1
    else CompareStrings(a[1..], b[1..])
  }

  lemma {:induction false} CompareFlips(a: string, b: string)
    ensures CompareStrings(a, b) == -CompareStrings(b, a)
    decreases |a|
  {
    if a != [] && b != [] && a[0] == b[0] {
      CompareFlips(a[1..], b[1..]);
    }
  }

  lemma {:induction false} CompareTransitive(a: string, b: string, c: string)
    requires CompareStrings(a, b) <= 0 && CompareStrings(b, c) <= 0
    ensures CompareStrings(a, c) <= 0
    decreases |a|
  {
    if a != [] && b != [] && c != [] && a[0] == b[0] && b[0] == c[0] {
      CompareTransitive(a[1..], b[1..], c[1..]);
    }
  }
}
