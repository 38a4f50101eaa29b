/** Shuffling a list while remembering where every element went
    (`shuffleArray`, `reverseMapping`, `removeElementFromShuffled` in
    app/src/utils.ts, and the older `shuffleArray` of packages/app/src/utils.ts).

    A JavaScript `Record<number, number>` is a `map<nat, nat>`. `mappingFrom`
    maps a shuffled position to the original position, `mappingTo` the other
    way. `Math.random()` is replaced by an oracle `rand`: the k-th draw is the
    index `rand[k]`, which must lie below the `currentIndex` of that turn. */
module Shuffle {
  import opened Wrappers

  datatype ShuffleResult<T> = ShuffleResult(shuffled: seq<T>, mappingTo: map<nat, nat>, mappingFrom: map<nat, nat>)

  /** `m[i] ?? i`: an index not yet written stands for itself. */
  function At(m: map<nat, nat>, i: nat): nat {
    if i in m then m[i] else i
  }

  /** `m` is a bijection of `[0, n)` onto itself. */
  ghost predicate IsPermutationMap(m: map<nat, nat>, n: nat) {
    && (forall i: nat :: i in m <==> i < n)
    && (forall i :: i in m ==> m[i] < n)
    && (forall j: nat :: j < n ==> j in m.Values)
    && (forall i, j :: i in m && j in m && i != j ==> m[i] != m[j])
  }

  /** `to` and `from` are inverse bijections of `[0, n)`. */
  ghost predicate AreInverse(to: map<nat, nat>, from: map<nat, nat>, n: nat) {
    && (forall i: nat :: i in to <==> i < n)
    && (forall j: nat :: j in from <==> j < n)
    && (forall i :: i in to ==> to[i] in from && from[to[i]] == i)
    && (forall j :: j in from ==> from[j] in to && to[from[j]] == j)
  }

  /** Two inverse maps on `[0, n)` are both bijections of `[0, n)`. */
  lemma InverseArePermutations(to: map<nat, nat>, from: map<nat, nat>, n: nat)
    requires AreInverse(to, from, n)
    ensures IsPermutationMap(to, n) && IsPermutationMap(from, n)
  {
    forall j: nat | j < n ensures j in to.Values && j in from.Values {
      assert to[from[j]] == j;
      assert from[to[j]] == j;
    }
  }

  /** The invariant the tests state: `shuffled[mappingTo[i]] == xs[i]` and
      `shuffled[i] == xs[mappingFrom[i]]` for every index. */
  ghost predicate Consistent<T>(xs: seq<T>, r: ShuffleResult<T>) {
    && |r.shuffled| == |xs|
    && AreInverse(r.mappingTo, r.mappingFrom, |xs|)
    && (forall i :: 0 <= i < |xs| ==> r.shuffled[r.mappingTo[i]] == xs[i])
    && (forall i :: 0 <= i < |xs| ==> r.shuffled[i] == xs[r.mappingFrom[i]])
  }

  /** `reverse` is what `reverseMapping(m)` builds: every value of `m` becomes a
      key, mapped to a key of `m` holding it; as keys are visited in ascending
      order, a value held by several keys ends up with the largest of them. */
  ghost predicate IsReverse(reverse: map<nat, nat>, m: map<nat, nat>) {
    && reverse.Keys == m.Values
    && (forall v :: v in reverse ==> reverse[v] in m && m[reverse[v]] == v)
    && (forall k :: k in m ==> k <= reverse[m[k]])
  }

  /** The oracle standing for `Math.random()` draws a valid index on each turn. */
  ghost predicate ValidOracle(rand: seq<nat>, n: nat) {
    |rand| == n && forall k :: 0 <= k < n ==> rand[k] < n - k
  }

  /** The mapping an untouched array has: every index stands for itself. */
  function Identity(n: nat): (m: map<nat, nat>)
    ensures forall i: nat :: i in m <==> i < n
    ensures forall i :: i in m ==> m[i] == i
  {
    if n == 0 then map[] else Identity(n - 1)[n - 1 := n - 1]
  }

  lemma IdentityIsPermutation(n: nat)
    ensures IsPermutationMap(Identity(n), n)
  {
    var m := Identity(n);
    forall j: nat | j < n ensures j in m.Values {
      assert m[j] == j;
    }
  }

  function Swapped(m: map<nat, nat>, a: nat, b: nat): map<nat, nat>
    requires a in m && b in m
  {
    m[a := m[b]][b := m[a]]
  }

  lemma SwapKeepsPermutation(m: map<nat, nat>, n: nat, a: nat, b: nat)
    requires IsPermutationMap(m, n) && a < n && b < n
    ensures IsPermutationMap(Swapped(m, a, b), n)
  {
    var m' := Swapped(m, a, b);
    forall j: nat | j < n ensures j in m'.Values {
      assert j in m.Values;
      var i :| i in m && m[i] == j;
      var i' := if i == a then b else if i == b then a else i;
      assert m'[i'] == j;
    }
  }

  /** The least of a non-empty set of indices: `Object.keys` lists the
      integer keys of a record in ascending order. */
  method Least(s: set<nat>) returns (k: nat)
    requires s != {}
    ensures k in s && forall j :: j in s ==> k <= j
  {
    k :| k in s;
    var rest := s - {k};
    ghost var seen := {k};
    while rest != {}
      invariant seen + rest == s && k in s
      invariant forall j :: j in seen ==> k <= j
      decreases |rest|
    {
      var y :| y in rest;
      if y < k {
        k := y;
      }
      rest := rest - {y};
      seen := seen + {y};
    }
  }

  /** `swap(a, b)` of `shuffleArray`: exchanges two elements of the shuffled
      copy and the two matching `mappingFrom` entries. */
  method Swap<T>(shuffled: seq<T>, mappingFrom: map<nat, nat>, a: nat, b: nat)
    returns (shuffled': seq<T>, mappingFrom': map<nat, nat>)
    requires a < |shuffled| && b < |shuffled|
    ensures shuffled' == shuffled[a := shuffled[b]][b := shuffled[a]]
    ensures mappingFrom' == mappingFrom[a := At(mappingFrom, b)][b := At(mappingFrom, a)]
  {
    var temporaryValue := shuffled[a];
    shuffled' := shuffled[a := shuffled[b]];
    shuffled' := shuffled'[b := temporaryValue];
    var temporaryIndex := At(mappingFrom, a);
    mappingFrom' := mappingFrom[a := At(mappingFrom, b)];
    mappingFrom' := mappingFrom'[b := temporaryIndex];
  }

  /** The state of the shuffle loop once positions `[lo, n)` are settled:
      `perm` is the bijection `mappingFrom[i] ?? i` denotes, every settled
      position has been written, and the copy is the original read through
      `perm`. */
  ghost predicate Tracks<T>(xs: seq<T>, shuffled: seq<T>, mappingFrom: map<nat, nat>, perm: map<nat, nat>, lo: nat) {
    && |shuffled| == |xs| && lo <= |xs|
    && IsPermutationMap(perm, |xs|)
    && (forall i: nat :: i in mappingFrom ==> i < |xs|)
    && (forall i: nat :: lo <= i < |xs| ==> i in mappingFrom)
    && (forall i: nat :: i < |xs| ==> At(mappingFrom, i) == perm[i])
    && (forall i :: 0 <= i < |xs| ==> shuffled[i] == xs[perm[i]])
  }

  lemma SwapTracks<T>(xs: seq<T>, shuffled: seq<T>, mappingFrom: map<nat, nat>, perm: map<nat, nat>, lo: nat,
                      b: nat, shuffled': seq<T>, mappingFrom': map<nat, nat>)
    requires Tracks(xs, shuffled, mappingFrom, perm, lo) && 0 < lo && b < lo
    requires shuffled' == shuffled[lo - 1 := shuffled[b]][b := shuffled[lo - 1]]
    requires mappingFrom' == mappingFrom[lo - 1 := At(mappingFrom, b)][b := At(mappingFrom, lo - 1)]
    ensures Tracks(xs, shuffled', mappingFrom', Swapped(perm, lo - 1, b), lo - 1)
  {
    SwapTracksPerm(xs, shuffled, mappingFrom, perm, lo, b);
    SwapTracksAt(xs, shuffled, mappingFrom, perm, lo, b, mappingFrom');
    SwapTracksCopy(xs, shuffled, mappingFrom, perm, lo, b, shuffled');
    SwapTracksKeys(xs, shuffled, mappingFrom, perm, lo, b, mappingFrom');
  }

  lemma SwapTracksPerm<T>(xs: seq<T>, shuffled: seq<T>, mappingFrom: map<nat, nat>, perm: map<nat, nat>, lo: nat, b: nat)
    requires Tracks(xs, shuffled, mappingFrom, perm, lo) && 0 < lo && b < lo
    ensures IsPermutationMap(Swapped(perm, lo - 1, b), |xs|)
  {
    SwapKeepsPermutation(perm, |xs|, lo - 1, b);
  }

  lemma SwapTracksKeys<T>(xs: seq<T>, shuffled: seq<T>, mappingFrom: map<nat, nat>, perm: map<nat, nat>, lo: nat,
                          b: nat, mappingFrom': map<nat, nat>)
    requires Tracks(xs, shuffled, mappingFrom, perm, lo) && 0 < lo && b < lo
    requires mappingFrom' == mappingFrom[lo - 1 := At(mappingFrom, b)][b := At(mappingFrom, lo - 1)]
    ensures forall i: nat :: i in mappingFrom' ==> i < |xs|
    ensures forall i: nat :: lo - 1 <= i < |xs| ==> i in mappingFrom'
  {
  }

  lemma SwapTracksAt<T>(xs: seq<T>, shuffled: seq<T>, mappingFrom: map<nat, nat>, perm: map<nat, nat>, lo: nat,
                        b: nat, mappingFrom': map<nat, nat>)
    requires Tracks(xs, shuffled, mappingFrom, perm, lo) && 0 < lo && b < lo
    requires mappingFrom' == mappingFrom[lo - 1 := At(mappingFrom, b)][b := At(mappingFrom, lo - 1)]
    ensures forall i: nat :: i < |xs| ==> At(mappingFrom', i) == Swapped(perm, lo - 1, b)[i]
  {
  }

  lemma SwapTracksCopy<T>(xs: seq<T>, shuffled: seq<T>, mappingFrom: map<nat, nat>, perm: map<nat, nat>, lo: nat,
                          b: nat, shuffled': seq<T>)
    requires Tracks(xs, shuffled, mappingFrom, perm, lo) && 0 < lo && b < lo
    requires shuffled' == shuffled[lo - 1 := shuffled[b]][b := shuffled[lo - 1]]
    ensures forall i :: 0 <= i < |xs| ==> shuffled'[i] == xs[Swapped(perm, lo - 1, b)[i]]
  {
  }

  lemma SwapKeepsMultiset<T>(s: seq<T>, a: nat, b: nat)
    requires a < |s| && b < |s|
    ensures multiset(s[a := s[b]][b := s[a]]) == multiset(s)
  {
  }

  /** The `while` loop shared by both versions of `shuffleArray`: walks
      `currentIndex` from `n` down to 1, swapping position `currentIndex - 1`
      with a drawn position below `currentIndex`. Every position is written,
      so `mappingFrom` ends up a bijection of `[0, n)` and the shuffled copy is
      the original read through it. */
  method FisherYates<T>(xs: seq<T>, rand: seq<nat>) returns (shuffled: seq<T>, mappingFrom: map<nat, nat>)
    requires ValidOracle(rand, |xs|)
    ensures |shuffled| == |xs|
    ensures IsPermutationMap(mappingFrom, |xs|)
    ensures forall i :: 0 <= i < |xs| ==> shuffled[i] == xs[mappingFrom[i]]
    ensures multiset(shuffled) == multiset(xs)
  {
    var n := |xs|;
    var currentIndex := n;
    shuffled := xs;
    mappingFrom := map[];
    ghost var perm: map<nat, nat> := Identity(n);
    IdentityIsPermutation(n);
    var k := 0;
    while currentIndex != 0
      invariant 0 <= currentIndex <= n && k == n - currentIndex
      invariant Tracks(xs, shuffled, mappingFrom, perm, currentIndex)
      invariant multiset(shuffled) == multiset(xs)
    {
      var randomIndex := rand[k];
      currentIndex := currentIndex - 1;
      ghost var (s0, m0) := (shuffled, mappingFrom);
      shuffled, mappingFrom := Swap(shuffled, mappingFrom, currentIndex, randomIndex);
      SwapTracks(xs, s0, m0, perm, currentIndex + 1, randomIndex, shuffled, mappingFrom);
      SwapKeepsMultiset(s0, currentIndex, randomIndex);
      perm := Swapped(perm, currentIndex, randomIndex);
      k := k + 1;
    }
    TracksDone(xs, shuffled, mappingFrom, perm);
  }

  /** Once every position is settled, `mappingFrom` is the bijection itself. */
  lemma TracksDone<T>(xs: seq<T>, shuffled: seq<T>, mappingFrom: map<nat, nat>, perm: map<nat, nat>)
    requires Tracks(xs, shuffled, mappingFrom, perm, 0)
    ensures mappingFrom == perm
  {
    assert forall i: nat :: i in mappingFrom ==> mappingFrom[i] == At(mappingFrom, i);
  }

  /** Strictly ascending. */
  ghost predicate Ascending(keys: seq<nat>) {
    forall i, j :: 0 <= i < j < |keys| ==> keys[i] < keys[j]
  }

  /** `numberKeys` after the keys in `keys` have been listed and `rest` remain. */
  ghost predicate ListingKeys(record: map<nat, nat>, keys: seq<nat>, rest: set<nat>) {
    && (forall k :: k in record <==> k in keys || k in rest)
    && (forall k :: k in rest ==> k in record)
    && Ascending(keys)
    && (forall i, k :: 0 <= i < |keys| && k in rest ==> keys[i] < k)
  }

  lemma ListingStep(record: map<nat, nat>, keys: seq<nat>, rest: set<nat>, key: nat)
    requires ListingKeys(record, keys, rest)
    requires key in rest && forall j :: j in rest ==> key <= j
    ensures ListingKeys(record, keys + [key], rest - {key})
  {
  }

  /** `numberKeys(record)`: the keys of a record as numbers, in the order
      `Object.keys` lists integer keys, which is ascending. */
  method NumberKeys(record: map<nat, nat>) returns (keys: seq<nat>)
    ensures forall k :: k in record <==> k in keys
    ensures Ascending(keys)
  {
    keys := [];
    var rest := record.Keys;
    while rest != {}
      invariant ListingKeys(record, keys, rest)
      decreases |rest|
    {
      var key := Least(rest);
      ListingStep(record, keys, rest, key);
      keys := keys + [key];
      rest := rest - {key};
    }
  }

  /** What `reverseMapping` has built once the keys in `done` are visited. */
  ghost predicate ReverseSoFar(reverse: map<nat, nat>, mapping: map<nat, nat>, done: seq<nat>) {
    && (forall k :: k in done ==> k in mapping)
    && (forall v :: v in reverse ==> reverse[v] in done && mapping[reverse[v]] == v)
    && (forall k :: k in done ==> mapping[k] in reverse && k <= reverse[mapping[k]])
  }

  lemma ReverseStep(reverse: map<nat, nat>, mapping: map<nat, nat>, keys: seq<nat>, i: nat)
    requires i < |keys| && Ascending(keys) && keys[i] in mapping
    requires ReverseSoFar(reverse, mapping, keys[..i])
    ensures ReverseSoFar(reverse[mapping[keys[i]] := keys[i]], mapping, keys[..i + 1])
  {
    assert keys[..i + 1] == keys[..i] + [keys[i]];
  }

  /** `reverseMapping`: visits the keys of `mapping` in ascending order and
      records `reverse[mapping[key]] = key`. */
  method ReverseMapping(mapping: map<nat, nat>) returns (reverse: map<nat, nat>)
    ensures IsReverse(reverse, mapping)
  {
    reverse := map[];
    var keys := NumberKeys(mapping);
    for i := 0 to |keys|
      invariant ReverseSoFar(reverse, mapping, keys[..i])
    {
      ReverseStep(reverse, mapping, keys, i);
      reverse := reverse[mapping[keys[i]] := keys[i]];
    }
    assert keys[..|keys|] == keys;
    ReverseDone(reverse, mapping, keys);
  }

  lemma ReverseDone(reverse: map<nat, nat>, mapping: map<nat, nat>, keys: seq<nat>)
    requires ReverseSoFar(reverse, mapping, keys)
    requires forall k :: k in mapping ==> k in keys
    ensures IsReverse(reverse, mapping)
  {
    forall v | v in mapping.Values ensures v in reverse {
      var k :| k in mapping && mapping[k] == v;
    }
  }

  /** The reverse of a bijection is its inverse. */
  lemma ReverseOfPermutation(m: map<nat, nat>, r: map<nat, nat>, n: nat)
    requires IsPermutationMap(m, n) && IsReverse(r, m)
    ensures AreInverse(r, m, n)
  {
    forall i: nat ensures i in r <==> i < n {
      if i < n { assert i in m.Values; }
    }
    forall v | v in r ensures r[v] < n {}
    forall j: nat | j < n ensures j in r.Values {
      assert j in m;
      assert r[m[j]] == j;
    }
    forall i | i in m ensures m[i] in r && r[m[i]] == i {
      assert m[i] in m.Values;
      var k := r[m[i]];
      assert m[k] == m[i];
    }
  }

  /** Reversing twice gives back the bijection one started from. */
  lemma ReverseTwice(m: map<nat, nat>, r: map<nat, nat>, r2: map<nat, nat>, n: nat)
    requires IsPermutationMap(m, n) && IsReverse(r, m) && IsReverse(r2, r)
    ensures r2 == m
  {
    ReverseOfPermutation(m, r, n);
    InverseArePermutations(r, m, n);
    ReverseOfPermutation(r, r2, n);
    InverseUnique(m, r2, r, n);
  }

  /** A bijection has one inverse. */
  lemma InverseUnique(m: map<nat, nat>, m': map<nat, nat>, r: map<nat, nat>, n: nat)
    requires AreInverse(r, m, n) && AreInverse(m', r, n)
    ensures m' == m
  {
    assert m.Keys == m'.Keys;
    forall i | i in m ensures m'[i] == m[i] {
      assert r[m'[i]] == i && r[m[i]] == i;
      assert m[r[m'[i]]] == m'[i];
    }
  }

  /** The positions recorded in `mappingTo` follow from the others. */
  lemma ConsistentOf<T>(xs: seq<T>, r: ShuffleResult<T>)
    requires |r.shuffled| == |xs| && AreInverse(r.mappingTo, r.mappingFrom, |xs|)
    requires forall i :: 0 <= i < |xs| ==> r.shuffled[i] == xs[r.mappingFrom[i]]
    ensures Consistent(xs, r)
  {
    forall i | 0 <= i < |xs| ensures r.shuffled[r.mappingTo[i]] == xs[i] {
      assert i in r.mappingTo;
    }
  }

  /** Swapping shuffled positions `p` and `q` together with the matching
      entries of both mappings keeps the mappings inverse. */
  lemma SwapInverse(to: map<nat, nat>, from: map<nat, nat>, n: nat, p: nat, q: nat)
    requires AreInverse(to, from, n) && p < n && q < n
    ensures AreInverse(Swapped(to, from[p], from[q]), Swapped(from, p, q), n)
  {
    SwapInverseTo(to, from, n, p, q);
    SwapInverseFrom(to, from, n, p, q);
  }

  lemma SwapInverseTo(to: map<nat, nat>, from: map<nat, nat>, n: nat, p: nat, q: nat)
    requires AreInverse(to, from, n) && p < n && q < n
    ensures var to', from' := Swapped(to, from[p], from[q]), Swapped(from, p, q);
      forall i :: i in to' ==> to'[i] in from' && from'[to'[i]] == i
  {
    var to', from' := Swapped(to, from[p], from[q]), Swapped(from, p, q);
    forall i | i in to' ensures to'[i] in from' && from'[to'[i]] == i {
      if i == from[q] {
        assert to'[i] == p;
      } else if i == from[p] {
        assert to'[i] == q;
      } else {
        assert to'[i] == to[i] && to[i] != p && to[i] != q;
      }
    }
  }

  lemma SwapInverseFrom(to: map<nat, nat>, from: map<nat, nat>, n: nat, p: nat, q: nat)
    requires AreInverse(to, from, n) && p < n && q < n
    ensures var to', from' := Swapped(to, from[p], from[q]), Swapped(from, p, q);
      forall j :: j in from' ==> from'[j] in to' && to'[from'[j]] == j
  {
    var to', from' := Swapped(to, from[p], from[q]), Swapped(from, p, q);
    forall j | j in from' ensures from'[j] in to' && to'[from'[j]] == j {
      if j == q {
        assert from'[j] == from[p];
      } else if j == p {
        assert from'[j] == from[q];
      } else {
        assert from'[j] == from[j] && from[j] != from[p] && from[j] != from[q];
      }
    }
  }

  lemma SwapConsistent<T>(xs: seq<T>, r: ShuffleResult<T>, p: nat, q: nat)
    requires Consistent(xs, r) && p < |xs| && q < |xs|
    ensures Consistent(xs, ShuffleResult(r.shuffled[p := r.shuffled[q]][q := r.shuffled[p]],
                                         Swapped(r.mappingTo, r.mappingFrom[p], r.mappingFrom[q]),
                                         Swapped(r.mappingFrom, p, q)))
  {
    SwapInverse(r.mappingTo, r.mappingFrom, |xs|, p, q);
    ConsistentOf(xs, ShuffleResult(r.shuffled[p := r.shuffled[q]][q := r.shuffled[p]],
                                   Swapped(r.mappingTo, r.mappingFrom[p], r.mappingFrom[q]),
                                   Swapped(r.mappingFrom, p, q)));
  }

  /** The `first` branch of `shuffleArray`: the element originally at `first`
      is swapped into position 0 and both mappings are patched to match. */
  method MoveToFront<T>(ghost xs: seq<T>, r: ShuffleResult<T>, first: nat) returns (r': ShuffleResult<T>)
    requires Consistent(xs, r) && first < |xs|
    ensures Consistent(xs, r')
    ensures multiset(r'.shuffled) == multiset(r.shuffled)
    ensures r'.shuffled[0] == xs[first] && r'.mappingTo[first] == 0 && r'.mappingFrom[0] == first
  {
    var shuffled, mappingTo, mappingFrom := r.shuffled, r.mappingTo, r.mappingFrom;
    var x := mappingFrom[0];
    var m := mappingTo[first];
    shuffled, mappingFrom := Swap(shuffled, mappingFrom, 0, m);
    SwapKeepsMultiset(r.shuffled, 0, m);
    mappingTo := mappingTo[x := mappingTo[first]];
    mappingTo := mappingTo[first := 0];
    SwapConsistent(xs, r, 0, m);
    r' := ShuffleResult(shuffled, mappingTo, mappingFrom);
  }

  /** `shuffleArray(xs, first)` of app/src/utils.ts. With `first` given,
      the element at `first` ends up in position 0. */
  method ShuffleArray<T>(xs: seq<T>, first: Option<nat>, rand: seq<nat>) returns (r: ShuffleResult<T>)
    requires ValidOracle(rand, |xs|)
    requires first.Some? ==> first.value < |xs|
    ensures Consistent(xs, r)
    ensures multiset(r.shuffled) == multiset(xs)
    ensures first.Some? ==> r.shuffled[0] == xs[first.value] && r.mappingTo[first.value] == 0
  {
    var shuffled, mappingFrom := FisherYates(xs, rand);
    var mappingTo := ReverseMapping(mappingFrom);
    ReverseOfPermutation(mappingFrom, mappingTo, |xs|);
    r := ShuffleResult(shuffled, mappingTo, mappingFrom);
    ConsistentOf(xs, r);
    if first.Some? {
      r := MoveToFront(xs, r, first.value);
    }
  }

  /** The older `shuffleArray(array)` of packages/app/src/utils.ts: the same
      loop, and `mappingTo` filled by walking `Object.keys(mappingFrom)`,
      which is what `reverseMapping` does. */
  method ShuffleArrayLegacy<T>(xs: seq<T>, rand: seq<nat>) returns (r: ShuffleResult<T>)
    requires ValidOracle(rand, |xs|)
    ensures Consistent(xs, r)
    ensures multiset(r.shuffled) == multiset(xs)
  {
    var shuffled, mappingFrom := FisherYates(xs, rand);
    var mappingTo := ReverseMapping(mappingFrom);
    ReverseOfPermutation(mappingFrom, mappingTo, |xs|);
    r := ShuffleResult(shuffled, mappingTo, mappingFrom);
    ConsistentOf(xs, r);
  }

  /** `[...s.slice(0, k), ...s.slice(k + 1)]`. */
  function RemoveAt<T>(s: seq<T>, k: nat): (r: seq<T>)
    requires k < |s|
    ensures |r| == |s| - 1
    ensures forall j :: 0 <= j < |r| ==> r[j] == s[Unshift(j, k)]
  {
    s[..k] + s[k + 1..]
  }

  /** The index an element keeps once index `gone` is removed before it
      (`i > original ? i - 1 : i` and its twin in `removeElementFromShuffled`). */
  function Shift(i: nat, gone: nat): nat {
    if i > gone then i - 1 else i
  }

  /** The index an element had before index `gone` was removed. */
  function Unshift(j: nat, gone: nat): (i: nat)
    ensures i != gone && Shift(i, gone) == j
  {
    if j < gone then j else j + 1
  }

  /** `newMappingTo` once the loop of `removeElementFromShuffled` has passed
      original indices `[0, i)`: every surviving original index, renumbered,
      points at its renumbered shuffled position. */
  ghost predicate RemovedSoFar(newMappingTo: map<nat, nat>, mappingTo: map<nat, nat>, original: nat, index: nat, i: nat) {
    var bound := if i <= original then i else i - 1;
    && (forall j: nat :: j in newMappingTo <==> j < bound)
    && (forall j: nat :: j in newMappingTo ==>
          Unshift(j, original) in mappingTo && newMappingTo[j] == Shift(mappingTo[Unshift(j, original)], index))
  }

  lemma RemovedStep(newMappingTo: map<nat, nat>, mappingTo: map<nat, nat>, original: nat, index: nat, i: nat)
    requires RemovedSoFar(newMappingTo, mappingTo, original, index, i)
    requires i != original && i in mappingTo
    ensures RemovedSoFar(newMappingTo[Shift(i, original) := Shift(mappingTo[i], index)], mappingTo, original, index, i + 1)
  {
    var nt := newMappingTo[Shift(i, original) := Shift(mappingTo[i], index)];
    forall j: nat | j in nt
      ensures Unshift(j, original) in mappingTo && nt[j] == Shift(mappingTo[Unshift(j, original)], index)
    {
      if j == Shift(i, original) {
        assert Unshift(j, original) == i;
      }
    }
  }

  /** A surviving original index `u` is not sent to the removed position. */
  lemma SurvivorNotRemoved(to: map<nat, nat>, from: map<nat, nat>, n: nat, index: nat, u: nat)
    requires AreInverse(to, from, n) && index < n && u < n && u != from[index]
    ensures to[u] != index
  {
    assert from[to[u]] == u;
  }

  /** The renumbered `mappingTo` is again a bijection, one element shorter. */
  lemma RemovedIsPermutation(to: map<nat, nat>, from: map<nat, nat>, n: nat, index: nat, nt: map<nat, nat>)
    requires AreInverse(to, from, n) && index < n
    requires RemovedSoFar(nt, to, from[index], index, n)
    ensures IsPermutationMap(nt, n - 1)
  {
    RemovedBounded(to, from, n, index, nt);
    RemovedOnto(to, from, n, index, nt);
    RemovedInjective(to, from, n, index, nt);
  }

  lemma RemovedBounded(to: map<nat, nat>, from: map<nat, nat>, n: nat, index: nat, nt: map<nat, nat>)
    requires AreInverse(to, from, n) && index < n
    requires RemovedSoFar(nt, to, from[index], index, n)
    ensures forall j | j in nt :: nt[j] < n - 1
  {
    forall j | j in nt ensures nt[j] < n - 1 {
      SurvivorNotRemoved(to, from, n, index, Unshift(j, from[index]));
    }
  }

  lemma RemovedOnto(to: map<nat, nat>, from: map<nat, nat>, n: nat, index: nat, nt: map<nat, nat>)
    requires AreInverse(to, from, n) && index < n
    requires RemovedSoFar(nt, to, from[index], index, n)
    ensures forall v: nat :: v < n - 1 ==> v in nt.Values
  {
    var original := from[index];
    forall v: nat | v < n - 1 ensures v in nt.Values {
      var w := Unshift(v, index);
      var u := from[w];
      assert u != original by {
        assert w in from && index in from && w != index;
      }
      var j := Shift(u, original);
      assert Unshift(j, original) == u;
      assert nt[j] == v;
    }
  }

  lemma RemovedInjective(to: map<nat, nat>, from: map<nat, nat>, n: nat, index: nat, nt: map<nat, nat>)
    requires AreInverse(to, from, n) && index < n
    requires RemovedSoFar(nt, to, from[index], index, n)
    ensures forall j1, j2 :: j1 in nt && j2 in nt && j1 != j2 ==> nt[j1] != nt[j2]
  {
    var original := from[index];
    forall j1, j2 | j1 in nt && j2 in nt && j1 != j2 ensures nt[j1] != nt[j2] {
      var u1, u2 := Unshift(j1, original), Unshift(j2, original);
      assert u1 != u2 by {
        assert Shift(u1, original) == j1 && Shift(u2, original) == j2;
      }
      SurvivorNotRemoved(to, from, n, index, u1);
      SurvivorNotRemoved(to, from, n, index, u2);
    }
  }

  /** The positions recorded in `mappingFrom` follow from the others. */
  lemma ConsistentOfTo<T>(xs: seq<T>, r: ShuffleResult<T>)
    requires |r.shuffled| == |xs| && AreInverse(r.mappingTo, r.mappingFrom, |xs|)
    requires forall i :: 0 <= i < |xs| ==> r.shuffled[r.mappingTo[i]] == xs[i]
    ensures Consistent(xs, r)
  {
    forall i | 0 <= i < |xs| ensures r.shuffled[i] == xs[r.mappingFrom[i]] {
      assert i in r.mappingFrom;
    }
  }

  lemma RemovedTracksOriginal<T>(xs: seq<T>, r: ShuffleResult<T>, index: nat, shuffled': seq<T>, nt: map<nat, nat>)
    requires Consistent(xs, r) && index < |xs|
    requires shuffled' == RemoveAt(r.shuffled, index)
    requires RemovedSoFar(nt, r.mappingTo, r.mappingFrom[index], index, |xs|)
    ensures forall j :: 0 <= j < |xs| - 1 ==> nt[j] < |shuffled'| && shuffled'[nt[j]] == RemoveAt(xs, r.mappingFrom[index])[j]
  {
    var original := r.mappingFrom[index];
    forall j | 0 <= j < |xs| - 1 ensures nt[j] < |shuffled'| && shuffled'[nt[j]] == RemoveAt(xs, original)[j] {
      var u := Unshift(j, original);
      var w := r.mappingTo[u];
      SurvivorNotRemoved(r.mappingTo, r.mappingFrom, |xs|, index, u);
      assert Unshift(Shift(w, index), index) == w;
    }
  }

  lemma RemovedConsistent<T>(xs: seq<T>, r: ShuffleResult<T>, index: nat, r': ShuffleResult<T>)
    requires Consistent(xs, r) && index < |xs|
    requires r'.shuffled == RemoveAt(r.shuffled, index)
    requires RemovedSoFar(r'.mappingTo, r.mappingTo, r.mappingFrom[index], index, |xs|)
    requires AreInverse(r'.mappingTo, r'.mappingFrom, |xs| - 1)
    ensures Consistent(RemoveAt(xs, r.mappingFrom[index]), r')
  {
    RemovedTracksOriginal(xs, r, index, r'.shuffled, r'.mappingTo);
    ConsistentOfTo(RemoveAt(xs, r.mappingFrom[index]), r');
  }

  /** `removeElementFromShuffled(index, result)`: drops the element at shuffled
      position `index`, renumbers `mappingTo` for the shorter original list
      and rebuilds `mappingFrom` from it. The result describes the original
      list without the removed element. */
  method RemoveElementFromShuffled<T>(ghost xs: seq<T>, index: nat, r: ShuffleResult<T>) returns (r': ShuffleResult<T>)
    requires Consistent(xs, r) && index < |xs|
    ensures r'.shuffled == RemoveAt(r.shuffled, index)
    ensures Consistent(RemoveAt(xs, r.mappingFrom[index]), r')
  {
    var original := r.mappingFrom[index];
    var newShuffled := r.shuffled[..index] + r.shuffled[index + 1..];
    var newMappingTo: map<nat, nat> := map[];
    for i := 0 to |r.shuffled|
      invariant RemovedSoFar(newMappingTo, r.mappingTo, original, index, i)
    {
      if i == original {
        continue;
      }
      var toIndex := if i > original then i - 1 else i;
      var fromIndex := if r.mappingTo[i] > index then r.mappingTo[i] - 1 else r.mappingTo[i];
      RemovedStep(newMappingTo, r.mappingTo, original, index, i);
      newMappingTo := newMappingTo[toIndex := fromIndex];
    }
    RemovedIsPermutation(r.mappingTo, r.mappingFrom, |xs|, index, newMappingTo);
    var newMappingFrom := ReverseMapping(newMappingTo);
    ReverseOfPermutation(newMappingTo, newMappingFrom, |xs| - 1);
    r' := ShuffleResult(newShuffled, newMappingTo, newMappingFrom);
    RemovedConsistent(xs, r, index, r');
  }
}
