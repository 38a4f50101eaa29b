/** The local cache of one Firestore collection (app/src/db.ts): the
    high-water mark `getMaxUpdatedAt`, the first full fetch, and the merge of
    a snapshot's document changes into the cached list. IndexedDB, Firestore
    and the event emitter are not modelled; what they deliver is a
    parameter. */
module Sync {
  import opened Wrappers
  import opened Types
  import JsNumber

  /** A cached document: its id, its update time, its soft-delete flag and
      the rest of its fields. */
  datatype Doc<D> = Doc(id: string, updatedAt: Timestamp, deleted: bool, fields: D)

  datatype ChangeKind = Added | Modified | Removed

  /** One entry of `snapshot.docChanges()`: the kind, the document's id and
      its data. */
  datatype Change<D> = Change(kind: ChangeKind, docId: string, data: Doc<D>)

  // ---------------------------------------------------------------------
  // The high-water mark

  /** The whole milliseconds `getMaxUpdatedAt` takes from a timestamp: the
      seconds in milliseconds plus the nanoseconds rounded to milliseconds. */
  function UpdatedMillis(t: Timestamp): int {
    t.seconds * 1000 + JsNumber.Round(t.nanoseconds as real / 1000000.0)
  }

  /** The largest update time of `docs`, or 0. */
  function MaxUpdatedAt<D>(docs: seq<Doc<D>>): (m: int)
    ensures m >= 0
  {
    if docs == [] then 0
    else
      var before := MaxUpdatedAt(docs[..|docs| - 1]);
      var last := docs[|docs| - 1];
      if UpdatedMillis(last.updatedAt) > before then UpdatedMillis(last.updatedAt) else before
  }

  /** No document is later than the mark. */
  lemma {:induction false} MaxUpdatedAtBound<D>(docs: seq<Doc<D>>, d: Doc<D>)
    requires d in docs
    ensures UpdatedMillis(d.updatedAt) <= MaxUpdatedAt(docs)
  {
    var init := docs[..|docs| - 1];
    assert docs == init + [docs[|docs| - 1]];
    if d != docs[|docs| - 1] {
      MaxUpdatedAtBound(init, d);
    }
  }

  /** The mark is 0 or the update time of one of the documents. */
  lemma {:induction false} MaxUpdatedAtAttained<D>(docs: seq<Doc<D>>)
    ensures MaxUpdatedAt(docs) == 0 || exists d :: d in docs && UpdatedMillis(d.updatedAt) == MaxUpdatedAt(docs)
  {
    if docs != [] {
      var init := docs[..|docs| - 1];
      var last := docs[|docs| - 1];
      MaxUpdatedAtAttained(init);
      if MaxUpdatedAt(docs) != UpdatedMillis(last.updatedAt) && MaxUpdatedAt(init) != 0 {
        var d :| d in init && UpdatedMillis(d.updatedAt) == MaxUpdatedAt(init);
        assert d in docs;
      }
    }
  }

  /** `getMaxUpdatedAt`: the maximum, starting from 0, over the list. */
  method GetMaxUpdatedAt<D(!new)>(docs: seq<Doc<D>>) returns (maxUpdatedAt: int)
    ensures maxUpdatedAt == MaxUpdatedAt(docs)
  {
    maxUpdatedAt := 0;
    for i := 0 to |docs|
      invariant maxUpdatedAt == MaxUpdatedAt(docs[..i])
    {
      assert docs[..i + 1][..i] == docs[..i];
      var millis := UpdatedMillis(docs[i].updatedAt);
      if millis > maxUpdatedAt {
        maxUpdatedAt := millis;
      }
    }
    assert docs[..|docs|] == docs;
  }

  /** The mark is an upper bound attained by some document, so it is the
      maximum; documents with timestamps before 1970 leave it at 0. */
  lemma MaxUpdatedAtIsMax<D(!new)>(docs: seq<Doc<D>>, d: Doc<D>)
    requires d in docs && UpdatedMillis(d.updatedAt) >= 0
    ensures MaxUpdatedAt(docs) >= UpdatedMillis(d.updatedAt)
    ensures (forall e :: e in docs ==> UpdatedMillis(e.updatedAt) <= UpdatedMillis(d.updatedAt)) ==>
      MaxUpdatedAt(docs) == UpdatedMillis(d.updatedAt)
  {
    MaxUpdatedAtBound(docs, d);
    MaxUpdatedAtAttained(docs);
  }

  // ---------------------------------------------------------------------
  // One change

  /** `copy.findIndex(item => item.id === id)`. */
  function FindIndex<D>(copy: seq<Doc<D>>, id: string): (r: int)
    ensures -1 <= r < |copy|
    ensures r == -1 <==> forall j :: 0 <= j < |copy| ==> copy[j].id != id
    ensures r >= 0 ==> copy[r].id == id && forall j :: 0 <= j < r ==> copy[j].id != id
  {
    if copy == [] then -1
    else if copy[0].id == id then 0
    else
      var k := FindIndex(copy[1..], id);
      assert forall j :: 0 < j < |copy| ==> copy[j] == copy[1..][j - 1];
      if k == -1 then -1 else k + 1
  }

  /** `Timestamp.toMillis()`: the time in milliseconds, with a fraction. */
  function Millis(t: Timestamp): real {
    (t.seconds * 1000) as real + t.nanoseconds as real / 1000000.0
  }

  /** `copy.splice(start, 1)`: a negative start counts from the end, and a
      start at or past the end removes nothing, and a start before the
      beginning removes the first element. It only ever removes: every
      element left was in the list. */
  function SpliceOne<T>(xs: seq<T>, start: int): (r: seq<T>)
    ensures |r| == if start < |xs| && xs != [] then |xs| - 1 else |xs|
    ensures forall x :: x in r ==> x in xs
  {
    var s := if start < 0 then (if |xs| + start < 0 then 0 else |xs| + start) else start;
    if s < |xs| then xs[..s] + xs[s + 1..] else xs
  }

  /** `add`: a document flagged deleted is not added. */
  function Add<D>(copy: seq<Doc<D>>, data: Doc<D>): seq<Doc<D>> {
    if data.deleted then copy else copy + [data]
  }

  /** `mutate(change, index)`: a deleted document removes the element at
      `index`; an older document than the local one leaves it; otherwise the
      document replaces it. Reading `copy[index]` outside the list yields
      `undefined`, and taking its `updatedAt` throws a TypeError. */
  function Mutate<D>(copy: seq<Doc<D>>, data: Doc<D>, index: int): (r: Result<seq<Doc<D>>>)
    ensures r.Err? <==> !data.deleted && !(0 <= index < |copy|)
    ensures r.Ok? ==> forall d :: d in r.value ==> d in copy || d == data
    ensures r.Ok? && !data.deleted ==>
      |r.value| == |copy| && forall j :: 0 <= j < |copy| && j != index ==> r.value[j] == copy[j]
  {
    if data.deleted then Ok(SpliceOne(copy, index))
    else if !(0 <= index < |copy|) then Err("TypeError: cannot read updatedAt of undefined")
    else if Millis(copy[index].updatedAt) > Millis(data.updatedAt) then Ok(copy)
    else Ok(copy[index := data])
  }

  /** The body of the `changes.forEach` callback. It throws only for a
      "modified" change, not flagged deleted, of an unknown id; it adds or
      removes at most one element, and every element left was in the list
      or is the change's document. */
  function ApplyChange<D>(copy: seq<Doc<D>>, change: Change<D>): (r: Result<seq<Doc<D>>>)
    ensures r.Err? <==>
      change.kind == Modified && !change.data.deleted && forall j :: 0 <= j < |copy| ==> copy[j].id != change.docId
    ensures r.Ok? ==> |copy| - 1 <= |r.value| <= |copy| + 1
    ensures r.Ok? ==> forall d :: d in r.value ==> d in copy || d == change.data
  {
    var index := FindIndex(copy, change.docId);
    match change.kind
    case Removed => Ok(copy)
    case Added => if index == -1 then Ok(Add(copy, change.data)) else Mutate(copy, change.data, index)
    case Modified => Mutate(if index == -1 then Add(copy, change.data) else copy, change.data, index)
  }

  /** "removed" changes never alter the list. */
  lemma RemovedIgnored<D>(copy: seq<Doc<D>>, change: Change<D>)
    requires change.kind == Removed
    ensures ApplyChange(copy, change) == Ok(copy)
  {
  }

  /** An "added" change for an unknown id appends the document, unless it
      is flagged deleted. */
  lemma AddedUnknown<D>(copy: seq<Doc<D>>, change: Change<D>)
    requires change.kind == Added && forall j :: 0 <= j < |copy| ==> copy[j].id != change.docId
    ensures ApplyChange(copy, change) == Ok(if change.data.deleted then copy else copy + [change.data])
  {
  }

  /** An "added" or "modified" change for a known id: a deleted document
      removes exactly the first element with that id; an older document
      than the local copy changes nothing; otherwise the document replaces
      that element. No other element moves or changes. */
  lemma KnownIdChange<D>(copy: seq<Doc<D>>, change: Change<D>, index: nat)
    requires change.kind != Removed
    requires index < |copy| && copy[index].id == change.docId
    requires forall j :: 0 <= j < index ==> copy[j].id != change.docId
    ensures change.data.deleted ==> ApplyChange(copy, change) == Ok(copy[..index] + copy[index + 1..])
    ensures !change.data.deleted && Millis(copy[index].updatedAt) > Millis(change.data.updatedAt) ==>
      ApplyChange(copy, change) == Ok(copy)
    ensures !change.data.deleted && Millis(copy[index].updatedAt) <= Millis(change.data.updatedAt) ==>
      ApplyChange(copy, change) == Ok(copy[index := change.data])
  {
  }

  /** Apart from a deletion, which shifts the later elements down by one, a
      change to a known id leaves every other element where it was. */
  lemma OthersUntouched<D>(copy: seq<Doc<D>>, change: Change<D>, index: nat, j: nat)
    requires change.kind != Removed
    requires index < |copy| && copy[index].id == change.docId
    requires forall i :: 0 <= i < index ==> copy[i].id != change.docId
    requires j < |copy| && j != index
    ensures ApplyChange(copy, change).Ok?
    ensures var r := ApplyChange(copy, change).value;
      if change.data.deleted then (if j < index then r[j] else r[j - 1]) == copy[j] else r[j] == copy[j]
  {
    KnownIdChange(copy, change, index);
  }

  /** A "modified" change for an unknown id runs `add` and then
      `mutate(change, -1)`: a deleted document removes the last element of
      the list, whatever its id, and any other document makes the batch
      throw. */
  lemma ModifiedUnknown<D>(copy: seq<Doc<D>>, change: Change<D>)
    requires change.kind == Modified && forall j :: 0 <= j < |copy| ==> copy[j].id != change.docId
    ensures change.data.deleted ==> ApplyChange(copy, change) == Ok(if copy == [] then [] else copy[..|copy| - 1])
    ensures !change.data.deleted ==> ApplyChange(copy, change).Err?
  {
    if change.data.deleted && copy != [] {
      assert copy[|copy| - 1..|copy|][1..] == [];
      assert copy[..|copy| - 1] + copy[|copy|..] == copy[..|copy| - 1];
    }
  }

  // ---------------------------------------------------------------------
  // A batch

  /** The changes applied in order; the first TypeError ends the batch. A
      batch without "modified" changes never throws, and each change adds
      or removes at most one element. */
  function Merge<D>(items: seq<Doc<D>>, changes: seq<Change<D>>): (r: Result<seq<Doc<D>>>)
    ensures (forall i :: 0 <= i < |changes| ==> changes[i].kind != Modified) ==> r.Ok?
    ensures r.Ok? ==> |items| - |changes| <= |r.value| <= |items| + |changes|
  {
    if changes == [] then Ok(items)
    else
      match Merge(items, changes[..|changes| - 1])
      case Err(e) => Err(e)
      case Ok(copy) => ApplyChange(copy, changes[|changes| - 1])
  }

  /** The `forEach` over the changes, working on `copy`, a copy of the
      cached list. */
  method MergeChanges<D>(items: seq<Doc<D>>, changes: seq<Change<D>>) returns (r: Result<seq<Doc<D>>>)
    ensures r == Merge(items, changes)
  {
    var copy := items;
    for i := 0 to |changes|
      invariant Merge(items, changes[..i]) == Ok(copy)
    {
      assert changes[..i + 1][..i] == changes[..i];
      var change := changes[i];
      var data := change.data;
      if change.kind != Removed {
        var index := FindIndex(copy, change.docId);
        if index == -1 && !data.deleted {
          copy := copy + [data];
        }
        if index != -1 || change.kind == Modified {
          if data.deleted {
            copy := SpliceOne(copy, index);
          } else if index < 0 {
            r := Err("TypeError: cannot read updatedAt of undefined");
            MergeAborts(items, changes, i + 1);
            return;
          } else if Millis(copy[index].updatedAt) > Millis(data.updatedAt) {
          } else {
            copy := copy[index := data];
          }
        }
      }
    }
    assert changes[..|changes|] == changes;
    return Ok(copy);
  }

  /** Once a change throws, the rest of the batch is not applied. */
  lemma {:induction false} MergeAborts<D>(items: seq<Doc<D>>, changes: seq<Change<D>>, i: nat)
    requires i <= |changes| && Merge(items, changes[..i]).Err?
    ensures Merge(items, changes) == Merge(items, changes[..i])
    decreases |changes| - i
  {
    if i < |changes| {
      var init := changes[..|changes| - 1];
      assert init[..i] == changes[..i];
      MergeAborts(items, init, i);
    } else {
      assert changes[..i] == changes;
    }
  }

  /** Every document the merge leaves came from the cache or from a change. */
  lemma {:induction false} MergeFrom<D(!new)>(items: seq<Doc<D>>, changes: seq<Change<D>>)
    ensures Merge(items, changes).Ok? ==>
      forall d :: d in Merge(items, changes).value ==> d in items || exists c :: c in changes && c.data == d
    decreases |changes|
  {
    if changes != [] {
      var init := changes[..|changes| - 1];
      var last := changes[|changes| - 1];
      MergeFrom(items, init);
      if Merge(items, init).Ok? {
        var copy := Merge(items, init).value;
        if Merge(items, changes).Ok? {
          forall d | d in Merge(items, changes).value
            ensures d in items || exists c :: c in changes && c.data == d
          {
            if d in copy && !(d in items) {
              var c :| c in init && c.data == d;
              assert c in changes;
            }
            if d == last.data {
              assert last in changes;
            }
          }
        }
      }
    }
  }

  // ---------------------------------------------------------------------
  // The watcher

  /** The state `watchModel` keeps for one collection: the cached list and
      the stored high-water mark (`lastUpdated`), absent before the first
      full fetch. */
  class Watcher<D(!new)> {
    var items: seq<Doc<D>>
    var lastUpdated: Option<int>

    constructor(stored: Option<int>)
      ensures items == [] && lastUpdated == stored
    {
      items := [];
      lastUpdated := stored;
    }

    /** The start of `watchModel`: without a stored mark, the collection's
        documents not flagged deleted, and the mark one past their latest
        update; otherwise the list held in IndexedDB. */
    method Load(collection: seq<Doc<D>>, cached: seq<Doc<D>>)
      modifies this
      ensures old(lastUpdated).None? ==>
        && items == NotDeleted(collection)
        && lastUpdated == Some(MaxUpdatedAt(NotDeleted(collection)) + 1)
      ensures old(lastUpdated).Some? ==> items == cached && lastUpdated == old(lastUpdated)
    {
      if lastUpdated.None? {
        var fetched := NotDeleted(collection);
        items := fetched;
        var maxUpdatedAt := GetMaxUpdatedAt(fetched);
        lastUpdated := Some(maxUpdatedAt + 1);
      } else {
        items := cached;
      }
    }

    /** The snapshot listener: an empty batch is ignored; a batch that
        throws leaves the list and the mark as they were; otherwise the
        merged list is cached and the mark set one past the latest update
        among all the batch's documents, "removed" ones included. */
    method OnSnapshot(changes: seq<Change<D>>)
      modifies this
      ensures changes == [] || Merge(old(items), changes).Err? ==> items == old(items) && lastUpdated == old(lastUpdated)
      ensures changes != [] && Merge(old(items), changes).Ok? ==>
        && items == Merge(old(items), changes).value
        && lastUpdated == Some(MaxUpdatedAt(ChangedDocs(changes)) + 1)
    {
      if changes == [] {
        return;
      }
      var merged := MergeChanges(items, changes);
      if merged.Err? {
        return;
      }
      var maxUpdatedAt := GetMaxUpdatedAt(ChangedDocs(changes));
      items := merged.value;
      lastUpdated := Some(maxUpdatedAt + 1);
    }
  }

  /** The `where("deleted", "==", false)` query of the first fetch. */
  function NotDeleted<D(!new)>(docs: seq<Doc<D>>): (r: seq<Doc<D>>)
    ensures forall d :: d in r <==> d in docs && !d.deleted
  {
    if docs == [] then []
    else (if docs[0].deleted then [] else [docs[0]]) + NotDeleted(docs[1..])
  }

  /** `changedSongs`: the data of every change of the batch, in order. */
  function ChangedDocs<D>(changes: seq<Change<D>>): (r: seq<Doc<D>>)
    ensures |r| == |changes| && forall i :: 0 <= i < |changes| ==> r[i] == changes[i].data
  {
    seq(|changes|, i requires 0 <= i < |changes| => changes[i].data)
  }

  /** The stored mark is past the update time of every document of the
      batch, so the next query, for times at or after the mark, starts
      after them. */
  lemma MarkPastBatch<D(!new)>(changes: seq<Change<D>>)
    ensures forall c :: c in changes ==> UpdatedMillis(c.data.updatedAt) < MaxUpdatedAt(ChangedDocs(changes)) + 1
  {
    forall c | c in changes ensures UpdatedMillis(c.data.updatedAt) < MaxUpdatedAt(ChangedDocs(changes)) + 1 {
      var i :| 0 <= i < |changes| && changes[i] == c;
      assert ChangedDocs(changes)[i] == c.data;
      MaxUpdatedAtBound(ChangedDocs(changes), c.data);
    }
  }
}
