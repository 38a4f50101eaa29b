/** Jumping to a letter in the mobile list containers and the mobile songs
    page: the list is scanned for the first item whose sort-key value is a
    string starting at or after the letter, and the container is scrolled to
    that row. Also the rows a container renders for the recycled window. */
module LetterScroll {
  import opened Wrappers
  import opened Strings

  /** `item[sortKey]`: a string, or a value of some other type. */
  datatype SortValue = Text(s: string) | NotText

  /** The row height the songs page passes for its rows. */
  const SongRowHeight := 57

  /** What reading the first character of an empty string and lower-casing
      it throws. */
  const EmptyValueError := "TypeError: Cannot read property 'toLowerCase' of undefined"

  /** `s.toLowerCase()` on the ASCII letters. */
  function Lower(s: string): (r: string)
    ensures |r| == |s| && forall k :: 0 <= k < |s| ==> r[k] == LowerAscii(s[k])
  {
    seq(|s|, k requires 0 <= k < |s| => LowerAscii(s[k]))
  }

  /** `value[0].toLowerCase() >= letter[0]` for a non-empty string value and
      an already lower-cased letter; against a missing `letter[0]` the
      comparison is false. */
  predicate Hit(v: SortValue, letter: string) {
    v.Text? && |v.s| > 0 && |letter| > 0 && LowerAscii(v.s[0]) >= letter[0]
  }

  /** A string value with no first character: the comparison throws. */
  predicate Throws(v: SortValue) {
    v == Text("")
  }

  /** The row the scan from position `from` settles on: the first hit, or
      the last index when nothing after `from` hits; an empty string met
      before any hit throws. */
  function FindTarget(values: seq<SortValue>, letter: string, from: nat): (r: Result<int>)
    requires from <= |values|
    ensures r.Ok? ==>
      || (r.value == |values| - 1 && forall j :: from <= j < |values| ==> !Hit(values[j], letter) && !Throws(values[j]))
      || (from <= r.value < |values| && Hit(values[r.value], letter)
          && forall j :: from <= j < r.value ==> !Hit(values[j], letter) && !Throws(values[j]))
    ensures r.Err? ==> exists j :: from <= j < |values| && Throws(values[j])
                                  && forall l :: from <= l < j ==> !Hit(values[l], letter)
    decreases |values| - from
  {
    if from == |values| then Ok(|values| - 1)
    else
      var v := values[from];
      if Throws(v) then Err(EmptyValueError)
      else if Hit(v, letter) then Ok(from)
      else FindTarget(values, letter, from + 1)
  }

  /** With no empty string in the list the scan cannot throw, and the row
      it picks hits whenever any row does. */
  lemma {:induction false} TargetFound(values: seq<SortValue>, letter: string, from: nat)
    requires from <= |values|
    requires forall j :: from <= j < |values| ==> !Throws(values[j])
    ensures FindTarget(values, letter, from).Ok?
    ensures (exists j :: from <= j < |values| && Hit(values[j], letter)) ==>
              Hit(values[FindTarget(values, letter, from).value], letter)
    decreases |values| - from
  {
    if from < |values| && !Hit(values[from], letter) {
      TargetFound(values, letter, from + 1);
    }
  }

  /** `scrollTo`: nothing happens without items or a container; otherwise
      the scan (a `for` loop that breaks on the first hit, starting from the
      last index) picks a row and the container scrolls to its top. */
  method ScrollTo(items: Option<seq<SortValue>>, hasContainer: bool, letter: string, rowHeight: int)
    returns (r: Result<Option<int>>)
    ensures items.None? || !hasContainer ==> r == Ok(None)
    ensures items.Some? && hasContainer ==>
      var t := FindTarget(items.value, Lower(letter), 0);
      && (t.Err? <==> r.Err?)
      && (t.Ok? ==> r == Ok(Some(t.value * rowHeight)))
  {
    if items.None? {
      return Ok(None);
    }
    if !hasContainer {
      return Ok(None);
    }
    var values := items.value;
    var lower := Lower(letter);
    var index := |values| - 1;
    var i := 0;
    var found := false;
    while i < |values| && !found
      invariant 0 <= i <= |values|
      invariant found ==> FindTarget(values, lower, 0) == Ok(index)
      invariant !found ==> index == |values| - 1 && FindTarget(values, lower, 0) == FindTarget(values, lower, i)
      decreases |values| - i, !found
    {
      var value := values[i];
      if value.Text? {
        if value.s == [] {
          return Err(EmptyValueError);
        }
        if |lower| > 0 && LowerAscii(value.s[0]) >= lower[0] {
          index := i;
          found := true;
        }
      }
      if !found {
        i := i + 1;
      }
    }
    return Ok(Some(index * rowHeight));
  }

  /** `scrollTo` of the songs page: the sort key is the title, always a
      string, and rows are `SongRowHeight` tall. */
  method ScrollToTitle(titles: Option<seq<string>>, hasContainer: bool, letter: string)
    returns (r: Result<Option<int>>)
    ensures titles.None? || !hasContainer ==> r == Ok(None)
    ensures titles.Some? && hasContainer ==>
      var t := FindTarget(Titles(titles.value), Lower(letter), 0);
      && (t.Err? <==> r.Err?)
      && (t.Ok? ==> r == Ok(Some(t.value * SongRowHeight)))
  {
    var values := if titles.Some? then Some(Titles(titles.value)) else None;
    r := ScrollTo(values, hasContainer, letter, SongRowHeight);
  }

  function Titles(titles: seq<string>): (r: seq<SortValue>)
    ensures |r| == |titles| && forall k :: 0 <= k < |r| ==> r[k] == Text(titles[k])
  {
    seq(|titles|, k requires 0 <= k < |titles| => Text(titles[k]))
  }

  /** An empty list scrolls to row -1, one row above the top. */
  lemma EmptyListTarget(letter: string)
    ensures FindTarget([], letter, 0) == Ok(-1)
  {
  }

  /** One rendered row: the item, its index in the rendered slice and its
      index in the whole list. */
  datatype Row<T> = Row(item: T, index: nat, absoluteIndex: int)

  /** `items?.slice(start, end).map((song, i) => ... start + i ...)`. */
  function VisibleRows<T>(items: Option<seq<T>>, start: int, end: int): (r: Option<seq<Row<T>>>)
    ensures r.None? <==> items.None?
    ensures r.Some? ==>
      var slice := JsSlice(items.value, start, end);
      |r.value| == |slice| && forall i :: 0 <= i < |slice| ==> r.value[i] == Row(slice[i], i, start + i)
  {
    match items
    case None => None
    case Some(xs) =>
      var slice := JsSlice(xs, start, end);
      Some(seq(|slice|, i requires 0 <= i < |slice| => Row(slice[i], i, start + i)))
  }

  /** For a window inside the list, the rows are exactly the items from
      `start` up to `end`, and each row's absolute index is its position in
      the list. */
  lemma VisibleRowsWindow<T>(xs: seq<T>, start: int, end: int)
    requires 0 <= start <= end <= |xs|
    ensures var r := VisibleRows(Some(xs), start, end).value;
      && |r| == end - start
      && forall i :: 0 <= i < |r| ==> 0 <= r[i].absoluteIndex < |xs| && r[i].item == xs[r[i].absoluteIndex]
  {
  }
}
