/**
 * The storage summary script: per-namespace file counts and sizes of the
 * object and datastream stores, the largest files of each, and the totals.
 * Walking the directory tree, `os.stat`, the namespace regular expression
 * and the printing are outside the model: each file arrives as a `Listing`
 * with its namespace and size already worked out.
 */
module FedoraSummary {
  import opened Wrappers

  /** A `(size, filename)` tuple of `LargestList.data`. */
  datatype Entry = Entry(size: int, filename: string)

  /** Python's `<` on strings: lexicographic by character code. */
  predicate StrLess(a: string, b: string)
    decreases |a|
  {
    if a == [] then b != []
    else if b == [] then false
    else if a[0] != b[0] then a[0] < b[0]
    else StrLess(a[1..], b[1..])
  }

  lemma {:induction false} StrLessIrreflexive(a: string)
    ensures !StrLess(a, a)
    decreases |a|
  {
    if a != [] {
      StrLessIrreflexive(a[1..]);
    }
  }

  lemma {:induction false} StrLessTransitive(a: string, b: string, c: string)
    requires StrLess(a, b) && StrLess(b, c)
    ensures StrLess(a, c)
    decreases |a|
  {
    if a != [] && a[0] == b[0] && b[0] == c[0] {
      StrLessTransitive(a[1..], b[1..], c[1..]);
    }
  }

  lemma {:induction false} StrLessTotal(a: string, b: string)
    ensures a == b || StrLess(a, b) || StrLess(b, a)
    decreases |a|
  {
    if a != [] && b != [] && a[0] == b[0] {
      StrLessTotal(a[1..], b[1..]);
      if a[1..] == b[1..] {
        assert a == [a[0]] + a[1..] && b == [b[0]] + b[1..];
      }
    }
  }

  /** `a` comes strictly before `b` in `sort(reverse=True)`: `b < a` as tuples. */
  predicate Before(a: Entry, b: Entry) {
    b.size < a.size || (b.size == a.size && StrLess(b.filename, a.filename))
  }

  predicate AtLeast(a: Entry, b: Entry) {
    a == b || Before(a, b)
  }

  lemma AtLeastTransitive(a: Entry, b: Entry, c: Entry)
    requires AtLeast(a, b) && AtLeast(b, c)
    ensures AtLeast(a, c)
  {
    if a != b && b != c && a.size == b.size && b.size == c.size {
      StrLessTransitive(c.filename, b.filename, a.filename);
    }
  }

  lemma AtLeastTotal(a: Entry, b: Entry)
    ensures AtLeast(a, b) || AtLeast(b, a)
  {
    StrLessTotal(a.filename, b.filename);
  }

  /** In descending tuple order. */
  predicate Sorted(s: seq<Entry>) {
    forall i, j | 0 <= i < j < |s| :: AtLeast(s[i], s[j])
  }

  /** A sorted list inserted into. */
  function Insert(s: seq<Entry>, e: Entry): (r: seq<Entry>)
    ensures |r| == |s| + 1
    ensures multiset(r) == multiset(s) + multiset{e}
    decreases |s|
  {
    if s == [] then [e]
    else if AtLeast(e, s[0]) then [e] + s
    else
      assert s == [s[0]] + s[1..];
      [s[0]] + Insert(s[1..], e)
  }

  lemma {:induction false} InsertSorted(s: seq<Entry>, e: Entry)
    requires Sorted(s)
    ensures Sorted(Insert(s, e))
    decreases |s|
  {
    if s != [] {
      if AtLeast(e, s[0]) {
        PrependSorted(e, s);
      } else {
        AtLeastTotal(e, s[0]);
        InsertSorted(s[1..], e);
        assert s == [s[0]] + s[1..];
        ConsSorted(s[0], s[1..], e, Insert(s[1..], e));
      }
    }
  }

  /** An entry at least the head of a sorted list can go in front of it. */
  lemma PrependSorted(e: Entry, s: seq<Entry>)
    requires s != [] && Sorted(s) && AtLeast(e, s[0])
    ensures Sorted([e] + s)
  {
    var r := [e] + s;
    forall i, j | 0 <= i < j < |r|
      ensures AtLeast(r[i], r[j])
    {
      if i == 0 && j > 1 {
        AtLeastTransitive(e, s[0], s[j - 1]);
      }
    }
  }

  /**
   * The head of a sorted list can go in front of any sorted permutation of
   * its rest with an entry no larger than the head added.
   */
  lemma ConsSorted(head: Entry, rest: seq<Entry>, e: Entry, tail: seq<Entry>)
    requires Sorted([head] + rest) && AtLeast(head, e)
    requires Sorted(tail) && multiset(tail) == multiset(rest) + multiset{e}
    ensures Sorted([head] + tail)
  {
    var s := [head] + rest;
    forall x | x in multiset(tail)
      ensures AtLeast(head, x)
    {
      if x != e {
        assert x in multiset(rest);
        var k :| 0 <= k < |rest| && rest[k] == x;
        assert s[0] == head && s[k + 1] == x;
      }
    }
    var r := [head] + tail;
    forall i, j | 0 <= i < j < |r|
      ensures AtLeast(r[i], r[j])
    {
      if i == 0 {
        assert r[j] == tail[j - 1];
        assert r[j] in multiset(tail);
      } else {
        assert r[i] == tail[i - 1] && r[j] == tail[j - 1];
      }
    }
  }

  /** Python's `list.sort(reverse=True)` on `(size, filename)` tuples. */
  function SortDesc(s: seq<Entry>): (r: seq<Entry>)
    ensures |r| == |s|
    ensures multiset(r) == multiset(s)
    decreases |s|
  {
    if s == [] then []
    else
      assert s == s[..|s| - 1] + [s[|s| - 1]];
      Insert(SortDesc(s[..|s| - 1]), s[|s| - 1])
  }

  /** The sort gives a descending permutation of its input. */
  lemma {:induction false} SortDescSorted(s: seq<Entry>)
    ensures Sorted(SortDesc(s))
    decreases |s|
  {
    if s != [] {
      SortDescSorted(s[..|s| - 1]);
      InsertSorted(SortDesc(s[..|s| - 1]), s[|s| - 1]);
    }
  }

  /** The list's state after `add`, and whether `self.data[-1]` raised `IndexError`. */
  datatype AddResult = AddResult(data: seq<Entry>, smallest: int, raised: bool)

  /**
   * `LargestList.add` as written: an entry larger than `smallest` is
   * appended, the list sorted and the last entry popped past `max`;
   * `smallest` becomes the size of the last entry. With `max <= 0` the list
   * is empty after the pop and reading its last entry raises.
   */
  function AddAsWritten(data: seq<Entry>, max: int, smallest: int, e: Entry): AddResult {
    if !(e.size > smallest) then AddResult(data, smallest, false)
    else
      var sorted := SortDesc(data + [e]);
      var kept := if |sorted| > max then sorted[..|sorted| - 1] else sorted;
      if kept == [] then AddResult(kept, smallest, true)
      else AddResult(kept, kept[|kept| - 1].size, false)
  }

  /**
   * The state `LargestList` keeps: sorted, no longer than `max` (and empty
   * when `max` is not positive), and `smallest` the last size, `0` while
   * the list is empty.
   */
  predicate ListInvariant(data: seq<Entry>, max: int, smallest: int) {
    && Sorted(data)
    && (|data| <= max || data == [])
    && (data != [] ==> smallest == data[|data| - 1].size)
    && (data == [] ==> smallest == 0)
  }

  /**
   * After `add` the list is still sorted, bounded and `smallest` is its last
   * size, and it raises only when `max` is not positive; an entry no larger
   * than `smallest` leaves the list as it was.
   */
  lemma AddAsWrittenKeepsInvariant(data: seq<Entry>, max: int, smallest: int, e: Entry)
    requires ListInvariant(data, max, smallest)
    ensures var r := AddAsWritten(data, max, smallest, e);
      ListInvariant(r.data, max, r.smallest) && (r.raised ==> max <= 0)
    ensures e.size <= smallest ==> AddAsWritten(data, max, smallest, e) == AddResult(data, smallest, false)
  {
    if e.size > smallest {
      var sorted := SortDesc(data + [e]);
      var kept := if |sorted| > max then sorted[..|sorted| - 1] else sorted;
      var r := AddAsWritten(data, max, smallest, e);
      assert r.data == kept && r.raised == (kept == []);
      assert r.smallest == if kept == [] then smallest else kept[|kept| - 1].size;
      assert (kept == [] ==> max <= 0 && ListInvariant(kept, max, smallest))
        && (kept != [] ==> ListInvariant(kept, max, kept[|kept| - 1].size)) by {
        SortDescSorted(data + [e]);
        TakenKeepsInvariant(data, max, smallest, e, sorted);
      }
    }
  }

  /**
   * An entry larger than `smallest` is taken and stays, while the list loses
   * at most its former last entry.
   */
  lemma AddAsWrittenTakes(data: seq<Entry>, max: int, smallest: int, e: Entry)
    requires ListInvariant(data, max, smallest) && e.size > smallest && max >= 1
    ensures var r := AddAsWritten(data, max, smallest, e);
      !r.raised && e in r.data && |r.data| == if |data| < max then |data| + 1 else max
  {
    var sorted := SortDesc(data + [e]);
    SortDescSorted(data + [e]);
    TakenKeepsInvariant(data, max, smallest, e, sorted);
    var kept := if |sorted| > max then sorted[..|sorted| - 1] else sorted;
    var r := AddAsWritten(data, max, smallest, e);
    assert r.data == kept && r.raised == (kept == []);
  }

  /** An entry taken by `add`, in terms of any sorted permutation of the list and the entry. */
  lemma TakenKeepsInvariant(data: seq<Entry>, max: int, smallest: int, e: Entry, sorted: seq<Entry>)
    requires ListInvariant(data, max, smallest) && e.size > smallest
    requires Sorted(sorted) && multiset(sorted) == multiset(data) + multiset{e}
    ensures var kept := if |sorted| > max then sorted[..|sorted| - 1] else sorted;
      && (kept == [] ==> max <= 0 && ListInvariant(kept, max, smallest))
      && (kept != [] ==> ListInvariant(kept, max, kept[|kept| - 1].size))
      && (max >= 1 ==> kept != [] && e in kept && |kept| == if |data| < max then |data| + 1 else max)
  {
    assert |sorted| == |multiset(sorted)|;
    if |sorted| > max {
      var kept := sorted[..|sorted| - 1];
      assert Sorted(kept);
      if max >= 1 {
        PopKeepsLarger(data, smallest, e, sorted);
      }
    } else {
      assert e in multiset(sorted);
    }
  }

  /** In a sorted list the last entry is no larger than any entry. */
  lemma SortedLast(s: seq<Entry>, x: Entry)
    requires Sorted(s) && x in s
    ensures s[|s| - 1].size <= x.size
  {
    var m :| 0 <= m < |s| && s[m] == x;
    SortedSizes(s, m, |s| - 1);
  }

  /**
   * Sorting a non-empty list with an entry larger than its last size puts
   * a former entry last, so popping it keeps the new entry.
   */
  lemma PopKeepsLarger(data: seq<Entry>, smallest: int, e: Entry, sorted: seq<Entry>)
    requires data != [] && smallest == data[|data| - 1].size && e.size > smallest
    requires Sorted(sorted) && multiset(sorted) == multiset(data) + multiset{e}
    ensures |sorted| == |data| + 1
    ensures sorted[|sorted| - 1] != e && sorted[|sorted| - 1] in data
    ensures e in sorted[..|sorted| - 1]
  {
    assert |sorted| == |multiset(sorted)|;
    var n := |sorted|;
    var d := data[|data| - 1];
    assert d in multiset(sorted);
    SortedLast(sorted, d);
    var last := sorted[n - 1];
    assert last in multiset(sorted);
    assert last in multiset(data);
    assert e in multiset(sorted);
    var m :| 0 <= m < n && sorted[m] == e;
    assert sorted[..n - 1][m] == e;
  }

  /**
   * The discrepancy: a list of two that holds one entry of size 10 rejects
   * an entry of size 5, although it has room for it; the two largest of
   * {10, 5} are not kept.
   */
  lemma NotFullListRejects()
    ensures var first := AddAsWritten([], 2, 0, Entry(10, "a"));
      first == AddResult([Entry(10, "a")], 10, false)
      && AddAsWritten(first.data, 2, first.smallest, Entry(5, "b")) == first
      && |first.data| < 2
  {
    assert [] + [Entry(10, "a")] == [Entry(10, "a")];
    assert SortDesc([Entry(10, "a")]) == Insert([], Entry(10, "a"));
  }

  /** `LargestList`, as the script has it. */
  class LargestList {
    const max: int
    var data: seq<Entry>
    var smallest: int

    predicate Valid()
      reads this
    {
      ListInvariant(data, max, smallest)
    }

    constructor (numberToStore: int)
      ensures max == numberToStore && data == [] && smallest == 0 && Valid()
    {
      max := numberToStore;
      data := [];
      smallest := 0;
    }

    /** `add(filename, size)`; `raised` reports the `IndexError` of an empty list. */
    method Add(filename: string, size: int) returns (raised: bool)
      requires Valid()
      modifies this
      ensures Valid()
      ensures AddResult(data, smallest, raised) == AddAsWritten(old(data), max, old(smallest), Entry(size, filename))
    {
      AddAsWrittenKeepsInvariant(data, max, smallest, Entry(size, filename));
      var r := AppendSortPop(data, max, smallest, Entry(size, filename));
      data, smallest, raised := r.data, r.smallest, r.raised;
    }
  }

  /**
   * The steps of `LargestList.add` on the list's values: append, sort in
   * place, pop past `max` and read the last size.
   */
  method AppendSortPop(data: seq<Entry>, max: int, smallest: int, e: Entry) returns (r: AddResult)
    ensures r == AddAsWritten(data, max, smallest, e)
  {
    if !(e.size > smallest) {
      return AddResult(data, smallest, false);
    }
    var list := data + [e];
    list := SortDesc(list);
    if |list| > max {
      list := list[..|list| - 1];
    }
    if list == [] {
      return AddResult(list, smallest, true);
    }
    r := AddResult(list, list[|list| - 1].size, false);
  }

  function Min(a: int, b: int): int {
    if a <= b then a else b
  }

  /**
   * `data` holds the `max` largest of the entries `seen` (by size): it is
   * drawn from them, as long as it can be, and no entry left out is larger
   * than any entry kept.
   */
  ghost predicate TopOf(data: seq<Entry>, seen: multiset<Entry>, max: int) {
    && multiset(data) <= seen
    && |data| == Min(max, |seen|)
    && forall x, k | x in seen - multiset(data) && 0 <= k < |data| :: x.size <= data[k].size
  }

  /**
   * `add` as intended: while the list is not full every entry is taken;
   * once it is, only an entry larger than the smallest kept.
   */
  function AddCorrected(data: seq<Entry>, max: int, smallest: int, e: Entry): (r: AddResult)
    requires max >= 1
    ensures !r.raised
  {
    if |data| < max || e.size > smallest then
      var sorted := SortDesc(data + [e]);
      var kept := if |sorted| > max then sorted[..|sorted| - 1] else sorted;
      AddResult(kept, kept[|kept| - 1].size, false)
    else AddResult(data, smallest, false)
  }

  lemma SortedSizes(s: seq<Entry>, i: nat, j: nat)
    requires Sorted(s) && i <= j < |s|
    ensures s[j].size <= s[i].size
  {
  }

  /** A rejected entry is no larger than any kept one: it joins the left-out entries. */
  lemma RejectKeepsTop(data: seq<Entry>, seen: multiset<Entry>, max: int, smallest: int, e: Entry)
    requires max >= 1 && ListInvariant(data, max, smallest) && TopOf(data, seen, max)
    requires |data| >= max && e.size <= smallest
    ensures TopOf(data, seen + multiset{e}, max)
  {
    var seen' := seen + multiset{e};
    forall x, k | x in seen' - multiset(data) && 0 <= k < |data|
      ensures x.size <= data[k].size
    {
      SortedSizes(data, k, |data| - 1);
      if x != e {
        assert x in seen - multiset(data);
      }
    }
  }

  /** While there is room, the list holds every entry seen. */
  lemma RoomKeepsTop(data: seq<Entry>, seen: multiset<Entry>, max: int, smallest: int, e: Entry, sorted: seq<Entry>)
    requires max >= 1 && ListInvariant(data, max, smallest) && TopOf(data, seen, max)
    requires |data| < max
    requires Sorted(sorted) && multiset(sorted) == multiset(data) + multiset{e}
    ensures |sorted| <= max && ListInvariant(sorted, max, sorted[|sorted| - 1].size)
    ensures TopOf(sorted, seen + multiset{e}, max)
  {
    assert |sorted| == |multiset(sorted)|;
    assert multiset(data) == seen by {
      var rest := seen - multiset(data);
      assert seen == multiset(data) + rest;
      assert |rest| == 0;
    }
  }

  /** Popping the last entry of a sorted list with `e` added, counted entry by entry. */
  lemma PopCounts(data: seq<Entry>, e: Entry, sorted: seq<Entry>)
    requires sorted != [] && multiset(sorted) == multiset(data) + multiset{e}
    ensures var kept := sorted[..|sorted| - 1];
      forall x :: multiset(kept)[x] + (if x == sorted[|sorted| - 1] then 1 else 0) == multiset(data)[x] + (if x == e then 1 else 0)
  {
    var last := sorted[|sorted| - 1];
    var kept := sorted[..|sorted| - 1];
    assert sorted == kept + [last];
    forall x
      ensures multiset(kept)[x] + (if x == last then 1 else 0) == multiset(data)[x] + (if x == e then 1 else 0)
    {
      assert (multiset(kept) + multiset{last})[x] == (multiset(data) + multiset{e})[x];
    }
  }

  /**
   * A full list taking a larger entry loses its last entry, which joins the
   * left-out ones and is no larger than any kept.
   */
  lemma FullKeepsTop(data: seq<Entry>, seen: multiset<Entry>, max: int, smallest: int, e: Entry, sorted: seq<Entry>)
    requires max >= 1 && ListInvariant(data, max, smallest) && TopOf(data, seen, max)
    requires |data| >= max && e.size > smallest
    requires Sorted(sorted) && multiset(sorted) == multiset(data) + multiset{e}
    ensures |sorted| == max + 1
    ensures var kept := sorted[..|sorted| - 1];
      ListInvariant(kept, max, kept[|kept| - 1].size) && TopOf(kept, seen + multiset{e}, max)
  {
    PopKeepsLarger(data, smallest, e, sorted);
    PopCounts(data, e, sorted);
    var kept := sorted[..|sorted| - 1];
    assert Sorted(kept);
    FullKeptDrawn(data, seen, e, sorted);
    FullLeftOutSmaller(data, seen, max, e, sorted);
  }

  /** The kept entries are drawn from the ones seen. */
  lemma FullKeptDrawn(data: seq<Entry>, seen: multiset<Entry>, e: Entry, sorted: seq<Entry>)
    requires sorted != [] && multiset(data) <= seen
    requires var kept := sorted[..|sorted| - 1];
      forall x :: multiset(kept)[x] + (if x == sorted[|sorted| - 1] then 1 else 0) == multiset(data)[x] + (if x == e then 1 else 0)
    ensures multiset(sorted[..|sorted| - 1]) <= seen + multiset{e}
  {
    var kept := sorted[..|sorted| - 1];
    forall x
      ensures multiset(kept)[x] <= (seen + multiset{e})[x]
    {
      assert multiset(kept)[x] + (if x == sorted[|sorted| - 1] then 1 else 0) == multiset(data)[x] + (if x == e then 1 else 0);
    }
  }

  /** No entry left out after the pop is larger than a kept one. */
  lemma FullLeftOutSmaller(data: seq<Entry>, seen: multiset<Entry>, max: int, e: Entry, sorted: seq<Entry>)
    requires TopOf(data, seen, max) && Sorted(sorted) && sorted != []
    requires sorted[|sorted| - 1] in data
    requires var kept := sorted[..|sorted| - 1];
      forall x :: multiset(kept)[x] + (if x == sorted[|sorted| - 1] then 1 else 0) == multiset(data)[x] + (if x == e then 1 else 0)
    ensures var kept := sorted[..|sorted| - 1];
      forall x, k | x in (seen + multiset{e}) - multiset(kept) && 0 <= k < |kept| :: x.size <= kept[k].size
  {
    var last := sorted[|sorted| - 1];
    var kept := sorted[..|sorted| - 1];
    forall x, k | x in (seen + multiset{e}) - multiset(kept) && 0 <= k < |kept|
      ensures x.size <= kept[k].size
    {
      SortedSizes(sorted, k, |sorted| - 1);
      if x != last {
        assert multiset(kept)[x] == multiset(data)[x] + (if x == e then 1 else 0);
        assert x in seen - multiset(data);
        var j :| 0 <= j < |data| && data[j] == last;
      }
    }
  }

  /** The corrected `add`, in terms of any sorted permutation of the list and the entry. */
  lemma AddCorrectedSorted(data: seq<Entry>, max: int, smallest: int, e: Entry)
    requires max >= 1
    ensures var sorted := SortDesc(data + [e]);
      && Sorted(sorted) && multiset(sorted) == multiset(data) + multiset{e}
      && AddCorrected(data, max, smallest, e) ==
        if |data| < max || e.size > smallest then
          var kept := if |sorted| > max then sorted[..|sorted| - 1] else sorted;
          AddResult(kept, kept[|kept| - 1].size, false)
        else AddResult(data, smallest, false)
  {
    SortDescSorted(data + [e]);
  }

  /**
   * The intended property: after any sequence of corrected `add`s, `data`
   * holds the `max` largest entries seen, sorted, with `smallest` its last size.
   */
  lemma AddCorrectedKeepsLargest(data: seq<Entry>, seen: multiset<Entry>, max: int, smallest: int, e: Entry)
    requires max >= 1 && ListInvariant(data, max, smallest) && TopOf(data, seen, max)
    ensures var r := AddCorrected(data, max, smallest, e);
      ListInvariant(r.data, max, r.smallest) && TopOf(r.data, seen + multiset{e}, max)
  {
    AddCorrectedSorted(data, max, smallest, e);
    var sorted := SortDesc(data + [e]);
    var r := AddCorrected(data, max, smallest, e);
    if |data| < max {
      RoomKeepsTop(data, seen, max, smallest, e, sorted);
      assert r.data == sorted && r.smallest == sorted[|sorted| - 1].size;
    } else if e.size > smallest {
      FullKeepsTop(data, seen, max, smallest, e, sorted);
      var kept := sorted[..|sorted| - 1];
      assert r.data == kept && r.smallest == kept[|kept| - 1].size;
    } else {
      RejectKeepsTop(data, seen, max, smallest, e);
      assert r.data == data && r.smallest == smallest;
    }
  }

  /** `LargestList` as intended, with the entries offered so far as a ghost record. */
  class CorrectedLargestList {
    const max: int
    var data: seq<Entry>
    var smallest: int
    ghost var seen: multiset<Entry>

    ghost predicate Valid()
      reads this
    {
      max >= 1 && ListInvariant(data, max, smallest) && TopOf(data, seen, max)
    }

    constructor (numberToStore: int)
      requires numberToStore >= 1
      ensures max == numberToStore && data == [] && smallest == 0 && seen == multiset{} && Valid()
    {
      max := numberToStore;
      data := [];
      smallest := 0;
      seen := multiset{};
    }

    method Add(filename: string, size: int)
      requires Valid()
      modifies this
      ensures Valid() && seen == old(seen) + multiset{Entry(size, filename)}
      ensures AddResult(data, smallest, false) == AddCorrected(old(data), max, old(smallest), Entry(size, filename))
    {
      AddCorrectedKeepsLargest(data, seen, max, smallest, Entry(size, filename));
      seen := seen + multiset{Entry(size, filename)};
      var r := AppendSortPopCorrected(data, max, smallest, Entry(size, filename));
      data, smallest := r.data, r.smallest;
    }
  }

  /** The steps of the corrected `add` on the list's values. */
  method AppendSortPopCorrected(data: seq<Entry>, max: int, smallest: int, e: Entry) returns (r: AddResult)
    requires max >= 1
    ensures r == AddCorrected(data, max, smallest, e)
  {
    if !(|data| < max || e.size > smallest) {
      return AddResult(data, smallest, false);
    }
    var list := data + [e];
    list := SortDesc(list);
    if |list| > max {
      list := list[..|list| - 1];
    }
    r := AddResult(list, list[|list| - 1].size, false);
  }

  /** A `NamespaceInfo`: the number of files of a namespace and their total size. */
  datatype NamespaceInfo = NamespaceInfo(count: int, size: int)

  /** A file of a directory listing, with the namespace its name gives and its `st_size`. */
  datatype Listing = Listing(name: string, namespace: string, size: int)

  /** `os.path.join(dirpath, file)` for POSIX paths. */
  function PathJoin(dirpath: string, file: string): string {
    if |file| > 0 && file[0] == '/' then file
    else if dirpath == [] || dirpath[|dirpath| - 1] == '/' then dirpath + file
    else dirpath + "/" + file
  }

  /** The info of a namespace, a fresh `NamespaceInfo()` for one not seen yet. */
  function InfoOf(table: map<string, NamespaceInfo>, ns: string): NamespaceInfo {
    if ns in table then table[ns] else NamespaceInfo(0, 0)
  }

  /** The seen table after counting one more file of its namespace. */
  function Count(table: map<string, NamespaceInfo>, f: Listing): map<string, NamespaceInfo> {
    var x := InfoOf(table, f.namespace);
    table[f.namespace := NamespaceInfo(x.count + 1, x.size + f.size)]
  }

  /** The seen table after counting each listed file. */
  function Tally(table: map<string, NamespaceInfo>, files: seq<Listing>): map<string, NamespaceInfo>
    decreases |files|
  {
    if files == [] then table
    else Count(Tally(table, files[..|files| - 1]), files[|files| - 1])
  }

  /** The number and total size of the listed files of namespace `ns`. */
  function CountIn(files: seq<Listing>, ns: string): nat
    decreases |files|
  {
    if files == [] then 0
    else CountIn(files[..|files| - 1], ns) + (if files[|files| - 1].namespace == ns then 1 else 0)
  }

  function SizeIn(files: seq<Listing>, ns: string): int
    decreases |files|
  {
    if files == [] then 0
    else SizeIn(files[..|files| - 1], ns) + (if files[|files| - 1].namespace == ns then files[|files| - 1].size else 0)
  }

  /**
   * Counting a listing raises each namespace's count by the number of its
   * files and its size by their sizes; the table gains exactly the
   * namespaces of the listing.
   */
  lemma {:induction false} TallyCounts(table: map<string, NamespaceInfo>, files: seq<Listing>, ns: string)
    ensures InfoOf(Tally(table, files), ns) ==
      NamespaceInfo(InfoOf(table, ns).count + CountIn(files, ns), InfoOf(table, ns).size + SizeIn(files, ns))
    ensures ns in Tally(table, files) <==> ns in table || exists k | 0 <= k < |files| :: files[k].namespace == ns
    decreases |files|
  {
    if files != [] {
      var init := files[..|files| - 1];
      TallyCounts(table, init, ns);
      if exists k | 0 <= k < |init| :: init[k].namespace == ns {
        var k :| 0 <= k < |init| && init[k].namespace == ns;
        assert files[k].namespace == ns;
      }
      if exists k | 0 <= k < |files| :: files[k].namespace == ns {
        var k :| 0 <= k < |files| && files[k].namespace == ns;
        if k < |init| {
          assert init[k].namespace == ns;
        }
      }
    }
  }

  /** The `(size, path)` entries a listing offers to the largest-files list. */
  function Offered(dirpath: string, files: seq<Listing>): (r: seq<Entry>)
    ensures |r| == |files|
  {
    seq(|files|, k requires 0 <= k < |files| => Entry(files[k].size, PathJoin(dirpath, files[k].name)))
  }

  /** The largest-files list after offering each entry in turn. */
  function AddAll(r: AddResult, max: int, entries: seq<Entry>): AddResult
    requires max >= 1
    decreases |entries|
  {
    if entries == [] then r
    else
      var before := AddAll(r, max, entries[..|entries| - 1]);
      AddCorrected(before.data, max, before.smallest, entries[|entries| - 1])
  }

  /** What one store's recorder holds: its seen table and its largest-files list. */
  datatype Recorded = Recorded(table: map<string, NamespaceInfo>, list: AddResult)

  /**
   * `update_seen_table` on values: each file is counted, then offered to the
   * as-written `add` under its joined path. An `IndexError` from `add`
   * propagates, so the files after the raising one are neither counted nor
   * offered.
   */
  function RecordAll(start: Recorded, max: int, dirpath: string, files: seq<Listing>): Recorded
    decreases |files|
  {
    if files == [] then start
    else
      var before := RecordAll(start, max, dirpath, files[..|files| - 1]);
      if before.list.raised then before
      else
        var f := files[|files| - 1];
        Recorded(Count(before.table, f),
          AddAsWritten(before.list.data, max, before.list.smallest, Entry(f.size, PathJoin(dirpath, f.name))))
  }

  /** The entries `add` keeps come from the list and the offered entry. */
  lemma AddAsWrittenDrawn(data: seq<Entry>, max: int, smallest: int, e: Entry)
    ensures multiset(AddAsWritten(data, max, smallest, e).data) <= multiset(data) + multiset{e}
  {
    if e.size > smallest {
      var sorted := SortDesc(data + [e]);
      if |sorted| > max {
        assert sorted == sorted[..|sorted| - 1] + [sorted[|sorted| - 1]];
      }
    }
  }

  /**
   * Recording a listing with the as-written list keeps the list's invariant
   * and raises only when the bound is not positive; the entries kept are
   * drawn from the list and the offered files; and when nothing raised, the
   * seen table is the tally of every listed file.
   */
  lemma {:induction false} RecordAllProperties(start: Recorded, max: int, dirpath: string, files: seq<Listing>)
    requires ListInvariant(start.list.data, max, start.list.smallest) && !start.list.raised
    ensures var r := RecordAll(start, max, dirpath, files);
      && ListInvariant(r.list.data, max, r.list.smallest)
      && (r.list.raised ==> max <= 0)
      && multiset(r.list.data) <= multiset(start.list.data) + multiset(Offered(dirpath, files))
      && (!r.list.raised ==> r.table == Tally(start.table, files))
    decreases |files|
  {
    if files != [] {
      var init := files[..|files| - 1];
      var f := files[|files| - 1];
      RecordAllProperties(start, max, dirpath, init);
      var before := RecordAll(start, max, dirpath, init);
      var e := Entry(f.size, PathJoin(dirpath, f.name));
      assert Offered(dirpath, files) == Offered(dirpath, init) + [e];
      if !before.list.raised {
        AddAsWrittenKeepsInvariant(before.list.data, max, before.list.smallest, e);
        AddAsWrittenDrawn(before.list.data, max, before.list.smallest, e);
      }
    }
  }

  /** Once `add` has raised, the rest of the listing changes nothing. */
  lemma {:induction false} RaisedStays(start: Recorded, max: int, dirpath: string, files: seq<Listing>, i: nat)
    requires i <= |files| && RecordAll(start, max, dirpath, files[..i]).list.raised
    ensures RecordAll(start, max, dirpath, files) == RecordAll(start, max, dirpath, files[..i])
    decreases |files| - i
  {
    if i < |files| {
      assert files[..i + 1][..i] == files[..i];
      RaisedStays(start, max, dirpath, files, i + 1);
    } else {
      assert files[..i] == files;
    }
  }

  lemma RecordStep(start: Recorded, max: int, dirpath: string, files: seq<Listing>, i: nat)
    requires i < |files| && !RecordAll(start, max, dirpath, files[..i]).list.raised
    ensures var before := RecordAll(start, max, dirpath, files[..i]);
      RecordAll(start, max, dirpath, files[..i + 1])
        == Recorded(Count(before.table, files[i]),
             AddAsWritten(before.list.data, max, before.list.smallest, Entry(files[i].size, PathJoin(dirpath, files[i].name))))
  {
    assert files[..i + 1][..i] == files[..i];
  }

  /**
   * With the script's bound of 20, a directory holding a file of size 10 and
   * then one of size 5 leaves only the first in the largest-files list.
   */
  lemma RecorderMissesSecondFile()
    ensures RecordAll(Recorded(map[], AddResult([], 0, false)), 20, "d",
      [Listing("a", "ns", 10), Listing("b", "ns", 5)]).list == AddResult([Entry(10, "d/a")], 10, false)
  {
    var files := [Listing("a", "ns", 10), Listing("b", "ns", 5)];
    var start := Recorded(map[], AddResult([], 0, false));
    assert files[..1][..0] == [];
    assert PathJoin("d", "a") == "d/a";
    assert [] + [Entry(10, "d/a")] == [Entry(10, "d/a")];
    assert SortDesc([Entry(10, "d/a")]) == Insert([], Entry(10, "d/a"));
    assert RecordAll(start, 20, "d", files[..1]).list == AddResult([Entry(10, "d/a")], 10, false);
    assert files[..|files| - 1] == files[..1];
  }

  /** `InfoRecorder`: the seen table of one store and its largest files, as the script has them. */
  class InfoRecorder {
    var seenTable: map<string, NamespaceInfo>
    const largestFiles: LargestList

    constructor (largestCount: int)
      ensures seenTable == map[] && fresh(largestFiles) && largestFiles.Valid()
      ensures largestFiles.data == [] && largestFiles.smallest == 0 && largestFiles.max == largestCount
    {
      seenTable := map[];
      largestFiles := new LargestList(largestCount);
    }

    /**
     * The counting half of one file of `update_seen_table`: the `NamespaceInfo`
     * of its namespace, created when missing, counts one more file and its size.
     */
    method CountFile(file: Listing)
      modifies this
      ensures seenTable == Count(old(seenTable), file)
    {
      var x := InfoOf(seenTable, file.namespace);
      seenTable := seenTable[file.namespace := NamespaceInfo(x.count + 1, x.size + file.size)];
    }

    /**
     * `update_seen_table`: each file is counted and its joined path offered
     * to the largest-files list, until `add` raises; `raised` reports the
     * `IndexError` that then leaves the method.
     */
    method UpdateSeenTable(dirpath: string, files: seq<Listing>) returns (raised: bool)
      requires largestFiles.Valid()
      modifies this, largestFiles
      ensures largestFiles.Valid()
      ensures Recorded(seenTable, AddResult(largestFiles.data, largestFiles.smallest, raised))
        == RecordAll(Recorded(old(seenTable), AddResult(old(largestFiles.data), old(largestFiles.smallest), false)),
             largestFiles.max, dirpath, files)
    {
      ghost var start := Recorded(seenTable, AddResult(largestFiles.data, largestFiles.smallest, false));
      raised := false;
      var i := 0;
      assert files[..0] == [];
      while i < |files| && !raised
        invariant 0 <= i <= |files|
        invariant largestFiles.Valid()
        invariant Recorded(seenTable, AddResult(largestFiles.data, largestFiles.smallest, raised))
          == RecordAll(start, largestFiles.max, dirpath, files[..i])
      {
        var file := files[i];
        RecordStep(start, largestFiles.max, dirpath, files, i);
        CountFile(file);
        var fqfn := PathJoin(dirpath, file.name);
        raised := largestFiles.Add(fqfn, file.size);
        i := i + 1;
      }
      if raised {
        RaisedStays(start, largestFiles.max, dirpath, files, i);
      } else {
        assert files[..i] == files;
      }
    }
  }

  /** A recorder whose list is the corrected `add`, for the intended listing of the largest files. */
  class CorrectedInfoRecorder {
    var seenTable: map<string, NamespaceInfo>
    const largestFiles: CorrectedLargestList

    constructor (largestCount: int)
      requires largestCount >= 1
      ensures seenTable == map[] && fresh(largestFiles) && largestFiles.Valid()
      ensures largestFiles.data == [] && largestFiles.max == largestCount && largestFiles.seen == multiset{}
    {
      seenTable := map[];
      largestFiles := new CorrectedLargestList(largestCount);
    }

    /**
     * `update_seen_table` with the corrected list: every file is counted and
     * offered, and the list ends as the largest of all entries offered.
     */
    method UpdateSeenTable(dirpath: string, files: seq<Listing>)
      requires largestFiles.Valid()
      modifies this, largestFiles
      ensures largestFiles.Valid()
      ensures seenTable == Tally(old(seenTable), files)
      ensures largestFiles.seen == old(largestFiles.seen) + multiset(Offered(dirpath, files))
      ensures AddResult(largestFiles.data, largestFiles.smallest, false)
        == AddAll(AddResult(old(largestFiles.data), old(largestFiles.smallest), false), largestFiles.max, Offered(dirpath, files))
    {
      ghost var offered := Offered(dirpath, files);
      ghost var start := AddResult(largestFiles.data, largestFiles.smallest, false);
      var i := 0;
      assert files[..0] == [] && offered[..0] == [];
      while i < |files|
        invariant 0 <= i <= |files|
        invariant largestFiles.Valid()
        invariant seenTable == Tally(old(seenTable), files[..i])
        invariant largestFiles.seen == old(largestFiles.seen) + multiset(offered[..i])
        invariant AddResult(largestFiles.data, largestFiles.smallest, false) == AddAll(start, largestFiles.max, offered[..i])
      {
        var file := files[i];
        ghost var table0, data0, smallest0 := seenTable, largestFiles.data, largestFiles.smallest;
        seenTable := Count(seenTable, file);
        var fqfn := PathJoin(dirpath, file.name);
        assert offered[i] == Entry(file.size, fqfn);
        largestFiles.Add(fqfn, file.size);
        TallyStep(old(seenTable), files, i, table0);
        AddAllStep(start, largestFiles.max, offered, i, data0, smallest0);
        i := i + 1;
      }
      assert files[..i] == files;
      assert offered[..i] == offered;
    }
  }

  lemma TallyStep(table: map<string, NamespaceInfo>, files: seq<Listing>, i: nat, before: map<string, NamespaceInfo>)
    requires i < |files| && before == Tally(table, files[..i])
    ensures Tally(table, files[..i + 1]) == Count(before, files[i])
  {
    assert files[..i + 1][..i] == files[..i];
  }

  lemma AddAllStep(r: AddResult, max: int, entries: seq<Entry>, i: nat, data: seq<Entry>, smallest: int)
    requires max >= 1 && i < |entries|
    requires AddAll(r, max, entries[..i]) == AddResult(data, smallest, false)
    ensures AddAll(r, max, entries[..i + 1]) == AddCorrected(data, max, smallest, entries[i])
    ensures multiset(entries[..i + 1]) == multiset(entries[..i]) + multiset{entries[i]}
  {
    assert entries[..i + 1][..i] == entries[..i];
    assert entries[..i + 1] == entries[..i] + [entries[i]];
  }

  /** The pair `combine_namespace_dicts` gives a namespace: its object-store and datastream-store info. */
  datatype Both = Both(obj: Option<NamespaceInfo>, ds: Option<NamespaceInfo>)

  /**
   * `combine_namespace_dicts`: every left key with `(l, None)`, then every
   * right key either completing a left pair or giving `(None, r)`.
   */
  method CombineNamespaceDicts(left: map<string, NamespaceInfo>, right: map<string, NamespaceInfo>)
    returns (result: map<string, Both>)
    ensures result.Keys == left.Keys + right.Keys
    ensures forall k | k in left && k !in right :: result[k] == Both(Some(left[k]), None)
    ensures forall k | k in left && k in right :: result[k] == Both(Some(left[k]), Some(right[k]))
    ensures forall k | k !in left && k in right :: result[k] == Both(None, Some(right[k]))
  {
    result := map[];
    var todo := left.Keys;
    while todo != {}
      invariant todo <= left.Keys
      invariant result.Keys == left.Keys - todo
      invariant forall k | k in result :: result[k] == Both(Some(left[k]), None)
      decreases todo
    {
      var k :| k in todo;
      result := result[k := Both(Some(left[k]), None)];
      todo := todo - {k};
    }
    var rest := right.Keys;
    while rest != {}
      invariant rest <= right.Keys
      invariant result.Keys == left.Keys + (right.Keys - rest)
      invariant forall k | k in result ::
        result[k] == Both(if k in left then Some(left[k]) else None, if k in right && k !in rest then Some(right[k]) else None)
      decreases rest
    {
      var k :| k in rest;
      if k in result {
        var x := result[k].obj;
        result := result[k := Both(x, Some(right[k]))];
      } else {
        result := result[k := Both(None, Some(right[k]))];
      }
      rest := rest - {k};
    }
  }

  /** What a namespace pair adds to the totals, a missing side counting as empty. */
  function Sides(t: Both): (NamespaceInfo, NamespaceInfo) {
    (t.obj.GetOr(NamespaceInfo(0, 0)), t.ds.GetOr(NamespaceInfo(0, 0)))
  }

  /** `TotalCounts`: running totals over the namespaces. */
  class TotalCounts {
    var objCount: int
    var fileCount: int
    var size: int

    constructor ()
      ensures objCount == 0 && fileCount == 0 && size == 0
    {
      objCount, fileCount, size := 0, 0, 0;
    }

    /** `update_total_counts`. */
    method UpdateTotalCounts(t: Both)
      modifies this
      ensures objCount == old(objCount) + Sides(t).0.count
      ensures fileCount == old(fileCount) + Sides(t).0.count + Sides(t).1.count
      ensures size == old(size) + Sides(t).0.size + Sides(t).1.size
    {
      var obj := if t.obj.None? then NamespaceInfo(0, 0) else t.obj.value;
      var ds := if t.ds.None? then NamespaceInfo(0, 0) else t.ds.value;
      objCount := objCount + obj.count;
      fileCount := fileCount + obj.count + ds.count;
      size := size + obj.size + ds.size;
    }
  }

  /** The sum of the counts, and of the sizes, of the namespaces `keys` in a table. */
  function CountSum(table: map<string, NamespaceInfo>, keys: seq<string>): int
    decreases |keys|
  {
    if keys == [] then 0 else CountSum(table, keys[..|keys| - 1]) + InfoOf(table, keys[|keys| - 1]).count
  }

  function SizeSum(table: map<string, NamespaceInfo>, keys: seq<string>): int
    decreases |keys|
  {
    if keys == [] then 0 else SizeSum(table, keys[..|keys| - 1]) + InfoOf(table, keys[|keys| - 1]).size
  }

  /** The totals after `update_total_counts` on each key's pair in turn. */
  function Totals(both: map<string, Both>, keys: seq<string>): (int, int, int)
    requires forall k | k in keys :: k in both
    decreases |keys|
  {
    if keys == [] then (0, 0, 0)
    else
      var (o, f, s) := Totals(both, keys[..|keys| - 1]);
      var (obj, ds) := Sides(both[keys[|keys| - 1]]);
      (o + obj.count, f + obj.count + ds.count, s + obj.size + ds.size)
  }

  /**
   * Over the combined table, the totals are the object store's count, the
   * two stores' counts together, and their sizes together.
   */
  lemma {:induction false} TotalsOfCombined(left: map<string, NamespaceInfo>, right: map<string, NamespaceInfo>,
                                            both: map<string, Both>, keys: seq<string>)
    requires both.Keys == left.Keys + right.Keys
    requires forall k | k in both :: both[k] == Both(if k in left then Some(left[k]) else None, if k in right then Some(right[k]) else None)
    requires forall k | k in keys :: k in both
    ensures Totals(both, keys) == (CountSum(left, keys), CountSum(left, keys) + CountSum(right, keys), SizeSum(left, keys) + SizeSum(right, keys))
    decreases |keys|
  {
    if keys != [] {
      TotalsOfCombined(left, right, both, keys[..|keys| - 1]);
    }
  }
}
