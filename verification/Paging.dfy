/** Pages over the two planes as one order: each leg is ordered and cut on its own, the
    legs are merged, and the merge is cut again. */
module Paging {

  import opened Ordering

  datatype Row = Row(createdAt: int, id: string)

  /** Newest first, then by id. */
  predicate RowAtMost(a: Row, b: Row) {
    a.createdAt > b.createdAt || (a.createdAt == b.createdAt && AtMost(a.id, b.id))
  }

  lemma {:induction false} RowsOrdered()
    ensures IsOrder(RowAtMost)
  {
    IdsOrdered();
    forall a, b ensures (RowAtMost(a, b) || RowAtMost(b, a)) && (RowAtMost(a, b) && RowAtMost(b, a) ==> a == b) {
      BelowTotal(a.id, b.id);
    }
    forall a, b, c | RowAtMost(a, b) && RowAtMost(b, c) ensures RowAtMost(a, c) {
      assert AtMost(a.id, b.id) && AtMost(b.id, c.id) ==> AtMost(a.id, c.id);
    }
  }

  /** NEWEST FIRST: of any list of rows the first in the order was created no earlier than any
      other, and has the lowest id of those created with it. */
  lemma {:induction false} NewestFirst(rows: seq<Row>, r: Row)
    requires r in rows
    ensures var first := Sort(RowAtMost, rows);
            && first != [] && first[0] in rows && first[0].createdAt >= r.createdAt
            && (first[0].createdAt == r.createdAt ==> first[0].id == r.id || AtMost(first[0].id, r.id))
  {
    RowsOrdered();
    SortSorts(RowAtMost, rows);
    var s := Sort(RowAtMost, rows);
    assert r in multiset(s);
    var i :| 0 <= i < |s| && s[i] == r;
    assert s[0] in multiset(rows);
  }

  /** A limit of zero is no limit. */
  function Cut<T>(xs: seq<T>, n: nat): seq<T> {
    if n == 0 || |xs| <= n then xs else xs[..n]
  }

  // ---------------------------------------------------------------- cutting before and after a merge

  /** A row no smaller than the last of the first n leaves the first n alone. */
  lemma {:induction false} LateRowIsCut<T(!new)>(le: (T, T) -> bool, s: seq<T>, r: T, n: nat)
    requires IsOrder(le) && Sorted(le, s) && 0 < n <= |s| && le(s[n - 1], r)
    ensures |Place(le, r, s)| == |s| + 1 && Place(le, r, s)[..n] == s[..n]
    decreases |s|
  {
    PlaceLength(le, r, s);
    if le(r, s[0]) {
      assert n == 1 || le(s[0], s[n - 1]);
      assert s[0] == r;
      forall i | 0 <= i < n ensures ([r] + s)[i] == s[i] {
        assert i == 0 || (le(s[0], s[i]) && (i == n - 1 || le(s[i], s[n - 1])));
        assert i == 0 || (le(s[i - 1], s[n - 1]) || i - 1 == n - 1);
        assert s[i] == r && (i > 0 ==> s[i - 1] == r) by {
          assert le(r, s[i]) && le(s[i], r);
        }
      }
    } else if n > 1 {
      assert s == [s[0]] + s[1..] && s[1..][n - 2] == s[n - 1];
      LateRowIsCut(le, s[1..], r, n - 1);
      assert s[..n] == [s[0]] + s[1..][..n - 1];
      assert Place(le, r, s)[..n] == [s[0]] + Place(le, r, s[1..])[..n - 1];
    }
  }

  lemma {:induction false} PlaceLength<T>(le: (T, T) -> bool, x: T, s: seq<T>)
    ensures |Place(le, x, s)| == |s| + 1
  {
    if s != [] && !le(x, s[0]) { PlaceLength(le, x, s[1..]); }
  }

  /** With n rows at or before r, the n-th row of the order is at or before r. */
  lemma {:induction false} NthIsEarly<T(!new)>(le: (T, T) -> bool, s: seq<T>, t: seq<T>, r: T)
    requires IsOrder(le) && Sorted(le, s) && t != [] && multiset(t) <= multiset(s) && forall x :: x in t ==> le(x, r)
    ensures |t| <= |s| && le(s[|t| - 1], r)
  {
    var n := |t|;
    assert |multiset(t)| == n && |multiset(s)| == |s|;
    MultisetSize(multiset(t), multiset(s));
    if !le(s[n - 1], r) {
      assert s == s[..n - 1] + s[n - 1..] && |multiset(s[..n - 1])| == n - 1;
      forall x | x in multiset(t) ensures multiset(t)[x] <= multiset(s[..n - 1])[x] {
        assert x in t;
        assert forall i :: n - 1 <= i < |s| ==> s[i] != x;
        assert x !in s[n - 1..];
      }
      MultisetSize(multiset(t), multiset(s[..n - 1]));
    }
  }

  lemma {:induction false} MultisetSize<T>(a: multiset<T>, b: multiset<T>)
    requires a <= b
    ensures |a| <= |b|
    decreases |a|
  {
    assert b == a + (b - a);
  }

  /** One late row leaves the first n alone. */
  lemma {:induction false} LateRow<T(!new)>(le: (T, T) -> bool, more: seq<T>, early: seq<T>, r: T, all: seq<T>)
    requires IsOrder(le) && early != [] && multiset(early) <= multiset(more) && (forall x :: x in early ==> le(x, r))
    requires multiset(all) == multiset(more) + multiset{r} && |early| <= |Sort(le, more)|
    ensures |early| <= |Sort(le, all)| && Sort(le, all)[..|early|] == Sort(le, more)[..|early|]
  {
    SortSorts(le, more);
    LatePlaced(le, Sort(le, more), early, r);
    SortAdds(le, more, r, all);
  }

  lemma {:induction false} LatePlaced<T(!new)>(le: (T, T) -> bool, s: seq<T>, early: seq<T>, r: T)
    requires IsOrder(le) && Sorted(le, s) && early != [] && multiset(early) <= multiset(s) &&
             (forall x :: x in early ==> le(x, r))
    ensures |early| <= |s| && |early| <= |Place(le, r, s)| && Place(le, r, s)[..|early|] == s[..|early|]
  {
    NthIsEarly(le, s, early, r);
    LateRowIsCut(le, s, r, |early|);
  }

  /** Adding late rows one at a time never changes the first n. */
  lemma {:induction false} LateRowsAreCut<T(!new)>(le: (T, T) -> bool, base: seq<T>, early: seq<T>, late: seq<T>)
    requires IsOrder(le) && early != [] && multiset(early) <= multiset(base)
    requires forall x, r :: x in early && r in late ==> le(x, r)
    ensures |early| <= |Sort(le, base)| && |early| <= |Sort(le, base + late)|
    ensures Sort(le, base + late)[..|early|] == Sort(le, base)[..|early|]
    decreases |late|
  {
    SortLength(le, base);
    assert |multiset(early)| == |early| && |multiset(base)| == |base|;
    MultisetSize(multiset(early), multiset(base));
    if late == [] {
      assert base + late == base;
    } else {
      var r, rest := late[0], late[1..];
      assert late == [r] + rest && r in late;
      LateRowsAreCut(le, base, early, rest);
      LateRow(le, base + rest, early, r, base + late);
    }
  }

  lemma {:induction false} SortAdds<T(!new)>(le: (T, T) -> bool, xs: seq<T>, r: T, ys: seq<T>)
    requires IsOrder(le) && multiset(ys) == multiset(xs) + multiset{r}
    ensures Sort(le, ys) == Place(le, r, Sort(le, xs))
  {
    SortSorts(le, xs);
    SortSorts(le, ys);
    PlaceSorts(le, r, Sort(le, xs));
    SortedUnique(le, Sort(le, ys), Place(le, r, Sort(le, xs)));
  }

  lemma {:induction false} SortLength<T(!new)>(le: (T, T) -> bool, xs: seq<T>)
    requires IsOrder(le)
    ensures |Sort(le, xs)| == |xs|
  {
    SortSorts(le, xs);
    assert |multiset(xs)| == |xs| && |multiset(Sort(le, xs))| == |Sort(le, xs)|;
  }

  /** The order is a function of the rows, however they are listed. */
  lemma {:induction false} SortDepends<T(!new)>(le: (T, T) -> bool, xs: seq<T>, ys: seq<T>)
    requires IsOrder(le) && multiset(xs) == multiset(ys)
    ensures Sort(le, xs) == Sort(le, ys)
  {
    SortSorts(le, xs);
    SortSorts(le, ys);
    SortedUnique(le, Sort(le, xs), Sort(le, ys));
  }

  lemma {:induction false} EarlyIsBelow<T(!new)>(le: (T, T) -> bool, s: seq<T>, n: nat)
    requires Sorted(le, s) && n <= |s|
    ensures forall x, r :: x in s[..n] && r in s[n..] ==> le(x, r)
  {
    forall x, r | x in s[..n] && r in s[n..] ensures le(x, r) {
      var i :| 0 <= i < n && s[i] == x;
      var j :| n <= j < |s| && s[j] == r;
      assert le(s[i], s[j]);
    }
  }

  /** What one leg cuts away never reaches the merged page. */
  lemma {:induction false} LegCutIsFree<T(!new)>(le: (T, T) -> bool, leg: seq<T>, other: seq<T>, n: nat)
    requires IsOrder(le) && n > 0
    ensures Cut(Sort(le, Cut(Sort(le, leg), n) + other), n) == Cut(Sort(le, leg + other), n)
  {
    var s := Sort(le, leg);
    SortSorts(le, leg);
    SortLength(le, leg);
    if |leg| <= n {
      assert multiset(s + other) == multiset(leg + other);
      SortDepends(le, s + other, leg + other);
    } else {
      var early, late := s[..n], s[n..];
      assert s == early + late;
      assert multiset(early + other + late) == multiset(leg + other);
      SortDepends(le, early + other + late, leg + other);
      EarlyIsBelow(le, s, n);
      LateRowsAreCut(le, early + other, early, late);
      SortLength(le, early + other);
      SortLength(le, leg + other);
    }
  }

  /** CUTTING THE LEGS FIRST IS FREE: two ordered legs each cut to n, merged and cut again,
      are the first n rows of the planes taken as one table. */
  lemma {:induction false} MergedPageIsOneOrder<T(!new)>(le: (T, T) -> bool, issues: seq<T>, wisps: seq<T>, n: nat)
    requires IsOrder(le)
    ensures Cut(Sort(le, Cut(Sort(le, issues), n) + Cut(Sort(le, wisps), n)), n) == Cut(Sort(le, issues + wisps), n)
  {
    var a, b := Cut(Sort(le, issues), n), Cut(Sort(le, wisps), n);
    SortSorts(le, issues);
    SortSorts(le, wisps);
    if n == 0 {
      assert multiset(a + b) == multiset(issues + wisps);
      SortDepends(le, a + b, issues + wisps);
    } else {
      LegCutIsFree(le, issues, b, n);
      LegCutIsFree(le, wisps, issues, n);
      assert multiset(issues + b) == multiset(b + issues);
      SortDepends(le, issues + b, b + issues);
      assert multiset(wisps + issues) == multiset(issues + wisps);
      SortDepends(le, wisps + issues, issues + wisps);
    }
  }

  // ---------------------------------------------------------------- the keyset walk

  /** Strictly after the position. */
  predicate IsAfter(p: Row, r: Row) {
    p != r && RowAtMost(p, r)
  }

  function After(p: Row, rows: seq<Row>): seq<Row> {
    if rows == [] then [] else (if IsAfter(p, rows[0]) then [rows[0]] else []) + After(p, rows[1..])
  }

  lemma {:induction false} AfterSplits(p: Row, a: seq<Row>, b: seq<Row>)
    ensures After(p, a + b) == After(p, a) + After(p, b)
  {
    if a == [] {
      assert a + b == b;
    } else {
      assert (a + b)[1..] == a[1..] + b;
      AfterSplits(p, a[1..], b);
    }
  }

  lemma {:induction false} AfterNone(p: Row, rows: seq<Row>)
    requires forall r :: r in rows ==> !IsAfter(p, r)
    ensures After(p, rows) == []
  {
    if rows != [] { AfterNone(p, rows[1..]); }
  }

  lemma {:induction false} AfterAll(p: Row, rows: seq<Row>)
    requires forall r :: r in rows ==> IsAfter(p, r)
    ensures After(p, rows) == rows
  {
    if rows != [] { AfterAll(p, rows[1..]); }
  }

  ghost predicate Distinctly(rows: seq<Row>) {
    Sorted(RowAtMost, rows) && forall i, j :: 0 <= i < j < |rows| ==> rows[i] != rows[j]
  }

  /** What lies after the k-th row of the order is the rest of it. */
  lemma {:induction false} AfterIsSuffix(rows: seq<Row>, k: nat)
    requires Distinctly(rows) && 0 < k <= |rows|
    ensures After(rows[k - 1], rows) == rows[k..]
  {
    var p := rows[k - 1];
    RowsOrdered();
    assert rows == rows[..k] + rows[k..];
    AfterSplits(p, rows[..k], rows[k..]);
    forall r | r in rows[..k] ensures !IsAfter(p, r) {
      var i :| 0 <= i < k && rows[i] == r;
      assert i == k - 1 || RowAtMost(r, p);
    }
    AfterNone(p, rows[..k]);
    forall r | r in rows[k..] ensures IsAfter(p, r) {
      var i :| 0 <= i < |rows[k..]| && rows[k..][i] == r;
      assert rows[k + i] == r;
    }
    AfterAll(p, rows[k..]);
  }

  lemma {:induction false} AfterCounts(p: Row, rows: seq<Row>, r: Row)
    ensures multiset(After(p, rows))[r] == if IsAfter(p, r) then multiset(rows)[r] else 0
  {
    if rows != [] {
      assert rows == [rows[0]] + rows[1..];
      AfterCounts(p, rows[1..], r);
    }
  }

  lemma {:induction false} AfterSorted(p: Row, rows: seq<Row>)
    requires Sorted(RowAtMost, rows)
    ensures Sorted(RowAtMost, After(p, rows)) && forall r :: r in After(p, rows) ==> r in rows
  {
    if rows != [] {
      AfterSorted(p, rows[1..]);
      assert rows == [rows[0]] + rows[1..];
      forall r | r in rows[1..] ensures RowAtMost(rows[0], r) {
        var i :| 0 <= i < |rows[1..]| && rows[1..][i] == r;
        assert rows[i + 1] == r;
      }
    }
  }

  /** Filtering by position and ordering commute. */
  lemma {:induction false} AfterCommutes(p: Row, rows: seq<Row>)
    ensures Sort(RowAtMost, After(p, rows)) == After(p, Sort(RowAtMost, rows))
  {
    RowsOrdered();
    SortSorts(RowAtMost, rows);
    SortSorts(RowAtMost, After(p, rows));
    AfterSorted(p, Sort(RowAtMost, rows));
    forall r ensures multiset(After(p, rows))[r] == multiset(After(p, Sort(RowAtMost, rows)))[r] {
      AfterCounts(p, rows, r);
      AfterCounts(p, Sort(RowAtMost, rows), r);
    }
    SortedUnique(RowAtMost, Sort(RowAtMost, After(p, rows)), After(p, Sort(RowAtMost, rows)));
  }

  /** One page after a position: the position is applied to both legs. */
  function PageAfter(issues: seq<Row>, wisps: seq<Row>, p: Row, n: nat): seq<Row> {
    Cut(Sort(RowAtMost, Cut(Sort(RowAtMost, After(p, issues)), n) + Cut(Sort(RowAtMost, After(p, wisps)), n)), n)
  }

  function FirstPage(issues: seq<Row>, wisps: seq<Row>, n: nat): seq<Row> {
    Cut(Sort(RowAtMost, Cut(Sort(RowAtMost, issues), n) + Cut(Sort(RowAtMost, wisps), n)), n)
  }

  lemma {:induction false} PageIsSlice(issues: seq<Row>, wisps: seq<Row>, k: nat, n: nat)
    requires Distinctly(Sort(RowAtMost, issues + wisps)) && 0 < k <= |Sort(RowAtMost, issues + wisps)|
    ensures PageAfter(issues, wisps, Sort(RowAtMost, issues + wisps)[k - 1], n) ==
            Cut(Sort(RowAtMost, issues + wisps)[k..], n)
  {
    var full := Sort(RowAtMost, issues + wisps);
    var p := full[k - 1];
    RowsOrdered();
    MergedPageIsOneOrder(RowAtMost, After(p, issues), After(p, wisps), n);
    AfterSplits(p, issues, wisps);
    AfterCommutes(p, issues + wisps);
    AfterIsSuffix(full, k);
  }

  /** THE KEYSET WALK DROPS AND REPEATS NOTHING: pages of n, each taken after the last row
      of the one before, concatenate to the whole answer in order. */
  method WalkPages(issues: seq<Row>, wisps: seq<Row>, n: nat) returns (all: seq<Row>)
    requires n > 0 && forall i, j :: 0 <= i < j < |issues + wisps| ==> (issues + wisps)[i] != (issues + wisps)[j]
    ensures all == Sort(RowAtMost, issues + wisps)
  {
    ghost var full := Sort(RowAtMost, issues + wisps);
    RowsOrdered();
    DistinctSort(issues + wisps);
    MergedPageIsOneOrder(RowAtMost, issues, wisps, n);
    var page := FirstPage(issues, wisps, n);
    all := [];
    while page != []
      invariant |all| <= |full| && all == full[..|all|] && page == Cut(full[|all|..], n)
      decreases |full| - |all|
    {
      all := all + page;
      PageIsSlice(issues, wisps, |all|, n);
      page := PageAfter(issues, wisps, all[|all| - 1], n);
    }
  }

  lemma {:induction false} DistinctSort(rows: seq<Row>)
    requires forall i, j :: 0 <= i < j < |rows| ==> rows[i] != rows[j]
    ensures Distinctly(Sort(RowAtMost, rows))
  {
    RowsOrdered();
    SortSorts(RowAtMost, rows);
    var s := Sort(RowAtMost, rows);
    forall i, j | 0 <= i < j < |s| ensures s[i] != s[j] {
      if s[i] == s[j] {
        Once(rows, s[i]);
        Twice(s, i, j);
      }
    }
  }

  lemma {:induction false} Twice(s: seq<Row>, i: nat, j: nat)
    requires i < j < |s| && s[i] == s[j]
    ensures multiset(s)[s[i]] >= 2
  {
    assert s == s[..j] + s[j..];
    assert s[..j][i] in s[..j] && s[j..][0] in s[j..];
  }

  lemma {:induction false} Once(rows: seq<Row>, r: Row)
    requires forall i, j :: 0 <= i < j < |rows| ==> rows[i] != rows[j]
    ensures multiset(rows)[r] <= 1
  {
    if rows != [] {
      assert rows == [rows[0]] + rows[1..];
      Once(rows[1..], r);
      if rows[0] == r { assert r !in rows[1..]; }
    }
  }

  // ---------------------------------------------------------------- offset pages

  /** A slice of an answer. */
  function Slice<T>(full: seq<T>, offset: nat, n: nat): seq<T> {
    if offset >= |full| then [] else Cut(full[offset..], n)
  }

  /** Row i of a slice is row offset + i of the answer; it has n rows, or as many as remain, and
      all that remain when n is zero. */
  lemma {:induction false} SliceMeans<T>(full: seq<T>, offset: nat, n: nat)
    ensures var s, remain := Slice(full, offset, n), if offset >= |full| then 0 else |full| - offset;
            && |s| == (if n == 0 || remain <= n then remain else n)
            && forall i :: 0 <= i < |s| ==> s[i] == full[offset + i]
  {
  }

  /** The query's bound is widened to cover the rows the page skips and one probe row more;
      each leg is cut to it, the merge is cut to it, and only then are rows skipped and the
      page cut. The second result says whether rows remain after the page. */
  function OffsetPage<T>(le: (T, T) -> bool, issues: seq<T>, wisps: seq<T>, offset: nat, n: nat): (seq<T>, bool) {
    var bound := if n == 0 then 0 else n + offset + 1;
    var merged := Cut(Sort(le, Cut(Sort(le, issues), bound) + Cut(Sort(le, wisps), bound)), bound);
    var displayed := Sort(le, merged);
    var rest := if offset >= |displayed| then [] else displayed[offset..];
    (Cut(rest, n), n > 0 && |rest| > n)
  }

  lemma {:induction false} SortedStays<T(!new)>(le: (T, T) -> bool, xs: seq<T>)
    requires IsOrder(le) && Sorted(le, xs)
    ensures Sort(le, xs) == xs
  {
    SortSorts(le, xs);
    SortedUnique(le, Sort(le, xs), xs);
  }

  /** Skipping and cutting needs no more of an answer than the rows skipped, the page and one more. */
  lemma {:induction false} CutThenSkip<T>(full: seq<T>, offset: nat, n: nat)
    ensures var cut := if n == 0 then full else Cut(full, n + offset + 1);
            && Slice(cut, offset, n) == Slice(full, offset, n)
            && (n > 0 ==> (offset + n < |cut| <==> offset + n < |full|))
  {
    if n > 0 && n + offset + 1 < |full| {
      assert full[..n + offset + 1][offset..][..n] == full[offset..][..n];
    }
  }

  /** AN OFFSET PAGE IS A SLICE of the planes taken as one table in the order asked for,
      whichever total order that is, and it reports more exactly when rows remain. */
  lemma {:induction false} OffsetPageIsSlice<T(!new)>(le: (T, T) -> bool, issues: seq<T>, wisps: seq<T>, offset: nat,
                                                      n: nat)
    requires IsOrder(le)
    ensures var full := Sort(le, issues + wisps);
            && OffsetPage(le, issues, wisps, offset, n).0 == Slice(full, offset, n)
            && (OffsetPage(le, issues, wisps, offset, n).1 <==> n > 0 && offset + n < |full|)
  {
    var full := Sort(le, issues + wisps);
    var bound := if n == 0 then 0 else n + offset + 1;
    MergedPageIsOneOrder(le, issues, wisps, bound);
    SortSorts(le, issues + wisps);
    SortedStays(le, Cut(full, bound));
    CutThenSkip(full, offset, n);
  }
}
