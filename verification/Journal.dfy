/** The mutation journal: a counter that only grows, rows that only a prefix prune
    removes, and a page read that must never lose a record silently. */
module Journal {

  import opened Results

  datatype Entry = Entry(ts: int, op: string, issue: string)

  /** Head is the highest number ever assigned; rows holds what is still retained. */
  datatype Feed = Feed(head: int, rows: map<int, Entry>)

  datatype Read =
    | Page(rows: seq<(int, Entry)>, head: int)
    | Truncated(since: int, floor: int, head: int)

  ghost predicate Valid(j: Feed) {
    0 <= j.head && forall s :: s in j.rows ==> 1 <= s <= j.head
  }

  /** What the store's own prune leaves: everything from some floor up. */
  ghost predicate PrefixPruned(j: Feed) {
    Valid(j) && exists floor :: IsFloor(j, floor)
  }

  ghost predicate IsFloor(j: Feed, floor: int) {
    1 <= floor <= j.head + 1 && forall s :: s in j.rows <==> floor <= s <= j.head
  }

  // ---------------------------------------------------------------- the page read

  /** Up to n retained rows above since, in order. */
  function RowsAfter(j: Feed, since: int, n: nat): seq<(int, Entry)>
    decreases if since < j.head then j.head - since else 0
  {
    if since >= j.head || n == 0 then []
    else if since + 1 in j.rows then [(since + 1, j.rows[since + 1])] + RowsAfter(j, since + 1, n - 1)
    else RowsAfter(j, since + 1, n)
  }

  /** A limit of zero is no limit. */
  function Cap(j: Feed, limit: int): nat {
    if limit > 0 then limit else |j.rows|
  }

  function FirstGap(rows: seq<(int, Entry)>, i: nat): nat
    requires 1 <= i <= |rows|
    decreases |rows| - i
  {
    if i == |rows| then 0 else if rows[i].0 != rows[i - 1].0 + 1 then i else FirstGap(rows, i + 1)
  }

  method FirstSeqGap(rows: seq<(int, Entry)>) returns (at: nat)
    requires rows != []
    ensures at == FirstGap(rows, 1)
  {
    var i := 1;
    while i < |rows|
      invariant 1 <= i <= |rows| && FirstGap(rows, 1) == FirstGap(rows, i)
    {
      if rows[i].0 != rows[i - 1].0 + 1 { return i; }
      i := i + 1;
    }
    return 0;
  }

  function Verdict(since: int, rows: seq<(int, Entry)>, head: int): Read {
    if rows == [] then (if since >= head then Page([], head) else Truncated(since, head + 1, head))
    else if rows[0].0 != since + 1 then Truncated(since, rows[0].0, head)
    else
      var gap := FirstGap(rows, 1);
      if 0 < gap < |rows| then Truncated(rows[gap - 1].0, rows[gap].0, head) else Page(rows, head)
  }

  function ReadPage(j: Feed, since: int, limit: int): Read {
    Verdict(since, RowsAfter(j, since, Cap(j, limit)), j.head)
  }

  // ---------------------------------------------------------------- what a read says

  /** No retained row strictly between a and b. */
  ghost predicate Bare(j: Feed, a: int, b: int) {
    forall s :: a < s < b ==> s !in j.rows
  }

  /** Every number strictly above a and up to b is retained. */
  ghost predicate Full(j: Feed, a: int, b: int) {
    forall s :: a < s <= b ==> s in j.rows
  }

  /** The rows a+1 .. a+|rows|, as stored. */
  predicate Continues(j: Feed, a: int, rows: seq<(int, Entry)>) {
    forall i :: 0 <= i < |rows| ==> rows[i].0 == a + 1 + i && rows[i].0 in j.rows && rows[i].1 == j.rows[rows[i].0]
  }

  /** Ascending, retained, above a, with nothing retained skipped in between. */
  ghost predicate Listing(j: Feed, a: int, rows: seq<(int, Entry)>)
    decreases |rows|
  {
    rows == [] ||
    (&& a < rows[0].0 && rows[0].0 in j.rows && rows[0].1 == j.rows[rows[0].0] && Bare(j, a, rows[0].0)
     && Listing(j, rows[0].0, rows[1..]))
  }

  function Last(a: int, rows: seq<(int, Entry)>): int {
    if rows == [] then a else rows[|rows| - 1].0
  }

  lemma {:induction false} BareGrows(j: Feed, a: int, b: int)
    requires a + 1 !in j.rows && Bare(j, a + 1, b)
    ensures Bare(j, a, b)
  {
  }

  lemma {:induction false} RowsAfterListing(j: Feed, since: int, n: nat)
    requires Valid(j)
    ensures Listing(j, since, RowsAfter(j, since, n)) && |RowsAfter(j, since, n)| <= n
    ensures |RowsAfter(j, since, n)| < n ==> Bare(j, Last(since, RowsAfter(j, since, n)), j.head + 1)
    decreases if since < j.head then j.head - since else 0
  {
    if since < j.head && n > 0 {
      if since + 1 in j.rows {
        RowsAfterListing(j, since + 1, n - 1);
        var rest := RowsAfter(j, since + 1, n - 1);
        assert ([(since + 1, j.rows[since + 1])] + rest)[1..] == rest;
      } else {
        RowsAfterListing(j, since + 1, n);
        var rows := RowsAfter(j, since + 1, n);
        BareGrows(j, since, if rows == [] then j.head + 1 else rows[0].0);
      }
    }
  }

  lemma {:induction false} ListingAt(j: Feed, a: int, rows: seq<(int, Entry)>, i: nat)
    requires Listing(j, a, rows) && i < |rows|
    ensures a < rows[i].0 && rows[i].0 in j.rows && rows[i].1 == j.rows[rows[i].0]
    ensures var prev := if i == 0 then a else rows[i - 1].0;
            prev < rows[i].0 && Bare(j, prev, rows[i].0)
    decreases i
  {
    if i > 0 {
      ListingAt(j, rows[0].0, rows[1..], i - 1);
      assert rows[1..][i - 1] == rows[i] && (i > 1 ==> rows[1..][i - 2] == rows[i - 1]);
    }
  }

  lemma {:induction false} FirstGapIs(rows: seq<(int, Entry)>, i: nat)
    requires 1 <= i <= |rows| && forall k :: 0 < k < i ==> rows[k].0 == rows[k - 1].0 + 1
    ensures var gap := FirstGap(rows, i);
            && (gap == 0 ==> forall k :: 0 < k < |rows| ==> rows[k].0 == rows[k - 1].0 + 1)
            && (gap != 0 ==> i <= gap < |rows| && rows[gap].0 != rows[gap - 1].0 + 1 &&
                             forall k :: 0 < k < gap ==> rows[k].0 == rows[k - 1].0 + 1)
    decreases |rows| - i
  {
    if i < |rows| && rows[i].0 == rows[i - 1].0 + 1 { FirstGapIs(rows, i + 1); }
  }

  lemma {:induction false} StepsAdd(rows: seq<(int, Entry)>, n: nat, i: nat)
    requires i < n <= |rows| && forall k :: 0 < k < n ==> rows[k].0 == rows[k - 1].0 + 1
    ensures rows[i].0 == rows[0].0 + i
  {
    if i > 0 { StepsAdd(rows, n, i - 1); }
  }

  lemma {:induction false} PrefixContinues(j: Feed, since: int, rows: seq<(int, Entry)>, n: nat)
    requires Listing(j, since, rows) && n <= |rows| && (n > 0 ==> rows[0].0 == since + 1)
    requires forall k :: 0 < k < n ==> rows[k].0 == rows[k - 1].0 + 1
    ensures Continues(j, since, rows[..n]) && Full(j, since, since + n)
  {
    forall i | 0 <= i < n ensures rows[i].0 == since + 1 + i && rows[i].0 in j.rows && rows[i].1 == j.rows[rows[i].0] {
      StepsAdd(rows, n, i);
      ListingAt(j, since, rows, i);
    }
    forall s | since < s <= since + n ensures s in j.rows { assert rows[s - since - 1].0 == s; }
  }

  /** A PAGE IS A GAPLESS CONTINUATION, and an empty one means caught up: the rows are
      exactly since+1, since+2, … as stored, head is the counter's, and a page shorter
      than its limit reaches head. */
  lemma {:induction false} PageIsContinuation(j: Feed, since: int, limit: int)
    requires Valid(j) && ReadPage(j, since, limit).Page?
    ensures var p := ReadPage(j, since, limit);
            && p.head == j.head && Continues(j, since, p.rows) && (limit > 0 ==> |p.rows| <= limit)
            && (p.rows == [] ==> since >= j.head) && (p.rows != [] ==> since + |p.rows| <= j.head)
            && (limit > 0 && |p.rows| < limit && since <= j.head ==> Bare(j, since + |p.rows|, j.head + 1))
  {
    var rows := RowsAfter(j, since, Cap(j, limit));
    RowsAfterListing(j, since, Cap(j, limit));
    if rows != [] {
      FirstGapIs(rows, 1);
      PrefixContinues(j, since, rows, |rows|);
      assert rows[..|rows|] == rows;
      assert rows[|rows| - 1].0 in j.rows;
    }
  }

  function Numbers(rows: seq<(int, Entry)>): set<int> {
    set i | 0 <= i < |rows| :: rows[i].0
  }

  lemma {:induction false} ListingCounts(j: Feed, a: int, rows: seq<(int, Entry)>)
    requires Listing(j, a, rows)
    ensures |Numbers(rows)| == |rows|
    decreases |rows|
  {
    if rows != [] {
      var rest := rows[1..];
      ListingCounts(j, rows[0].0, rest);
      ListingBounds(j, rows[0].0, rest);
      assert Numbers(rows) == {rows[0].0} + Numbers(rest) by {
        forall s ensures s in Numbers(rows) <==> s == rows[0].0 || s in Numbers(rest) { NumbersCons(rows, s); }
      }
    }
  }

  lemma {:induction false} ListingBounds(j: Feed, a: int, rows: seq<(int, Entry)>)
    requires Listing(j, a, rows)
    ensures forall s :: s in Numbers(rows) ==> a < s <= Last(a, rows) && s in j.rows
  {
    forall i | 0 <= i < |rows| ensures a < rows[i].0 <= Last(a, rows) && rows[i].0 in j.rows {
      ListingAt(j, a, rows, i);
      ListingRises(j, a, rows, i, |rows| - 1);
    }
  }

  lemma {:induction false} ListingRises(j: Feed, a: int, rows: seq<(int, Entry)>, i: nat, k: nat)
    requires Listing(j, a, rows) && i <= k < |rows|
    ensures rows[i].0 <= rows[k].0
    decreases k
  {
    if i < k {
      ListingAt(j, a, rows, k);
      ListingRises(j, a, rows, i, k - 1);
    }
  }

  lemma {:induction false} NumbersCons(rows: seq<(int, Entry)>, s: int)
    requires rows != []
    ensures s in Numbers(rows) <==> s == rows[0].0 || s in Numbers(rows[1..])
  {
    if s in Numbers(rows) {
      var i :| 0 <= i < |rows| && rows[i].0 == s;
      if i > 0 { assert rows[1..][i - 1].0 == s; }
    }
    if s in Numbers(rows[1..]) {
      var i :| 0 <= i < |rows[1..]| && rows[1..][i].0 == s;
      assert rows[i + 1].0 == s;
    }
  }

  lemma {:induction false} SmallerNumbers(a: set<int>, b: set<int>)
    requires a <= b && |a| == |b|
    ensures a == b
  {
    if a != {} {
      assert (forall x :: x !in a) ==> a == {};
      var x :| x in a;
      SmallerNumbers(a - {x}, b - {x});
      assert a == (a - {x}) + {x} && b == (b - {x}) + {x};
    }
  }

  /** NO LIMIT SERVES EVERYTHING up to the first gap: a page read without a limit leaves no
      retained row after it. */
  lemma {:induction false} UnlimitedServesAll(j: Feed, since: int, limit: int)
    requires Valid(j) && limit <= 0 && ReadPage(j, since, limit).Page? && 0 <= since <= j.head
    ensures var p := ReadPage(j, since, limit);
            Continues(j, since, p.rows) && Bare(j, since + |p.rows|, j.head + 1)
  {
    var rows := RowsAfter(j, since, |j.rows|);
    PageIsContinuation(j, since, limit);
    RowsAfterListing(j, since, |j.rows|);
    if |rows| == |j.rows| && rows != [] {
      ListingCounts(j, since, rows);
      ListingBounds(j, since, rows);
      SmallerNumbers(Numbers(rows), j.rows.Keys);
    }
    assert rows != [] ==> Last(since, rows) == since + |rows|;
  }

  /** A TRUNCATION NAMES A MAXIMAL GAP: what lies between the caller's checkpoint and the
      reported Since can all be served, the window holds no retained row and is not empty,
      and Floor is the next retained row or one past head. */
  lemma {:induction false} TruncationIsGap(j: Feed, since: int, limit: int)
    requires Valid(j) && ReadPage(j, since, limit).Truncated?
    ensures var t := ReadPage(j, since, limit);
            && t.head == j.head && since <= t.since < t.floor - 1 <= j.head
            && Full(j, since, t.since) && Bare(j, t.since, t.floor) && (t.floor in j.rows || t.floor == j.head + 1)
  {
    var rows := RowsAfter(j, since, Cap(j, limit));
    RowsAfterListing(j, since, Cap(j, limit));
    if rows == [] {
      NoRowsBare(j, since, limit);
    } else {
      ListingAt(j, since, rows, 0);
      FirstGapIs(rows, 1);
      if rows[0].0 == since + 1 { InteriorGap(j, since, rows, FirstGap(rows, 1)); }
    }
  }

  lemma {:induction false} InteriorGap(j: Feed, since: int, rows: seq<(int, Entry)>, gap: nat)
    requires Listing(j, since, rows) && 0 < gap < |rows| && rows[0].0 == since + 1 && rows[gap].0 != rows[gap - 1].0 + 1
    requires forall k :: 0 < k < gap ==> rows[k].0 == rows[k - 1].0 + 1
    ensures since < rows[gap - 1].0 < rows[gap].0 - 1 && rows[gap].0 in j.rows
    ensures Full(j, since, rows[gap - 1].0) && Bare(j, rows[gap - 1].0, rows[gap].0)
  {
    PrefixContinues(j, since, rows, gap);
    StepsAdd(rows, gap, gap - 1);
    ListingAt(j, since, rows, gap);
  }

  lemma {:induction false} NoRowsBare(j: Feed, since: int, limit: int)
    requires Valid(j) && RowsAfter(j, since, Cap(j, limit)) == []
    ensures Bare(j, since, j.head + 1)
  {
    RowsAfterListing(j, since, Cap(j, limit));
    if Cap(j, limit) == 0 { assert j.rows.Keys == {}; }
  }

  // ---------------------------------------------------------------- the store's own writes

  function Append(j: Feed, e: Entry): Feed {
    Feed(j.head + 1, j.rows[j.head + 1 := e])
  }

  /** The number of retained rows above s. */
  function Newer(j: Feed, s: int): nat {
    |set x | x in j.rows && x > s|
  }

  /** The row that has exactly keep rows above it: the newest one a rows floor lets go. */
  ghost predicate IsCeiling(j: Feed, keep: nat, s: int) {
    s in j.rows && Newer(j, s) == keep
  }

  datatype Floors = Floors(keepRows: nat, keepDays: bool, cutoff: int)

  /** What a prune removes: a row below before, with keepRows newer rows retained, and with
      no young row at or below it. */
  ghost predicate Goes(j: Feed, before: int, f: Floors, s: int) {
    && s in j.rows && s < before
    && (f.keepRows > 0 ==> Newer(j, s) >= f.keepRows)
    && (f.keepDays ==> forall x :: x in j.rows && j.rows[x].ts >= f.cutoff ==> s < x)
  }

  /** The one exclusive bound below which exactly those rows lie. */
  ghost predicate IsBound(j: Feed, before: int, f: Floors, bound: int) {
    forall s :: s in j.rows ==> (s < bound <==> Goes(j, before, f, s))
  }

  function PruneBelow(j: Feed, bound: int): Feed {
    j.(rows := map s | s in j.rows && s >= bound :: j.rows[s])
  }

  /** Scanning down from s, the row with keep rows above it; zero when there is none. */
  function CeilingFrom(j: Feed, s: int, keep: nat): int
    decreases if s > 0 then s else 0
  {
    if s <= 0 then 0
    else if s !in j.rows then CeilingFrom(j, s - 1, keep)
    else if keep == 0 then s
    else CeilingFrom(j, s - 1, keep - 1)
  }

  lemma {:induction false} NewerStep(j: Feed, s: int)
    ensures Newer(j, s - 1) == Newer(j, s) + if s in j.rows then 1 else 0
  {
    var below, above := set x | x in j.rows && x > s - 1, set x | x in j.rows && x > s;
    if s in j.rows { assert below == above + {s}; } else { assert below == above; }
  }

  lemma {:induction false} CeilingFromIs(j: Feed, s: int, keep: nat, total: nat)
    requires Valid(j) && s <= j.head && total == keep + Newer(j, s)
    ensures var c := CeilingFrom(j, s, keep);
            if c != 0 then IsCeiling(j, total, c) else forall x :: x in j.rows ==> Newer(j, x) < total
    decreases if s > 0 then s else 0
  {
    if s > 0 {
      if !(s in j.rows && keep == 0) {
        NewerStep(j, s);
        CeilingFromIs(j, s - 1, if s in j.rows then keep - 1 else keep, total);
      }
    } else {
      forall x | x in j.rows ensures Newer(j, x) < total { NewerStrict(j, s, x); }
    }
  }

  /** The ceiling, or zero when a floor of keep rows protects them all. */
  method CeilingOf(j: Feed, keep: nat) returns (c: int)
    requires Valid(j)
    ensures if c != 0 then forall s :: s in j.rows ==> (s <= c <==> Newer(j, s) >= keep)
            else forall s :: s in j.rows ==> Newer(j, s) < keep
  {
    c := CeilingFrom(j, j.head, keep);
    assert (set x | x in j.rows && x > j.head) == {};
    CeilingFromIs(j, j.head, keep, keep);
    if c != 0 {
      forall s | s in j.rows ensures s <= c <==> Newer(j, s) >= keep {
        if s <= c { NewerShrinks(j, s, c); } else { NewerStrict(j, c, s); }
      }
    }
  }

  /** The bound the prune computes is exact. */
  method BoundOf(j: Feed, before: int, f: Floors) returns (bound: int)
    requires Valid(j)
    ensures IsBound(j, before, f, bound)
  {
    bound := before;
    if f.keepRows > 0 {
      var ceiling := CeilingOf(j, f.keepRows);
      if ceiling == 0 { return 1; }
      if ceiling + 1 < bound { bound := ceiling + 1; }
    }
    if f.keepDays {
      var s := 1;
      while s <= j.head && !(s in j.rows && j.rows[s].ts >= f.cutoff)
        invariant 1 <= s && forall x :: x in j.rows && x < s ==> j.rows[x].ts < f.cutoff
        decreases j.head - s
      {
        s := s + 1;
      }
      if s <= j.head && s < bound { bound := s; }
    }
  }

  /** A FLOOR IS NEVER CROSSED AND NOTHING ELSE IS KEPT: pruning below the bound removes
      exactly what goes, leaves nothing below a row that went, and keeps the head. */
  lemma {:induction false} PruneIsExact(j: Feed, before: int, f: Floors, bound: int)
    requires Valid(j) && IsBound(j, before, f, bound)
    ensures var h := PruneBelow(j, bound);
            && Valid(h) && h.head == j.head
            && (forall s :: s in h.rows <==> s in j.rows && !Goes(j, before, f, s))
            && (forall s :: s in h.rows ==> h.rows[s] == j.rows[s])
            && (forall s, x :: Goes(j, before, f, s) && x in h.rows ==> s < x)
  {
  }

  /** A prune keeps all it must and nothing it need not: every row at or past `before`, every
      row young enough, and as many of the newest as asked; a row below `before` stays only
      because it or an older one is young, or because too few would be left without it. */
  lemma {:induction false} PruneMeans(j: Feed, before: int, f: Floors, bound: int)
    requires Valid(j) && IsBound(j, before, f, bound)
    ensures var h := PruneBelow(j, bound);
            && (forall s :: s in j.rows && s >= before ==> s in h.rows)
            && (forall s :: s in j.rows && f.keepDays && j.rows[s].ts >= f.cutoff ==> s in h.rows)
            && (f.keepRows > 0 ==> |h.rows| >= f.keepRows || h.rows == j.rows)
            && (forall s :: s in h.rows && s < before ==>
                 || (f.keepDays && exists x :: x in j.rows && x <= s && j.rows[x].ts >= f.cutoff)
                 || (f.keepRows > 0 && |set x | x in h.rows && x > s| < f.keepRows))
  {
    var h := PruneBelow(j, bound);
    if s :| s in j.rows && s < bound {
      var last := LargestBelow(j, bound, s);
      assert Newer(j, last) == |h.rows| by { assert (set x | x in j.rows && x > last) == h.rows.Keys; }
      assert Goes(j, before, f, last);
    }
    forall s | s in h.rows && s < before
      ensures || (f.keepDays && exists x :: x in j.rows && x <= s && j.rows[x].ts >= f.cutoff)
              || (f.keepRows > 0 && |set x | x in h.rows && x > s| < f.keepRows)
    {
      assert !Goes(j, before, f, s);
      assert (set x | x in j.rows && x > s) == set x | x in h.rows && x > s;
    }
  }

  lemma {:induction false} LargestBelow(j: Feed, bound: int, s: int) returns (last: int)
    requires s in j.rows && s < bound
    ensures last in j.rows && last < bound && forall x :: x in j.rows ==> x <= last || x >= bound
    decreases bound - s
  {
    if bound - 1 in j.rows { last := bound - 1; } else { last := LargestBelow(j, bound - 1, s); }
  }

  lemma {:induction false} NewerShrinks(j: Feed, s: int, c: int)
    requires s <= c
    ensures Newer(j, c) <= Newer(j, s)
    decreases c - s
  {
    if s < c {
      NewerStep(j, c);
      NewerShrinks(j, s, c - 1);
    }
  }

  lemma {:induction false} NewerStrict(j: Feed, c: int, s: int)
    requires c < s && s in j.rows
    ensures Newer(j, s) < Newer(j, c)
  {
    NewerStep(j, s);
    NewerShrinks(j, c, s - 1);
  }

  lemma {:induction false} OwnWritesKeepPrefix(j: Feed, e: Entry, bound: int)
    requires PrefixPruned(j)
    ensures PrefixPruned(Append(j, e)) && PrefixPruned(PruneBelow(j, bound))
    ensures Append(j, e).head == j.head + 1 && PruneBelow(j, bound).head == j.head
  {
    var floor :| IsFloor(j, floor);
    assert IsFloor(Append(j, e), floor);
    var raised := if bound <= floor then floor else if bound <= j.head then bound else j.head + 1;
    assert IsFloor(PruneBelow(j, bound), raised);
  }

  function AppendAll(j: Feed, es: seq<Entry>): Feed
    decreases |es|
  {
    if es == [] then j else AppendAll(Append(j, es[0]), es[1..])
  }

  lemma {:induction false} AppendsKeepFloor(j: Feed, es: seq<Entry>, floor: int)
    requires Valid(j) && IsFloor(j, floor)
    ensures Valid(AppendAll(j, es)) && IsFloor(AppendAll(j, es), floor)
    decreases |es|
  {
    if es != [] { AppendsKeepFloor(Append(j, es[0]), es[1..], floor); }
  }

  /** A store that only appends and prunes prefixes never reports an interior hole, and a
      reader sent back to Floor-1 is served, whatever was appended meanwhile, until a
      further prune. */
  lemma {:induction false} PrefixPrunedReads(j: Feed, since: int, limit: int, es: seq<Entry>, limit': int)
    requires PrefixPruned(j) && since >= 0 && ReadPage(j, since, limit).Truncated?
    ensures var t := ReadPage(j, since, limit);
            && t.since == since && IsFloor(j, t.floor)
            && ReadPage(AppendAll(j, es), t.floor - 1, limit').Page?
  {
    var floor :| IsFloor(j, floor);
    var t := ReadPage(j, since, limit);
    TruncationIsGap(j, since, limit);
    FloorGap(j, floor, since, t.since, t.floor);
    AppendsKeepFloor(j, es, floor);
    FloorServes(AppendAll(j, es), floor, limit');
  }

  lemma {:induction false} FloorServes(j: Feed, floor: int, limit: int)
    requires Valid(j) && IsFloor(j, floor)
    ensures ReadPage(j, floor - 1, limit).Page?
  {
    var u := ReadPage(j, floor - 1, limit);
    if u.Truncated? {
      TruncationIsGap(j, floor - 1, limit);
      FloorGap(j, floor, floor - 1, u.since, u.floor);
    }
  }

  /** Above a floor there is no other gap than the one below it. */
  lemma {:induction false} FloorGap(j: Feed, floor: int, since: int, s: int, f: int)
    requires Valid(j) && IsFloor(j, floor) && 0 <= since <= s < f - 1 <= j.head
    requires Full(j, since, s) && Bare(j, s, f) && (f in j.rows || f == j.head + 1)
    ensures s == since && f == floor
  {
    assert s + 1 !in j.rows;
    assert floor > s + 1;
    assert floor <= j.head ==> floor in j.rows;
    assert since < s ==> s in j.rows;
  }

  // ---------------------------------------------------------------- draining with holes

  datatype Gap = Gap(after: int, floor: int)

  /** A maximal run of missing numbers above since. */
  ghost predicate IsMaximalGap(j: Feed, since: int, g: Gap) {
    && since <= g.after < g.floor - 1 <= j.head
    && Bare(j, g.after, g.floor)
    && (g.after == since || g.after in j.rows) && (g.floor in j.rows || g.floor == j.head + 1)
  }

  /** Exactly the maximal gaps, each once, in order. */
  ghost predicate AllGaps(j: Feed, since: int, upTo: int, gaps: seq<Gap>) {
    && (forall i :: 0 <= i < |gaps| ==> IsMaximalGap(j, since, gaps[i]) && gaps[i].floor <= upTo + 1)
    && (forall i, k :: 0 <= i < k < |gaps| ==> gaps[i].floor <= gaps[k].after)
    && (forall g :: IsMaximalGap(j, since, g) && g.floor <= upTo + 1 ==> g in gaps)
  }

  /** The rows with numbers in (a, b], in order. */
  function RowsTo(j: Feed, a: int, b: int): seq<(int, Entry)>
    decreases if a < b then b - a else 0
  {
    if a >= b then [] else RowsTo(j, a, b - 1) + (if b in j.rows then [(b, j.rows[b])] else [])
  }

  lemma {:induction false} RowsToBare(j: Feed, a: int, b: int, c: int)
    requires a <= b <= c && Bare(j, b, c + 1)
    ensures RowsTo(j, a, c) == RowsTo(j, a, b)
    decreases c - b
  {
    if b < c { RowsToBare(j, a, b, c - 1); }
  }

  lemma {:induction false} RowsToFull(j: Feed, a: int, b: int, rows: seq<(int, Entry)>)
    requires a <= b && Continues(j, b, rows)
    ensures RowsTo(j, a, b + |rows|) == RowsTo(j, a, b) + rows
    decreases |rows|
  {
    if rows != [] {
      var n := |rows| - 1;
      RowsToFull(j, a, b, rows[..n]);
      assert rows == rows[..n] + [rows[n]];
    } else {
      assert rows == [];
    }
  }

  /** A limit that stops short of a gap gets a page. */
  lemma {:induction false} DrainReads(j: Feed, c: int, s: int)
    requires Valid(j) && c < s && Full(j, c, s)
    ensures ReadPage(j, c, s - c).Page? && |ReadPage(j, c, s - c).rows| == s - c
  {
    FullRows(j, c, s - c);
    var rows := RowsAfter(j, c, s - c);
    FirstGapIs(rows, 1);
    assert forall k :: 0 < k < |rows| ==> rows[k].0 == rows[k - 1].0 + 1;
  }

  lemma {:induction false} FullRows(j: Feed, c: int, n: nat)
    requires Valid(j) && Full(j, c, c + n)
    ensures |RowsAfter(j, c, n)| == n && forall i :: 0 <= i < n ==> RowsAfter(j, c, n)[i].0 == c + 1 + i
    decreases n
  {
    if n > 0 {
      assert c + 1 in j.rows;
      FullRows(j, c + 1, n - 1);
    }
  }

  /** Where a drain stands: everything up to c received or handed over as a gap. */
  ghost predicate Drained(j: Feed, since: int, c: int, received: seq<(int, Entry)>, gaps: seq<Gap>) {
    && since <= c <= j.head && received == RowsTo(j, since, c)
    && AllGaps(j, since, c, gaps) && (c == since || c in j.rows || c == j.head || c + 1 in j.rows)
  }

  lemma {:induction false} DrainPage(j: Feed, since: int, c: int, limit: int, received: seq<(int, Entry)>,
                                     gaps: seq<Gap>)
    requires Valid(j) && Drained(j, since, c, received, gaps) && c < j.head && ReadPage(j, c, limit).Page?
    ensures var rows := ReadPage(j, c, limit).rows;
            rows != [] && Drained(j, since, c + |rows|, received + rows, gaps)
  {
    PageStep(j, since, c, limit, gaps);
  }

  lemma {:induction false} DrainGap(j: Feed, since: int, s: int, f: int, received: seq<(int, Entry)>, gaps: seq<Gap>)
    requires Valid(j) && Drained(j, since, s, received, gaps) && s < f - 1 <= j.head && Bare(j, s, f) &&
             (f in j.rows || f == j.head + 1)
    ensures Drained(j, since, f - 1, received, gaps + [Gap(s, f)])
  {
    RowsToBare(j, since, s, f - 1);
    GapsAdd(j, since, s, f, gaps);
  }

  /** THE DRAIN MEETS EVERY GAP ONCE. A consumer that takes each page, and at a truncation
      drains to the reported Since and resumes at Floor-1, terminates at head having
      received every retained row above its checkpoint in order, and having been handed
      exactly the maximal gaps, each once: nothing was lost in silence. */
  method Drain(j: Feed, since: int, limit: int) returns (received: seq<(int, Entry)>, gaps: seq<Gap>)
    requires Valid(j) && 0 <= since <= j.head
    ensures received == RowsTo(j, since, j.head)
    ensures AllGaps(j, since, j.head, gaps)
  {
    var c := since;
    received, gaps := [], [];
    DrainStart(j, since);
    while c < j.head
      invariant Drained(j, since, c, received, gaps)
      decreases j.head - c
    {
      c, received, gaps := DrainOnce(j, since, c, limit, received, gaps);
    }
  }

  lemma {:induction false} DrainStart(j: Feed, since: int)
    requires Valid(j) && 0 <= since <= j.head
    ensures Drained(j, since, since, [], [])
  {
  }

  /** One read and what the consumer does with its answer. */
  method DrainOnce(j: Feed, ghost since: int, c: int, limit: int, received: seq<(int, Entry)>, gaps: seq<Gap>)
      returns (d: int, more: seq<(int, Entry)>, met: seq<Gap>)
    requires Valid(j) && Drained(j, since, c, received, gaps) && c < j.head
    ensures Drained(j, since, d, more, met) && c < d
  {
    match ReadPage(j, c, limit)
    case Page(rows, _) =>
      DrainPage(j, since, c, limit, received, gaps);
      d, more, met := c + |rows|, received + rows, gaps;
    case Truncated(s, f, _) =>
      TruncationIsGap(j, c, limit);
      more := DrainTo(j, since, c, s, received, gaps);
      DrainGap(j, since, s, f, more, gaps);
      d, met := f - 1, gaps + [Gap(s, f)];
  }

  /** Read exactly the rows the error says can still be served. */
  method DrainTo(j: Feed, ghost since: int, c: int, s: int, received: seq<(int, Entry)>, ghost gaps: seq<Gap>)
      returns (more: seq<(int, Entry)>)
    requires Valid(j) && Drained(j, since, c, received, gaps) && c <= s < j.head && Full(j, c, s)
    ensures Drained(j, since, s, more, gaps)
  {
    more := received;
    if s > c {
      DrainReads(j, c, s);
      DrainPage(j, since, c, s - c, received, gaps);
      more := received + ReadPage(j, c, s - c).rows;
    }
  }

  lemma {:induction false} PageStep(j: Feed, since: int, c: int, limit: int, gaps: seq<Gap>)
    requires Valid(j) && since <= c < j.head && AllGaps(j, since, c, gaps) && ReadPage(j, c, limit).Page?
    ensures var rows := ReadPage(j, c, limit).rows;
            && rows != [] && c + |rows| <= j.head && c + |rows| in j.rows
            && RowsTo(j, since, c + |rows|) == RowsTo(j, since, c) + rows && AllGaps(j, since, c + |rows|, gaps)
  {
    var rows := ReadPage(j, c, limit).rows;
    PageIsContinuation(j, c, limit);
    RowsToFull(j, since, c, rows);
    ContinuesFull(j, c, rows);
    GapsFull(j, since, c, c + |rows|, gaps);
  }

  lemma {:induction false} ContinuesFull(j: Feed, c: int, rows: seq<(int, Entry)>)
    requires Continues(j, c, rows)
    ensures Full(j, c, c + |rows|)
  {
    forall s | c < s <= c + |rows| ensures s in j.rows { assert rows[s - c - 1].0 == s; }
  }

  /** Passing over retained rows meets no gap. */
  lemma {:induction false} GapsFull(j: Feed, since: int, c: int, d: int, gaps: seq<Gap>)
    requires since <= c <= d && AllGaps(j, since, c, gaps) && Full(j, c, d)
    ensures AllGaps(j, since, d, gaps)
  {
    forall g | IsMaximalGap(j, since, g) && g.floor <= d + 1 ensures g.floor <= c + 1 {
      assert g.floor - 1 !in j.rows;
    }
  }

  /** The next gap is the only one that ends at f. */
  lemma {:induction false} GapsAdd(j: Feed, since: int, s: int, f: int, gaps: seq<Gap>)
    requires since <= s < f - 1 <= j.head && AllGaps(j, since, s, gaps) && Bare(j, s, f)
    requires (s == since || s in j.rows || s + 1 in j.rows) && (f in j.rows || f == j.head + 1)
    ensures AllGaps(j, since, f - 1, gaps + [Gap(s, f)])
  {
    assert s + 1 !in j.rows;
    var all := gaps + [Gap(s, f)];
    forall g | IsMaximalGap(j, since, g) && g.floor <= f ensures g in all {
      if g.floor <= s + 1 {
        assert g in gaps;
      } else {
        assert g.floor == f;
        assert g.after == s;
        assert all[|gaps|] == g;
      }
    }
  }

  // ---------------------------------------------------------------- the counter

  /** The highest retained number, and 0 on an empty journal. */
  ghost predicate IsHighWater(rows: map<int, Entry>, high: int) {
    (high == 0 || high in rows) && 0 <= high && forall s :: s in rows ==> s <= high
  }

  method HighWater(rows: map<int, Entry>) returns (high: int)
    ensures IsHighWater(rows, high)
  {
    high := 0;
    var left := rows.Keys;
    while left != {}
      invariant left <= rows.Keys && 0 <= high && (high == 0 || high in rows)
      invariant forall s :: s in rows && s !in left ==> s <= high
      decreases |left|
    {
      assert (forall s :: s !in left) ==> left == {};
      var s :| s in left;
      if s > high { high := s; }
      left := left - {s};
    }
  }

  /** The counter is missing, or its next number is taken, or it stands at or above every
      retained row: the cases in which the next number cannot fall below a retained one. */
  predicate CounterServes(counter: Option<int>, rows: map<int, Entry>) {
    counter.None? || counter.value + 1 in rows || forall s :: s in rows ==> s <= counter.value
  }

  /** One number drawn and one row inserted. A missing counter is seeded from the journal's
      high-water mark, and a number already taken raises it there and draws once more. The
      number is always free, so no row is lost; it is the highest if and only if the counter
      serves. */
  method InsertEventRow(counter: Option<int>, rows: map<int, Entry>, e: Entry)
      returns (number: int, after: map<int, Entry>)
    requires counter.Some? ==> counter.value >= 0
    ensures number !in rows && number > 0 && after == rows[number := e]
    ensures (forall s :: s in rows ==> s < number) <==> CounterServes(counter, rows)
    ensures counter.Some? && counter.value + 1 !in rows ==> number == counter.value + 1
    ensures !(counter.Some? && counter.value + 1 !in rows) ==> IsHighWater(rows, number - 1)
  {
    if counter.None? {
      var high := HighWater(rows);
      number := high + 1;
    } else {
      number := counter.value + 1;
    }
    if number in rows {
      var high := HighWater(rows);
      number := (if number > high then number else high) + 1;
    }
    after := rows[number := e];
  }

  // ---------------------------------------------------------------- the table

  /** The counter row and the journal table, changed in place. */
  class EventsJournal {
    var head: int
    var rows: map<int, Entry>

    function View(): Feed
      reads this
    {
      Feed(head, rows)
    }

    constructor ()
      ensures PrefixPruned(View()) && View() == Feed(0, map[])
    {
      head, rows := 0, map[];
      new;
      assert IsFloor(View(), 1);
    }

    /** The number is drawn from the counter inside the mutation's own transaction. */
    method Record(e: Entry) returns (number: int)
      requires PrefixPruned(View())
      modifies this
      ensures PrefixPruned(View()) && View() == Append(old(View()), e) && number == old(head) + 1
    {
      OwnWritesKeepPrefix(View(), e, 0);
      number, rows := InsertEventRow(Some(head), rows, e);
      head := number;
    }

    /** Exactly the rows that go are deleted. */
    method Prune(before: int, f: Floors) returns (deleted: nat)
      requires PrefixPruned(View())
      modifies this`rows
      ensures PrefixPruned(View()) && deleted == |old(rows).Keys - rows.Keys|
      ensures forall s :: s in rows <==> s in old(rows) && !Goes(old(View()), before, f, s)
      ensures forall s :: s in rows ==> rows[s] == old(rows)[s]
    {
      ghost var j := View();
      var bound := BoundOf(View(), before, f);
      OwnWritesKeepPrefix(View(), Entry(0, "", ""), bound);
      PruneIsExact(View(), before, f, bound);
      if bound <= 1 {
        assert PruneBelow(j, bound).rows == rows;
        assert rows.Keys - rows.Keys == {};
        return 0;
      }
      var kept := map s | s in rows && s >= bound :: rows[s];
      deleted := |rows.Keys - kept.Keys|;
      rows := kept;
      assert View() == PruneBelow(j, bound);
    }

    method ReadEventsPage(since: int, limit: int) returns (r: Read)
      ensures r == ReadPage(View(), since, limit)
    {
      var found, n, s: int := [], Cap(View(), limit), since;
      while s < head && n > 0
        invariant n >= 0 && found + RowsAfter(View(), s, n) == RowsAfter(View(), since, Cap(View(), limit))
        decreases head - s
      {
        if s + 1 in rows { found, n := found + [(s + 1, rows[s + 1])], n - 1; }
        s := s + 1;
      }
      assert found == RowsAfter(View(), since, Cap(View(), limit));
      if found == [] { return if since >= head then Page([], head) else Truncated(since, head + 1, head); }
      if found[0].0 != since + 1 { return Truncated(since, found[0].0, head); }
      var gap := FirstSeqGap(found);
      if 0 < gap < |found| { return Truncated(found[gap - 1].0, found[gap].0, head); }
      return Page(found, head);
    }
  }
}
