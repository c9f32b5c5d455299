/** The order ids are compared in, and sorting by it. */
module Ordering {

  /** Lexicographic, strictly. */
  predicate Below(a: string, b: string) {
    b != "" && (a == "" || a[0] < b[0] || (a[0] == b[0] && Below(a[1..], b[1..])))
  }

  predicate AtMost(a: string, b: string) {
    a == b || Below(a, b)
  }

  /** The first k characters are the same, and then a ends or has the smaller one. */
  ghost predicate LowerAt(a: string, b: string, k: nat) {
    k <= |a| && k < |b| && a[..k] == b[..k] && (k == |a| || a[k] < b[k])
  }

  /** One string is below another exactly when it is the smaller where they first differ. */
  lemma {:induction false} BelowMeans(a: string, b: string)
    ensures Below(a, b) <==> exists k: nat :: LowerAt(a, b, k)
    decreases |a|
  {
    if b != "" && (a == "" || a[0] < b[0]) { assert LowerAt(a, b, 0); }
    if a != "" && b != "" && a[0] == b[0] {
      BelowMeans(a[1..], b[1..]);
      forall k: nat ensures LowerAt(a[1..], b[1..], k) <==> LowerAt(a, b, k + 1) {
        if k < |a| && k + 1 < |b| {
          assert a[..k + 1] == [a[0]] + a[1..][..k] && b[..k + 1] == [b[0]] + b[1..][..k];
          assert a[..k + 1][1..] == a[1..][..k] && b[..k + 1][1..] == b[1..][..k];
        }
      }
      if k: nat :| LowerAt(a, b, k) { assert k > 0 && LowerAt(a[1..], b[1..], k - 1); }
    } else if k: nat :| LowerAt(a, b, k) {
      if k > 0 { assert a[..k][0] == b[..k][0]; }
    }
  }

  lemma {:induction false} BelowTrans(a: string, b: string, c: string)
    requires Below(a, b) && Below(b, c)
    ensures Below(a, c)
  {
    if a != "" && a[0] == b[0] && b[0] == c[0] { BelowTrans(a[1..], b[1..], c[1..]); }
  }

  lemma {:induction false} BelowTotal(a: string, b: string)
    ensures a == b || Below(a, b) || Below(b, a)
    ensures !(Below(a, b) && Below(b, a)) && !Below(a, a)
  {
    if a != "" && b != "" && a[0] == b[0] {
      BelowTotal(a[1..], b[1..]);
      assert a == [a[0]] + a[1..] && b == [b[0]] + b[1..];
    }
    if a != "" { BelowTotal(a[1..], a[1..]); }
  }

  /** Lists of ids, lexicographically. */
  predicate ListAtMost(a: seq<string>, b: seq<string>) {
    a == [] || (b != [] && (Below(a[0], b[0]) || (a[0] == b[0] && ListAtMost(a[1..], b[1..]))))
  }

  /** The first k ids are the same, and then a ends or has the lower one. */
  ghost predicate EarlierAt(a: seq<string>, b: seq<string>, k: nat) {
    k <= |a| && k <= |b| && a[..k] == b[..k] && (k == |a| || (k < |b| && Below(a[k], b[k])))
  }

  lemma {:induction false} ListMeans(a: seq<string>, b: seq<string>)
    ensures ListAtMost(a, b) <==> exists k: nat :: EarlierAt(a, b, k)
    decreases |a|
  {
    if a == [] || (b != [] && Below(a[0], b[0])) { assert EarlierAt(a, b, 0); }
    if a != [] && b != [] && a[0] == b[0] {
      BelowTotal(a[0], b[0]);
      ListMeans(a[1..], b[1..]);
      forall k: nat ensures EarlierAt(a[1..], b[1..], k) <==> EarlierAt(a, b, k + 1) {
        if k < |a| && k < |b| {
          assert a[..k + 1] == [a[0]] + a[1..][..k] && b[..k + 1] == [b[0]] + b[1..][..k];
          assert a[..k + 1][1..] == a[1..][..k] && b[..k + 1][1..] == b[1..][..k];
        }
      }
      if k: nat :| EarlierAt(a, b, k) { assert k > 0 && EarlierAt(a[1..], b[1..], k - 1); }
    } else if a != [] {
      if k: nat :| EarlierAt(a, b, k) {
        if k > 0 { assert a[..k][0] == b[..k][0]; }
      }
    }
  }

  lemma {:induction false} ListTrans(a: seq<string>, b: seq<string>, c: seq<string>)
    requires ListAtMost(a, b) && ListAtMost(b, c)
    ensures ListAtMost(a, c)
  {
    if a != [] {
      if Below(a[0], b[0]) && Below(b[0], c[0]) { BelowTrans(a[0], b[0], c[0]); }
      else if a[0] == b[0] == c[0] { ListTrans(a[1..], b[1..], c[1..]); }
    }
  }

  lemma {:induction false} ListTotal(a: seq<string>, b: seq<string>)
    ensures ListAtMost(a, b) || ListAtMost(b, a)
    ensures ListAtMost(a, b) && ListAtMost(b, a) ==> a == b
  {
    if a != [] && b != [] {
      BelowTotal(a[0], b[0]);
      ListTotal(a[1..], b[1..]);
      assert a == [a[0]] + a[1..] && b == [b[0]] + b[1..];
    }
  }

  // ---------------------------------------------------------------- sorting

  ghost predicate IsOrder<T(!new)>(le: (T, T) -> bool) {
    && (forall a, b :: le(a, b) || le(b, a))
    && (forall a, b, c :: le(a, b) && le(b, c) ==> le(a, c))
    && (forall a, b :: le(a, b) && le(b, a) ==> a == b)
  }

  predicate Sorted<T>(le: (T, T) -> bool, xs: seq<T>) {
    forall i, j :: 0 <= i < j < |xs| ==> le(xs[i], xs[j])
  }

  function Place<T>(le: (T, T) -> bool, x: T, xs: seq<T>): seq<T> {
    if xs == [] then [x] else if le(x, xs[0]) then [x] + xs else [xs[0]] + Place(le, x, xs[1..])
  }

  function Sort<T>(le: (T, T) -> bool, xs: seq<T>): seq<T> {
    if xs == [] then [] else Place(le, xs[0], Sort(le, xs[1..]))
  }

  lemma {:induction false} PlaceHolds<T>(le: (T, T) -> bool, x: T, xs: seq<T>)
    ensures multiset(Place(le, x, xs)) == multiset(xs) + multiset{x}
  {
    if xs != [] {
      assert xs == [xs[0]] + xs[1..];
      if !le(x, xs[0]) { PlaceHolds(le, x, xs[1..]); }
    }
  }

  lemma {:induction false} SortedCons<T(!new)>(le: (T, T) -> bool, x: T, xs: seq<T>)
    requires Sorted(le, xs) && forall y :: y in xs ==> le(x, y)
    ensures Sorted(le, [x] + xs)
  {
    var all := [x] + xs;
    forall i, j | 0 <= i < j < |all| ensures le(all[i], all[j]) {
      assert all[j] == xs[j - 1] && (i > 0 ==> all[i] == xs[i - 1]);
    }
  }

  lemma {:induction false} PlaceSorts<T(!new)>(le: (T, T) -> bool, x: T, xs: seq<T>)
    requires IsOrder(le) && Sorted(le, xs)
    ensures Sorted(le, Place(le, x, xs)) && multiset(Place(le, x, xs)) == multiset(xs) + multiset{x}
  {
    PlaceHolds(le, x, xs);
    if xs != [] {
      forall y | y in xs ensures le(xs[0], y) {
        var i :| 0 <= i < |xs| && xs[i] == y;
        assert i == 0 || le(xs[0], xs[i]);
      }
      if le(x, xs[0]) {
        SortedCons(le, x, xs);
      } else {
        var rest := xs[1..];
        PlaceSorts(le, x, rest);
        forall y | y in Place(le, x, rest) ensures le(xs[0], y) {
          assert y in multiset(Place(le, x, rest));
          assert y == x || y in rest;
        }
        SortedCons(le, xs[0], Place(le, x, rest));
      }
    }
  }

  lemma {:induction false} SortSorts<T(!new)>(le: (T, T) -> bool, xs: seq<T>)
    requires IsOrder(le)
    ensures Sorted(le, Sort(le, xs)) && multiset(Sort(le, xs)) == multiset(xs)
  {
    if xs != [] {
      assert xs == [xs[0]] + xs[1..];
      SortSorts(le, xs[1..]);
      PlaceSorts(le, xs[0], Sort(le, xs[1..]));
    }
  }

  lemma {:induction false} SameHead<T(!new)>(le: (T, T) -> bool, xs: seq<T>, ys: seq<T>)
    requires IsOrder(le) && Sorted(le, xs) && Sorted(le, ys) && multiset(xs) == multiset(ys) && xs != [] && ys != []
    ensures xs[0] == ys[0]
  {
    assert xs[0] in multiset(ys) && ys[0] in multiset(xs);
    var i :| 0 <= i < |ys| && ys[i] == xs[0];
    var j :| 0 <= j < |xs| && xs[j] == ys[0];
    assert i == 0 || le(ys[0], ys[i]);
    assert j == 0 || le(xs[0], xs[j]);
  }

  /** A sorted list is determined by what is in it. */
  lemma {:induction false} SortedUnique<T(!new)>(le: (T, T) -> bool, xs: seq<T>, ys: seq<T>)
    requires IsOrder(le) && Sorted(le, xs) && Sorted(le, ys) && multiset(xs) == multiset(ys)
    ensures xs == ys
    decreases |xs|
  {
    assert |multiset(xs)| == |xs| && |multiset(ys)| == |ys|;
    if xs != [] {
      SameHead(le, xs, ys);
      TailHolds(xs);
      TailHolds(ys);
      SortedUnique(le, xs[1..], ys[1..]);
      assert xs == [xs[0]] + xs[1..] && ys == [ys[0]] + ys[1..];
    }
  }

  lemma {:induction false} TailHolds<T>(xs: seq<T>)
    requires xs != []
    ensures multiset(xs[1..]) == multiset(xs) - multiset{xs[0]}
  {
    assert xs == [xs[0]] + xs[1..];
  }

  // ---------------------------------------------------------------- ids without repeats

  predicate Ascending(xs: seq<string>) {
    forall i, j :: 0 <= i < j < |xs| ==> Below(xs[i], xs[j])
  }

  /** Drop each id equal to the one before it. */
  function Compact(xs: seq<string>): seq<string> {
    if |xs| <= 1 then xs else if xs[0] == xs[1] then Compact(xs[1..]) else [xs[0]] + Compact(xs[1..])
  }

  lemma {:induction false} IdsOrdered()
    ensures IsOrder(AtMost)
  {
    forall a, b ensures (AtMost(a, b) || AtMost(b, a)) &&
        (AtMost(a, b) && AtMost(b, a) ==> a == b) { BelowTotal(a, b); }
    forall a, b, c | AtMost(a, b) && AtMost(b, c) ensures AtMost(a, c) {
      if a != b && b != c { BelowTrans(a, b, c); }
    }
  }

  lemma {:induction false} ListsOrdered()
    ensures IsOrder(ListAtMost)
  {
    forall a, b ensures (ListAtMost(a, b) || ListAtMost(b, a)) &&
        (ListAtMost(a, b) && ListAtMost(b, a) ==> a == b) { ListTotal(a, b); }
    forall a, b, c | ListAtMost(a, b) && ListAtMost(b, c) ensures ListAtMost(a, c) { ListTrans(a, b, c); }
  }

  lemma {:induction false} CompactAscends(xs: seq<string>)
    requires Sorted(AtMost, xs)
    ensures Ascending(Compact(xs)) && forall x :: x in Compact(xs) <==> x in xs
  {
    if |xs| > 1 {
      var rest := xs[1..];
      CompactAscends(rest);
      assert xs == [xs[0]] + rest;
      if xs[0] != xs[1] {
        forall y | y in rest ensures Below(xs[0], y) {
          var i :| 0 <= i < |rest| && rest[i] == y;
          assert AtMost(xs[0], xs[1]) && AtMost(xs[1], xs[i + 1]) by { assert i == 0 || AtMost(xs[1], xs[i + 1]); }
          if xs[1] != y { BelowTrans(xs[0], xs[1], y); }
        }
      }
    }
  }

  lemma {:induction false} AscendingUnique(xs: seq<string>, ys: seq<string>)
    requires Ascending(xs) && Ascending(ys) && forall x :: x in xs <==> x in ys
    ensures xs == ys
    decreases |xs|
  {
    if xs == [] {
      assert forall i :: 0 <= i < |ys| ==> ys[i] in ys;
    } else {
      assert xs[0] in ys;
      var i :| 0 <= i < |ys| && ys[i] == xs[0];
      assert ys[0] in xs;
      var j :| 0 <= j < |xs| && xs[j] == ys[0];
      BelowTotal(xs[0], ys[0]);
      assert xs[0] == ys[0];
      Rest(xs, ys);
      AscendingUnique(xs[1..], ys[1..]);
    }
  }

  lemma {:induction false} Rest(xs: seq<string>, ys: seq<string>)
    requires xs != [] && ys != [] && xs[0] == ys[0] && Ascending(xs) && Ascending(ys)
    requires forall x :: x in xs <==> x in ys
    ensures forall x :: x in xs[1..] <==> x in ys[1..]
  {
    BelowTotal(xs[0], xs[0]);
    assert forall x :: x in xs <==> x == xs[0] || x in xs[1..];
    assert forall x :: x in ys <==> x == ys[0] || x in ys[1..];
    assert xs[0] !in xs[1..] && ys[0] !in ys[1..];
  }

  /** The distinct ids of a list, ascending: a function of the set of ids alone. */
  function Distinct(xs: seq<string>): seq<string> {
    Compact(Sort(AtMost, xs))
  }

  lemma {:induction false} DistinctIs(xs: seq<string>)
    ensures Ascending(Distinct(xs)) && forall x :: x in Distinct(xs) <==> x in xs
  {
    IdsOrdered();
    SortSorts(AtMost, xs);
    CompactAscends(Sort(AtMost, xs));
    forall x ensures x in Sort(AtMost, xs) <==> x in xs {
      assert x in xs <==> x in multiset(xs);
      assert x in Sort(AtMost, xs) <==> x in multiset(Sort(AtMost, xs));
    }
  }

  lemma {:induction false} DistinctUnique(xs: seq<string>, ys: seq<string>)
    requires forall x :: x in xs <==> x in ys
    ensures Distinct(xs) == Distinct(ys)
  {
    DistinctIs(xs);
    DistinctIs(ys);
    AscendingUnique(Distinct(xs), Distinct(ys));
  }
}
