/** Settling on one ring of parents: exactly when its rounds come to an end. */
module Rings {

  import opened Digraph
  import opened IssueGraph
  import opened Affected
  import opened Edits
  import opened Settlement
  import opened Flags

  function Up(r: seq<Id>, i: nat): nat
    requires i < |r|
    ensures Up(r, i) < |r|
  {
    if i + 1 < |r| then i + 1 else 0
  }

  function Below(r: seq<Id>, i: nat): nat
    requires i < |r|
    ensures Below(r, i) < |r| && Up(r, Below(r, i)) == i
  {
    if i > 0 then i - 1 else |r| - 1
  }

  function RingSet(r: seq<Id>): set<Id> {
    set i | 0 <= i < |r| :: r[i]
  }

  /** Row i is a child of the next one round and of no other. */
  ghost predicate Linked(g: Graph, r: seq<Id>, i: nat)
    requires i < |r|
  {
    forall p :: ChildOf(g, r[i], p) <==> p == r[Up(r, i)]
  }

  /** Live rows, each a child of the next one round and of no other. */
  ghost predicate IsRing(g: Graph, r: seq<Id>) {
    && |r| >= 2 && (forall i :: 0 <= i < |r| ==> r[i] in g.rows && Live(g, r[i]))
    && (forall i :: 0 <= i < |r| ==> Linked(g, r, i))
  }

  /** Some row of the ring has a cause of its own. */
  ghost predicate Caused(g: Graph, r: seq<Id>) {
    exists i :: 0 <= i < |r| && DirectCause(g, r[i])
  }

  /** Row i and the next one round lack the flag. */
  ghost predicate HoleAt(r: seq<Id>, b: set<Id>, i: nat)
    requires i < |r|
  {
    r[i] !in b && r[Up(r, i)] !in b
  }

  /** Two neighbours without the flag. */
  ghost predicate Hole(r: seq<Id>, b: set<Id>) {
    exists i :: 0 <= i < |r| && HoleAt(r, b, i)
  }

  ghost predicate Flagged(r: seq<Id>, b: set<Id>) {
    exists i :: 0 <= i < |r| && r[i] in b
  }

  /** Some row carries the flag, and two neighbours lack it. */
  ghost predicate Patchy(r: seq<Id>, b: set<Id>) {
    Hole(r, b) && Flagged(r, b)
  }

  /** One statement visits the whole ring, and the others none of it. */
  ghost predicate Together(batches: seq<set<Id>>, m: set<Id>)
    decreases |batches|
  {
    batches != [] &&
    ((m <= batches[0] && Union(batches[1..]) !! m) || (batches[0] !! m && Together(batches[1..], m)))
  }

  // ---------------------------------------------------------------- one round

  ghost predicate AfterMark(g: Graph, r: seq<Id>, b: set<Id>, i: nat)
    requires i < |r|
  {
    r[i] in b || DirectCause(g, r[i]) || r[Up(r, i)] in b
  }

  ghost predicate AfterRound(g: Graph, r: seq<Id>, b: set<Id>, i: nat)
    requires i < |r|
  {
    AfterMark(g, r, b, i) && (DirectCause(g, r[i]) || AfterMark(g, r, b, Up(r, i)))
  }

  lemma {:induction false} RingWants(g: Graph, r: seq<Id>, b: set<Id>, i: nat)
    requires IsRing(g, r) && i < |r|
    ensures Wants(g, b, r[i]) <==> DirectCause(g, r[i]) || r[Up(r, i)] in b
  {
    assert Linked(g, r, i);
    assert ChildOf(g, r[i], r[Up(r, i)]) && r[Up(r, i)] in g.rows;
  }

  lemma {:induction false} RingPass(g: Graph, r: seq<Id>, b: set<Id>, batch: set<Id>)
    requires IsRing(g, r) && RingSet(r) <= batch
    ensures forall i {:trigger AfterRound(g, r, b, i)} :: 0 <= i < |r| ==>
              (r[i] in PassStep(g, b, batch) <==> AfterRound(g, r, b, i))
  {
    var m := MarkStep(g, b, batch);
    forall i | 0 <= i < |r| ensures r[i] in batch && (r[i] in m <==> AfterMark(g, r, b, i)) {
      assert r[i] in RingSet(r);
      RingWants(g, r, b, i);
    }
    forall i | 0 <= i < |r| ensures r[i] in UnmarkStep(g, m, batch) <==> AfterRound(g, r, b, i) {
      RingWants(g, r, m, i);
    }
  }

  lemma {:induction false} RingSweep(g: Graph, r: seq<Id>, b: set<Id>, batches: seq<set<Id>>)
    requires IsRing(g, r) && Together(batches, RingSet(r))
    ensures forall i {:trigger AfterRound(g, r, b, i)} :: 0 <= i < |r| ==>
              (r[i] in Sweep(g, b, batches) <==> AfterRound(g, r, b, i))
    decreases |batches|
  {
    var c := PassStep(g, b, batches[0]);
    assert forall i :: 0 <= i < |r| ==> r[i] in RingSet(r);
    if RingSet(r) <= batches[0] && Union(batches[1..]) !! RingSet(r) {
      RingPass(g, r, b, batches[0]);
      SweepOutside(g, c, batches[1..]);
    } else {
      assert forall i :: 0 <= i < |r| ==> (r[i] in c <==> r[i] in b);
      RingSweep(g, r, c, batches[1..]);
      forall i | 0 <= i < |r| ensures AfterRound(g, r, c, i) == AfterRound(g, r, b, i) { }
    }
  }

  // ---------------------------------------------------------------- never

  lemma {:induction false} HoleStays(g: Graph, r: seq<Id>, b: set<Id>, batches: seq<set<Id>>)
    requires IsRing(g, r) && Together(batches, RingSet(r)) && !Caused(g, r)
    requires Patchy(r, b)
    ensures Patchy(r, Sweep(g, b, batches))
  {
    var c := Sweep(g, b, batches);
    RingSweep(g, r, b, batches);
    var i :| 0 <= i < |r| && r[i] in b;
    assert AfterRound(g, r, b, Below(r, i)) && r[Below(r, i)] in c;
    var j :| 0 <= j < |r| && HoleAt(r, b, j);
    assert !AfterRound(g, r, b, j) && !AfterRound(g, r, b, Below(r, j));
    assert HoleAt(r, c, Below(r, j));
  }

  lemma {:induction false} PatchyForEver(g: Graph, r: seq<Id>, b: set<Id>, batches: seq<set<Id>>, n: nat)
    requires Patchy(r, b) && forall c :: Patchy(r, c) ==> Patchy(r, Sweep(g, c, batches))
    ensures Patchy(r, Sweeps(g, b, batches, n))
  {
    SweepsKeep((c: set<Id>) => Patchy(r, c), g, b, batches, n);
  }

  lemma {:induction false} PatchyStays(g: Graph, r: seq<Id>, batches: seq<set<Id>>)
    requires IsRing(g, r) && Together(batches, RingSet(r)) && !Caused(g, r)
    ensures forall c :: Patchy(r, c) ==> Patchy(r, Sweep(g, c, batches))
  {
    forall c | Patchy(r, c) ensures Patchy(r, Sweep(g, c, batches)) { HoleStays(g, r, c, batches); }
  }

  lemma {:induction false} TogetherVisits(batches: seq<set<Id>>, m: set<Id>)
    requires Together(batches, m)
    ensures m <= Union(batches)
    decreases |batches|
  {
    if !(m <= batches[0]) { TogetherVisits(batches[1..], m); }
  }

  /** The row k places below c. */
  function Back(r: seq<Id>, c: nat, k: nat): nat
    requires c < |r| && k < |r|
    ensures Back(r, c, k) < |r|
  {
    if k <= c then c - k else c - k + |r|
  }

  /** In a right column one flag on the ring means all. */
  lemma {:induction false} FlagGoesRound(g: Graph, r: seq<Id>, b: set<Id>, c: nat, k: nat)
    requires IsRing(g, r) && c < |r| && k < |r| && r[c] in b
    requires forall i :: 0 <= i < |r| ==> (r[i] in b <==> Wants(g, b, r[i]))
    ensures r[Back(r, c, k)] in b
    decreases k
  {
    if k > 0 {
      FlagGoesRound(g, r, b, c, k - 1);
      RingWants(g, r, b, Back(r, c, k));
    }
  }

  lemma {:induction false} HoleIsNotQuiet(g: Graph, r: seq<Id>, b: set<Id>, batches: seq<set<Id>>)
    requires IsRing(g, r) && Together(batches, RingSet(r)) && Patchy(r, b)
    ensures Stirs(g, b, batches)
  {
    if !Stirs(g, b, batches) {
      QuietIsRight(g, b, batches);
      TogetherVisits(batches, RingSet(r));
      forall i | 0 <= i < |r| ensures r[i] in b <==> Wants(g, b, r[i]) { assert r[i] in RingSet(r); }
      RightRingHasNoHole(g, r, b);
    }
  }

  lemma {:induction false} RightRingHasNoHole(g: Graph, r: seq<Id>, b: set<Id>)
    requires IsRing(g, r) && Flagged(r, b) && forall i :: 0 <= i < |r| ==> (r[i] in b <==> Wants(g, b, r[i]))
    ensures !Hole(r, b)
  {
    var c :| 0 <= c < |r| && r[c] in b;
    forall j | 0 <= j < |r| ensures !HoleAt(r, b, j) {
      FlagGoesRound(g, r, b, c, if j <= c then c - j else c - j + |r|);
    }
  }

  /** A RING THAT NEVER SETTLES, whatever else the statements visit. */
  lemma {:induction false} RingHangs(g: Graph, r: seq<Id>, b: set<Id>, batches: seq<set<Id>>)
    requires IsRing(g, r) && Together(batches, RingSet(r)) && !Caused(g, r)
    requires Patchy(r, b)
    ensures !Ends(g, b, batches)
  {
    PatchyStays(g, r, batches);
    forall n: nat ensures !QuietAfter(g, b, batches, n) {
      PatchyForEver(g, r, b, batches, n);
      HoleIsNotQuiet(g, r, Sweeps(g, b, batches, n), batches);
    }
  }

  // ---------------------------------------------------------------- at last

  /** A column right at every row visited is left alone. */
  lemma {:induction false} RightIsQuiet(g: Graph, b: set<Id>, batches: seq<set<Id>>)
    requires forall x :: x in Union(batches) ==> (x in b <==> x in g.rows && Wants(g, b, x))
    ensures !Stirs(g, b, batches)
    decreases |batches|
  {
    if batches != [] {
      assert MarkStep(g, b, batches[0]) == b && UnmarkStep(g, b, batches[0]) == b;
      RightIsQuiet(g, b, batches[1..]);
    }
  }

  ghost predicate Full(r: seq<Id>, b: set<Id>) {
    forall i :: 0 <= i < |r| ==> r[i] in b
  }

  lemma {:induction false} FullIsQuiet(g: Graph, r: seq<Id>, b: set<Id>, batches: seq<set<Id>>)
    requires IsRing(g, r) && Union(batches) <= RingSet(r) && Full(r, b)
    ensures !Stirs(g, b, batches)
  {
    forall x | x in Union(batches) ensures x in b <==> x in g.rows && Wants(g, b, x) {
      var i :| 0 <= i < |r| && r[i] == x;
      RingWants(g, r, b, i);
    }
    RightIsQuiet(g, b, batches);
  }

  lemma {:induction false} NoHoleFills(g: Graph, r: seq<Id>, b: set<Id>, batches: seq<set<Id>>)
    requires IsRing(g, r) && Together(batches, RingSet(r)) && Union(batches) <= RingSet(r) && !Hole(r, b)
    ensures QuietAfter(g, b, batches, 1)
  {
    RingSweep(g, r, b, batches);
    forall i | 0 <= i < |r| ensures r[i] in Sweep(g, b, batches) {
      assert !HoleAt(r, b, i) && !HoleAt(r, b, Up(r, i));
      assert AfterRound(g, r, b, i);
    }
    assert Sweeps(g, b, batches, 1) == Sweep(g, Sweeps(g, b, batches, 0), batches) == Sweep(g, b, batches);
    FullIsQuiet(g, r, Sweep(g, b, batches), batches);
  }

  lemma {:induction false} SpreadStep(g: Graph, r: seq<Id>, d: set<Id>, c: nat, k: nat)
    requires IsRing(g, r) && c < |r| && k < |r| && DirectCause(g, r[c]) && (k > 0 ==> r[Back(r, c, k - 1)] in d)
    ensures AfterRound(g, r, d, Back(r, c, k))
  {
    if k > 0 { assert Up(r, Back(r, c, k)) == Back(r, c, k - 1); }
  }

  /** Round by round the flag of a caused row goes down the ring. */
  lemma {:induction false} CauseSpreads(g: Graph, r: seq<Id>, b: set<Id>, batches: seq<set<Id>>, c: nat, n: nat)
    requires IsRing(g, r) && Together(batches, RingSet(r)) && c < |r| && DirectCause(g, r[c]) && n <= |r|
    ensures forall k :: 0 <= k < n ==> r[Back(r, c, k)] in Sweeps(g, b, batches, n)
    decreases n
  {
    if n > 0 {
      var d := Sweeps(g, b, batches, n - 1);
      CauseSpreads(g, r, b, batches, c, n - 1);
      RingSweep(g, r, d, batches);
      forall k | 0 <= k < n ensures r[Back(r, c, k)] in Sweep(g, d, batches) {
        SpreadStep(g, r, d, c, k);
      }
    }
  }

  lemma {:induction false} CausedFills(g: Graph, r: seq<Id>, b: set<Id>, batches: seq<set<Id>>)
    requires IsRing(g, r) && Together(batches, RingSet(r)) && Union(batches) <= RingSet(r) && Caused(g, r)
    ensures QuietAfter(g, b, batches, |r|)
  {
    var c :| 0 <= c < |r| && DirectCause(g, r[c]);
    var d := Sweeps(g, b, batches, |r|);
    CauseSpreads(g, r, b, batches, c, |r|);
    forall i | 0 <= i < |r| ensures r[i] in d {
      var k := if i <= c then c - i else c - i + |r|;
      assert Back(r, c, k) == i;
    }
    FullIsQuiet(g, r, d, batches);
  }

  lemma {:induction false} EmptyIsQuiet(g: Graph, r: seq<Id>, b: set<Id>, batches: seq<set<Id>>)
    requires IsRing(g, r) && Union(batches) <= RingSet(r) && !Caused(g, r) && b !! RingSet(r)
    ensures QuietAfter(g, b, batches, 0)
  {
    assert forall i :: 0 <= i < |r| ==> r[i] in RingSet(r);
    forall x | x in Union(batches) ensures x in b <==> x in g.rows && Wants(g, b, x) {
      var i :| 0 <= i < |r| && r[i] == x;
      RingWants(g, r, b, i);
    }
    RightIsQuiet(g, b, batches);
  }

  /** ON A RING, EXACTLY: the rounds over a ring of live rows come to an end if and only if
      some row of it has a cause, or none carries the flag, or no two neighbours lack it. */
  lemma {:induction false} RingEndsExactly(g: Graph, r: seq<Id>, b: set<Id>, batches: seq<set<Id>>)
    requires IsRing(g, r) && Together(batches, RingSet(r)) && Union(batches) <= RingSet(r)
    ensures Ends(g, b, batches) <==> Caused(g, r) || b !! RingSet(r) || !Hole(r, b)
  {
    if Caused(g, r) {
      CausedFills(g, r, b, batches);
    } else if b !! RingSet(r) {
      EmptyIsQuiet(g, r, b, batches);
    } else if !Hole(r, b) {
      NoHoleFills(g, r, b, batches);
    } else {
      var x :| x in b && x in RingSet(r);
      RingHangs(g, r, b, batches);
    }
  }

  // ---------------------------------------------------------------- the edge that closes a ring

  /** Nothing hangs below the ring, and no one waits on the target's children. */
  ghost predicate Alone(h: Graph, r: seq<Id>, e: EdgeReq) {
    && e.source in r && (forall c, p :: ChildOf(h, c, p) && p in r ==> c in r)
    && (forall w :: w in h.rows ==> !Waits(h, w, e.target))
  }

  lemma {:induction false} RingStepsDown(h: Graph, r: seq<Id>, i: nat)
    requires IsRing(h, r) && i < |r|
    ensures (r[Up(r, i)], r[i]) in Down(h)
  {
    assert Linked(h, r, i);
    var x, p := r[i], r[Up(r, i)];
    assert ChildOf(h, (x, p).0, (x, p).1);
  }

  lemma {:induction false} RingReached(h: Graph, r: seq<Id>, c: nat, k: nat)
    requires IsRing(h, r) && c < |r| && k < |r|
    ensures ReachedFrom(Down(h), {r[c]}, r[Back(r, c, k)])
    decreases k
  {
    if k == 0 {
      ReachesSelf(Down(h), r[c]);
    } else {
      RingReached(h, r, c, k - 1);
      RingStepsDown(h, r, Back(r, c, k));
      assert Up(r, Back(r, c, k)) == Back(r, c, k - 1);
      ReachedStep(Down(h), {r[c]}, r[Back(r, c, k - 1)], r[Back(r, c, k)]);
    }
  }

  lemma {:induction false} RingWithin(h: Graph, r: seq<Id>, c: nat)
    requires IsRing(h, r) && c < |r|
    ensures forall i :: 0 <= i < |r| ==> r[i] in Descend(h, {r[c]})
  {
    ReachSetExact(Down(h), {r[c]});
    forall i | 0 <= i < |r| ensures r[i] in Descend(h, {r[c]}) {
      RingReached(h, r, c, if i <= c then c - i else c - i + |r|);
    }
  }

  lemma {:induction false} NothingBelow(h: Graph, r: seq<Id>, x: Id)
    requires x in r && forall c, p :: ChildOf(h, c, p) && p in r ==> c in r
    ensures Descend(h, {x}) <= RingSet(r)
  {
    forall y ensures y in RingSet(r) <==> y in r { }
    forall u, v | (u, v) in Down(h) && u in RingSet(r) ensures v in RingSet(r) { assert ChildOf(h, v, u); }
    ReachSetLeast(Down(h), {x}, RingSet(r));
  }

  /** Such an edge affects exactly the ring. */
  lemma {:induction false} RingIsAffected(h: Graph, r: seq<Id>, e: EdgeReq)
    requires IsRing(h, r) && Alone(h, r, e) && e.kind == ParentChild
    ensures EdgeSet(h, e) == RingSet(r)
  {
    assert EdgeSeeds(h, e.source, e.target, e.kind) == {e.source};
    var c :| 0 <= c < |r| && r[c] == e.source;
    RingWithin(h, r, c);
    NothingBelow(h, r, e.source);
  }

  ghost predicate OnePlane(h: Graph, r: seq<Id>, plane: Plane) {
    forall i :: 0 <= i < |r| ==> r[i] in h.rows && h.rows[r[i]].plane == plane
  }

  lemma {:induction false} OneStatement(h: Graph, r: seq<Id>, plane: Plane)
    requires OnePlane(h, r, plane)
    ensures Together(ByPlane(h, RingSet(r)), RingSet(r))
  {
    var m, batches := RingSet(r), ByPlane(h, RingSet(r));
    assert batches[1..][1..] == [] && batches[1..] == [batches[1]];
    if plane == Issues {
      assert batches[0] == m && batches[1] == {};
      assert Union(batches[1..]) == batches[1] + Union([]);
    } else {
      assert batches[0] == {} && batches[1] == m;
      assert Together(batches[1..], m);
    }
  }

  /** THE RING-CLOSING EDGE, EXACTLY: with the probe off, an edge that closes a ring of live
      rows in one plane settles if and only if the finished ring has a cause, or the stored
      column has none of its flags, or no two neighbours on it lack theirs. */
  lemma {:induction false} RingEdgeExact(g: Graph, e: EdgeReq, b: set<Id>, r: seq<Id>, plane: Plane)
    requires (e.source, e.target) !in g.edges && e.kind == ParentChild && b <= g.rows.Keys
    requires IsRing(Put(g, e), r) && Alone(Put(g, e), r, e) && OnePlane(Put(g, e), r, plane)
    ensures EdgeSettles(g, e, b) <==> Caused(Put(g, e), r) || b !! RingSet(r) || !Hole(r, b)
  {
    var h := Put(g, e);
    RingIsAffected(h, r, e);
    OneStatement(h, r, plane);
    ByPlaneCovers(h, RingSet(r));
    assert b * h.rows.Keys == b;
    RingEndsExactly(h, r, b, ByPlane(h, RingSet(r)));
  }
}
