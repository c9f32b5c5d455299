/** Finite directed graphs over issue ids: walks, reachability, acyclicity, and
    the worklist that every traversal of the store runs. */
module Digraph {

  type Id = string
  type Rel = set<(Id, Id)>

  /** A walk of exactly n edges from u to v. */
  ghost predicate Walk(r: Rel, u: Id, v: Id, n: nat)
    decreases n
  {
    if n == 0 then u == v else exists w :: (u, w) in r && Walk(r, w, v, n - 1)
  }

  /** v is u itself or can be reached from it. */
  ghost predicate Reaches(r: Rel, u: Id, v: Id) {
    exists n: nat :: Walk(r, u, v, n)
  }

  ghost predicate Acyclic(r: Rel) {
    forall u, n: nat :: n > 0 ==> !Walk(r, u, u, n)
  }

  /** Some walk of n edges leaves x. */
  ghost predicate Deep(r: Rel, x: Id, n: nat)
    decreases n
  {
    n == 0 || exists w :: (x, w) in r && Deep(r, w, n - 1)
  }

  function Nodes(r: Rel): set<Id> {
    (set e | e in r :: e.0) + (set e | e in r :: e.1)
  }

  // ---------------------------------------------------------------- walks

  lemma {:induction false} WalkJoin(r: Rel, u: Id, v: Id, w: Id, m: nat, n: nat)
    requires Walk(r, u, v, m) && Walk(r, v, w, n)
    ensures Walk(r, u, w, m + n)
    decreases m
  {
    if m > 0 {
      var x :| (u, x) in r && Walk(r, x, v, m - 1);
      WalkJoin(r, x, v, w, m - 1, n);
    }
  }

  lemma {:induction false} WalkGrows(r: Rel, s: Rel, u: Id, v: Id, n: nat)
    requires r <= s && Walk(r, u, v, n)
    ensures Walk(s, u, v, n)
    decreases n
  {
    if n > 0 {
      var w :| (u, w) in r && Walk(r, w, v, n - 1);
      WalkGrows(r, s, w, v, n - 1);
    }
  }

  lemma {:induction false} ReachesSelf(r: Rel, u: Id)
    ensures Reaches(r, u, u)
  {
    assert Walk(r, u, u, 0);
  }

  lemma {:induction false} ReachesTrans(r: Rel, u: Id, v: Id, w: Id)
    requires Reaches(r, u, v) && Reaches(r, v, w)
    ensures Reaches(r, u, w)
  {
    var m: nat :| Walk(r, u, v, m);
    var n: nat :| Walk(r, v, w, n);
    WalkJoin(r, u, v, w, m, n);
  }

  lemma {:induction false} ReachesEdge(r: Rel, u: Id, v: Id)
    requires (u, v) in r
    ensures Reaches(r, u, v)
  {
    assert Walk(r, v, v, 0);
    assert Walk(r, u, v, 1);
  }

  lemma {:induction false} ReachesGrows(r: Rel, s: Rel, u: Id, v: Id)
    requires r <= s && Reaches(r, u, v)
    ensures Reaches(s, u, v)
  {
    var n: nat :| Walk(r, u, v, n);
    WalkGrows(r, s, u, v, n);
  }

  lemma {:induction false} AcyclicShrinks(r: Rel, s: Rel)
    requires r <= s && Acyclic(s)
    ensures Acyclic(r)
  {
    forall u, n: nat | n > 0 ensures !Walk(r, u, u, n) {
      if Walk(r, u, u, n) {
        WalkGrows(r, s, u, u, n);
      }
    }
  }

  // ---------------------------------------------------------------- cycles and new edges

  /** An edge lies on a cycle exactly when its source is reachable from its target. */
  ghost predicate OnCycle(r: Rel, e: (Id, Id)) {
    e in r && Reaches(r, e.1, e.0)
  }

  lemma {:induction false} EdgeOnCycle(r: Rel, e: (Id, Id))
    requires OnCycle(r, e)
    ensures !Acyclic(r)
  {
    var n: nat :| Walk(r, e.1, e.0, n);
    assert Walk(r, e.0, e.0, n + 1);
  }

  /** A walk in the grown graph either was there before or crosses a new edge. */
  lemma {:induction false} WalkCrosses(r: Rel, s: Rel, u: Id, v: Id, n: nat)
    requires r <= s && Walk(s, u, v, n)
    ensures Walk(r, u, v, n) ||
            exists e :: e in s && e !in r && Reaches(s, u, e.0) && Reaches(s, e.1, v)
    decreases n
  {
    if n > 0 {
      var w :| (u, w) in s && Walk(s, w, v, n - 1);
      if (u, w) in r {
        WalkCrosses(r, s, w, v, n - 1);
        if !Walk(r, w, v, n - 1) {
          var e :| e in s && e !in r && Reaches(s, w, e.0) && Reaches(s, e.1, v);
          ReachesEdge(s, u, w);
          ReachesTrans(s, u, w, e.0);
        }
      } else {
        ReachesSelf(s, u);
        assert Reaches(s, (u, w).0, u) && Reaches(s, (u, w).1, v);
      }
    }
  }

  /** The whole-graph gate: growing an acyclic graph keeps it acyclic exactly
      when no new edge ends up on a cycle. */
  lemma {:induction false} GrowthKeepsAcyclic(r: Rel, s: Rel)
    requires r <= s && Acyclic(r)
    ensures Acyclic(s) <==> forall e :: e in s && e !in r ==> !OnCycle(s, e)
  {
    if !Acyclic(s) {
      var u, n: nat :| n > 0 && Walk(s, u, u, n);
      WalkCrosses(r, s, u, u, n);
      var e :| e in s && e !in r && Reaches(s, u, e.0) && Reaches(s, e.1, u);
      ReachesTrans(s, e.1, u, e.0);
      assert OnCycle(s, e);
    } else {
      forall e | e in s && e !in r ensures !OnCycle(s, e) {
        if OnCycle(s, e) { EdgeOnCycle(s, e); }
      }
    }
  }

  /** The per-edge probe: it looks at the graph before the edge goes in. */
  lemma {:induction false} ProbeDecides(r: Rel, u: Id, v: Id)
    requires Acyclic(r)
    ensures Acyclic(r + {(u, v)}) <==> !Reaches(r, v, u)
  {
    var s := r + {(u, v)};
    if Reaches(r, v, u) {
      ReachesGrows(r, s, v, u);
      EdgeOnCycle(s, (u, v));
    } else if !Acyclic(s) {
      GrowthKeepsAcyclic(r, s);
      assert OnCycle(s, (u, v));
      var n: nat :| Walk(s, v, u, n);
      FirstReturn(r, u, v, v, n);
    }
  }

  /** A walk into u that may use the new edge u -> v contains one from its start
      that does not use it. */
  lemma {:induction false} FirstReturn(r: Rel, u: Id, v: Id, x: Id, n: nat)
    requires Walk(r + {(u, v)}, x, u, n)
    ensures Reaches(r, x, u)
    decreases n
  {
    if x == u {
      ReachesSelf(r, u);
    } else {
      var w :| (x, w) in r + {(u, v)} && Walk(r + {(u, v)}, w, u, n - 1);
      FirstReturn(r, u, v, w, n - 1);
      ReachesEdge(r, x, w);
      ReachesTrans(r, x, w, u);
    }
  }

  // ---------------------------------------------------------------- depth

  ghost function Above(r: Rel, x: Id): set<Id> {
    set y | y in Nodes(r) && exists n: nat :: n > 0 && Walk(r, x, y, n)
  }

  lemma {:induction false} AboveShrinks(r: Rel, x: Id, w: Id)
    requires Acyclic(r) && (x, w) in r
    ensures Above(r, w) < Above(r, x)
  {
    forall y | y in Above(r, w) ensures y in Above(r, x) {
      var n: nat :| n > 0 && Walk(r, w, y, n);
      assert Walk(r, x, y, n + 1);
    }
    assert Walk(r, w, w, 0);
    assert Walk(r, x, w, 1);
    assert w in Nodes(r) by { assert (x, w).1 in Nodes(r); }
    assert w in Above(r, x) && w !in Above(r, w);
  }

  lemma {:induction false} SmallerSet(a: set<Id>, b: set<Id>)
    requires a < b
    ensures |a| < |b|
  {
    var x :| x in b && x !in a;
    assert a <= b - {x};
    SubsetSize(a, b - {x});
  }

  lemma {:induction false} SubsetSize(a: set<Id>, b: set<Id>)
    requires a <= b
    ensures |a| <= |b|
  {
    if a != {} {
      var x :| x in a;
      SubsetSize(a - {x}, b - {x});
    }
  }

  lemma {:induction false} DeepAbove(r: Rel, x: Id, n: nat)
    requires Acyclic(r) && Deep(r, x, n)
    ensures n <= |Above(r, x)|
    decreases n
  {
    if n > 0 {
      var w :| (x, w) in r && Deep(r, w, n - 1);
      DeepAbove(r, w, n - 1);
      AboveShrinks(r, x, w);
      SmallerSet(Above(r, w), Above(r, x));
    }
  }

  /** In an acyclic graph no walk is as long as the number of nodes. */
  lemma {:induction false} AcyclicIsShallow(r: Rel, nodes: set<Id>, x: Id)
    requires Acyclic(r) && Nodes(r) <= nodes && x in nodes
    ensures !Deep(r, x, |nodes|)
  {
    if Deep(r, x, |nodes|) {
      DeepAbove(r, x, |nodes|);
      assert x !in Above(r, x);
      assert Above(r, x) <= nodes - {x};
      SubsetSize(Above(r, x), nodes - {x});
    }
  }

  lemma {:induction false} DeepStep(r: Rel, x: Id, w: Id, n: nat)
    requires (x, w) in r && !Deep(r, x, n)
    ensures n > 0 && !Deep(r, w, n - 1)
  {
  }

  lemma {:induction false} DeepShrinks(r: Rel, x: Id, n: nat)
    requires Deep(r, x, n + 1)
    ensures Deep(r, x, n)
    decreases n
  {
    if n > 0 {
      var w :| (x, w) in r && Deep(r, w, n);
      DeepShrinks(r, w, n - 1);
    }
  }

  // ---------------------------------------------------------------- the worklist

  ghost predicate ReachedFrom(r: Rel, seeds: set<Id>, x: Id) {
    exists s :: s in seeds && Reaches(r, s, x)
  }

  /** What the seeds reach. */
  ghost function ReachSet(r: Rel, seeds: set<Id>): set<Id> {
    set x | x in Nodes(r) + seeds && ReachedFrom(r, seeds, x)
  }

  function Successors(r: Rel, xs: set<Id>): set<Id> {
    set e | e in r && e.0 in xs :: e.1
  }

  /** Every edge that leaves xs stays in c. */
  ghost predicate Covered(r: Rel, xs: set<Id>, c: set<Id>) {
    forall u, v :: (u, v) in r && u in xs ==> v in c
  }

  lemma {:induction false} CoveredWalk(r: Rel, c: set<Id>, x: Id, y: Id, n: nat)
    requires Covered(r, c, c) && x in c && Walk(r, x, y, n)
    ensures y in c
    decreases n
  {
    if n > 0 {
      var w :| (x, w) in r && Walk(r, w, y, n - 1);
      CoveredWalk(r, c, w, y, n - 1);
    }
  }

  lemma {:induction false} ReachedStep(r: Rel, seeds: set<Id>, u: Id, v: Id)
    requires ReachedFrom(r, seeds, u) && (u, v) in r
    ensures ReachedFrom(r, seeds, v)
  {
    var s :| s in seeds && Reaches(r, s, u);
    ReachesEdge(r, u, v);
    ReachesTrans(r, s, u, v);
  }

  lemma {:induction false} SeedsReached(r: Rel, seeds: set<Id>)
    ensures forall s :: s in seeds ==> ReachedFrom(r, seeds, s)
  {
    forall s | s in seeds ensures ReachedFrom(r, seeds, s) { ReachesSelf(r, s); }
  }

  /** The closure holds everything reached, is covered, and is the least such set. */
  lemma {:induction false} ReachSetExact(r: Rel, seeds: set<Id>)
    ensures forall x :: x in ReachSet(r, seeds) <==> ReachedFrom(r, seeds, x)
    ensures seeds <= ReachSet(r, seeds) && Covered(r, ReachSet(r, seeds), ReachSet(r, seeds))
  {
    SeedsReached(r, seeds);
    var c := ReachSet(r, seeds);
    forall u, v | (u, v) in r && u in c ensures v in c {
      ReachedStep(r, seeds, u, v);
      assert (u, v).1 in Nodes(r);
    }
    forall x | ReachedFrom(r, seeds, x) ensures x in c {
      var s :| s in seeds && Reaches(r, s, x);
      var n: nat :| Walk(r, s, x, n);
      CoveredWalk(r, c, s, x, n);
    }
  }

  lemma {:induction false} ReachSetLeast(r: Rel, seeds: set<Id>, d: set<Id>)
    requires seeds <= d && Covered(r, d, d)
    ensures ReachSet(r, seeds) <= d
  {
    forall x | x in ReachSet(r, seeds) ensures x in d {
      var s :| s in seeds && Reaches(r, s, x);
      var n: nat :| Walk(r, s, x, n);
      CoveredWalk(r, d, s, x, n);
    }
  }

  /** One expansion stays inside what the seeds reach and covers what it expanded. */
  lemma {:induction false} SuccessorsOf(r: Rel, seeds: set<Id>, xs: set<Id>)
    requires xs <= ReachSet(r, seeds)
    ensures Successors(r, xs) <= ReachSet(r, seeds)
    ensures Covered(r, xs, Successors(r, xs))
  {
    forall y | y in Successors(r, xs) ensures y in ReachSet(r, seeds) {
      var e :| e in r && e.0 in xs && e.1 == y;
      ReachedStep(r, seeds, e.0, e.1);
    }
    forall u, v | (u, v) in r && u in xs ensures v in Successors(r, xs) {
      assert (u, v).0 in xs && (u, v).1 == v;
    }
  }

  ghost predicate Expanding(r: Rel, seeds: set<Id>, c: set<Id>, frontier: set<Id>) {
    seeds <= c <= ReachSet(r, seeds) && frontier <= c && Covered(r, c - frontier, c)
  }

  ghost function Unseen(r: Rel, seeds: set<Id>, c: set<Id>): set<Id> {
    ReachSet(r, seeds) - c
  }

  lemma {:induction false} ExpandStep(r: Rel, seeds: set<Id>, c: set<Id>, frontier: set<Id>, batch: set<Id>)
    requires Expanding(r, seeds, c, frontier) && {} < batch <= frontier
    ensures var found := Successors(r, batch);
            var f := (frontier - batch) + (found - c);
            && Expanding(r, seeds, c + found, f)
            && (Unseen(r, seeds, c + found) < Unseen(r, seeds, c) ||
                (Unseen(r, seeds, c + found) == Unseen(r, seeds, c) && f < frontier))
  {
    var found := Successors(r, batch);
    SuccessorsOf(r, seeds, batch);
    if found <= c {
      assert c + found == c && found - c == {};
    } else {
      var x :| x in found && x !in c;
      assert x in Unseen(r, seeds, c) && x !in Unseen(r, seeds, c + found);
    }
  }

  lemma {:induction false} ExpandStart(r: Rel, seeds: set<Id>)
    ensures Expanding(r, seeds, seeds, seeds)
  {
    SeedsReached(r, seeds);
  }

  lemma {:induction false} ExpandedFully(r: Rel, seeds: set<Id>, c: set<Id>)
    requires Expanding(r, seeds, c, {})
    ensures c == ReachSet(r, seeds)
  {
    assert c - {} == c;
    ReachSetLeast(r, seeds, c);
  }

  /** One batch, of any size, taken off the frontier and replaced by what it newly found. */
  method Expand(r: Rel, ghost seeds: set<Id>, c: set<Id>, frontier: set<Id>) returns (d: set<Id>, f: set<Id>)
    requires Expanding(r, seeds, c, frontier) && frontier != {}
    ensures Expanding(r, seeds, d, f)
    ensures Unseen(r, seeds, d) < Unseen(r, seeds, c) || (Unseen(r, seeds, d) == Unseen(r, seeds, c) && f < frontier)
  {
    assert frontier <= frontier;
    var batch: set<Id> :| {} < batch <= frontier;
    ExpandStep(r, seeds, c, frontier, batch);
    var found := Successors(r, batch);
    d, f := c + found, (frontier - batch) + (found - c);
  }

  /** Frontier expansion, in batches of any size and order. */
  method Closure(r: Rel, seeds: set<Id>) returns (c: set<Id>)
    ensures c == ReachSet(r, seeds)
  {
    c := seeds;
    var frontier := seeds;
    ExpandStart(r, seeds);
    while frontier != {}
      invariant Expanding(r, seeds, c, frontier)
      decreases Unseen(r, seeds, c), frontier
    {
      c, frontier := Expand(r, seeds, c, frontier);
    }
    ExpandedFully(r, seeds, c);
  }

  /** The recursive reachability query: is goal reachable from start? */
  method Reachable(r: Rel, start: Id, goal: Id) returns (yes: bool)
    ensures yes <==> Reaches(r, start, goal)
  {
    var c := Closure(r, {start});
    yes := goal in c;
    ReachSetExact(r, {start});
    assert ReachedFrom(r, {start}, goal) <==> Reaches(r, start, goal) by {
      if Reaches(r, start, goal) { assert start in {start}; }
    }
  }

  // ---------------------------------------------------------------- adjacency lists

  /** The graph as a read collects it: each node with a list of neighbours. */
  type Adjacency = map<Id, seq<Id>>

  function Neighbours(g: Adjacency, x: Id): seq<Id> {
    if x in g then g[x] else []
  }

  function Arcs(g: Adjacency): Rel {
    set x, i | x in g && 0 <= i < |g[x]| :: (x, g[x][i])
  }

  lemma {:induction false} ArcsOf(g: Adjacency, x: Id, y: Id)
    ensures (x, y) in Arcs(g) <==> y in Neighbours(g, x)
  {
    if y in Neighbours(g, x) {
      var i :| 0 <= i < |g[x]| && g[x][i] == y;
      assert (x, g[x][i]) in Arcs(g);
    }
  }
}
