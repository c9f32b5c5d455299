/** The cycle report: a depth-first walk of the merged blocking graph that records one
    canonical cycle per back edge. */
module CycleReport {

  import opened Digraph
  import opened Ordering
  import opened IssueGraph
  import opened Edits
  import opened Flags
  import opened Verbs
  import opened Histories
  import opened Acceptance

  datatype Dfs = Dfs(visited: set<Id>, cycles: seq<seq<Id>>)

  function Universe(g: Adjacency): set<Id> {
    g.Keys + set x, i | x in g && 0 <= i < |g[x]| :: g[x][i]
  }

  // ---------------------------------------------------------------- the walk

  function IndexOf(path: seq<Id>, x: Id): (i: nat)
    requires x in path
    ensures i < |path| && path[i] == x && forall j :: 0 <= j < i ==> path[j] != x
  {
    if path[0] == x then 0 else 1 + IndexOf(path[1..], x)
  }

  function Walk(g: Adjacency, node: Id, path: seq<Id>, s: Dfs): (t: Dfs)
    requires node in Universe(g) && node !in s.visited
    ensures s.visited <= t.visited && node in t.visited && s.cycles <= t.cycles
    decreases Universe(g) - s.visited, 0
  {
    WalkEach(g, Neighbours(g, node), path + [node], s.(visited := s.visited + {node}))
  }

  function WalkEach(g: Adjacency, todo: seq<Id>, path: seq<Id>, s: Dfs): (t: Dfs)
    requires forall x :: x in todo ==> x in Universe(g)
    ensures s.visited <= t.visited && s.cycles <= t.cycles
    decreases Universe(g) - s.visited, 1 + |todo|
  {
    if todo == [] then s
    else
      var x := todo[0];
      var next := if x !in s.visited then Walk(g, x, path, s)
                  else if x in path then s.(cycles := s.cycles + [RotateToLowest(path[IndexOf(path, x)..])])
                  else s;
      assert Universe(g) - next.visited <= Universe(g) - s.visited;
      WalkEach(g, todo[1..], path, next)
  }

  function WalkRoots(g: Adjacency, roots: seq<Id>, s: Dfs): (t: Dfs)
    requires forall x :: x in roots ==> x in Universe(g)
    ensures s.visited <= t.visited && s.cycles <= t.cycles && forall x :: x in roots ==> x in t.visited
  {
    if roots == [] then s
    else WalkRoots(g, roots[1..], if roots[0] in s.visited then s else Walk(g, roots[0], [], s))
  }

  // ---------------------------------------------------------------- rotation

  function LowestFrom(path: seq<Id>, i: nat, best: nat): (k: nat)
    requires best < |path| && i <= |path|
    ensures k < |path|
    decreases |path| - i
  {
    if i == |path| then best else LowestFrom(path, i + 1, if Below(path[i], path[best]) then i else best)
  }

  function Turn(path: seq<Id>, k: nat): seq<Id>
    requires k <= |path|
  {
    path[k..] + path[..k]
  }

  function RotateToLowest(path: seq<Id>): seq<Id> {
    if path == [] then [] else Turn(path, LowestFrom(path, 0, 0))
  }

  ghost predicate DistinctIds(path: seq<Id>) {
    forall i, j :: 0 <= i < j < |path| ==> path[i] != path[j]
  }

  /** Members in edge order, all different, the last pointing back at the first. */
  ghost predicate IsCycle(r: Rel, c: seq<Id>) {
    && c != [] && DistinctIds(c)
    && (forall i :: 0 <= i < |c| - 1 ==> (c[i], c[i + 1]) in r) && (c[|c| - 1], c[0]) in r
  }

  ghost predicate LowestFirst(c: seq<Id>) {
    c != [] && forall i :: 0 < i < |c| ==> Below(c[0], c[i])
  }

  lemma {:induction false} LowestFromIs(path: seq<Id>, i: nat, best: nat)
    requires best < |path| && i <= |path| && forall j :: 0 <= j < i ==> AtMost(path[best], path[j])
    ensures forall j :: 0 <= j < |path| ==> AtMost(path[LowestFrom(path, i, best)], path[j])
    decreases |path| - i
  {
    if i < |path| {
      var next := if Below(path[i], path[best]) then i else best;
      BelowTotal(path[i], path[best]);
      forall j | 0 <= j < i + 1 ensures AtMost(path[next], path[j]) {
        if Below(path[i], path[best]) && j < i && path[best] != path[j] { BelowTrans(path[i], path[best], path[j]); }
      }
      LowestFromIs(path, i + 1, next);
    }
  }

  lemma {:induction false} TurnAt(path: seq<Id>, k: nat, i: nat)
    requires k < |path| && i < |path|
    ensures |Turn(path, k)| == |path|
    ensures Turn(path, k)[i] == path[if i + k < |path| then i + k else i + k - |path|]
  {
  }

  lemma {:induction false} TurnKeepsCycle(r: Rel, c: seq<Id>, k: nat)
    requires IsCycle(r, c) && k < |c|
    ensures IsCycle(r, Turn(c, k))
  {
    var t := Turn(c, k);
    forall i | 0 <= i < |c| ensures t[i] == c[if i + k < |c| then i + k else i + k - |c|] { TurnAt(c, k, i); }
  }

  /** ROTATION IS CANONICAL: every rotation of a cycle turns to the same list, a rotation
      of it that starts at its lowest member. */
  lemma {:induction false} RotationIsCanonical(r: Rel, c: seq<Id>, k: nat)
    requires IsCycle(r, c) && k < |c|
    ensures IsCycle(r, RotateToLowest(c)) && LowestFirst(RotateToLowest(c)) &&
            (forall x :: x in RotateToLowest(c) <==> x in c)
    ensures RotateToLowest(Turn(c, k)) == RotateToLowest(c)
  {
    var m := LowestFrom(c, 0, 0);
    LowestFromIs(c, 0, 0);
    TurnKeepsCycle(r, c, m);
    TurnStartsLow(c, m);
    var d := Turn(c, k);
    var n := LowestFrom(d, 0, 0);
    LowestFromIs(d, 0, 0);
    SameTurn(c, k, m, n);
  }

  lemma {:induction false} TurnStartsLow(c: seq<Id>, m: nat)
    requires DistinctIds(c) && m < |c| && forall j :: 0 <= j < |c| ==> AtMost(c[m], c[j])
    ensures LowestFirst(Turn(c, m)) && forall x :: x in Turn(c, m) <==> x in c
  {
    var t := Turn(c, m);
    assert t[0] == c[m];
    forall i | 0 < i < |c| ensures Below(t[0], t[i]) { TurnAt(c, m, i); }
    assert c == c[..m] + c[m..];
  }

  lemma {:induction false} SameTurn(c: seq<Id>, k: nat, m: nat, n: nat)
    requires DistinctIds(c) && k < |c| && m < |c| && n < |Turn(c, k)|
    requires forall j :: 0 <= j < |c| ==> AtMost(c[m], c[j])
    requires forall j :: 0 <= j < |Turn(c, k)| ==> AtMost(Turn(c, k)[n], Turn(c, k)[j])
    ensures Turn(Turn(c, k), n) == Turn(c, m)
  {
    var d := Turn(c, k);
    forall i | 0 <= i < |c| ensures d[i] == c[if i + k < |c| then i + k else i + k - |c|] { TurnAt(c, k, i); }
    var at := if n + k < |c| then n + k else n + k - |c|;
    var back := if m >= k then m - k else m + |c| - k;
    assert d[n] == c[at] && d[back] == c[m];
    BelowTotal(c[at], c[m]);
    assert c[at] == c[m] && at == m;
    forall i | 0 <= i < |c| ensures Turn(d, n)[i] == Turn(c, m)[i] {
      TurnAt(d, n, i);
      TurnAt(c, m, i);
    }
  }

  // ---------------------------------------------------------------- why the walk finds a cycle when there is one

  /** The arc lies on the cycle: v comes after u, and the first member after the last. */
  ghost predicate OnCycle(c: seq<Id>, u: Id, v: Id) {
    exists i :: ArcAt(c, i, u, v)
  }

  ghost predicate ArcAt(c: seq<Id>, i: int, u: Id, v: Id) {
    0 <= i < |c| && c[i] == u && v == if i + 1 < |c| then c[i + 1] else c[0]
  }

  ghost predicate Reported(cycles: seq<seq<Id>>, u: Id, v: Id) {
    exists c :: c in cycles && OnCycle(c, u, v)
  }

  /** The arcs that lie on none of the cycles. */
  ghost function Unreported(r: Rel, cycles: seq<seq<Id>>): Rel {
    set e | e in r && !Reported(cycles, e.0, e.1)
  }

  lemma {:induction false} TurnKeepsArc(c: seq<Id>, k: nat, u: Id, v: Id)
    requires k < |c| && OnCycle(c, u, v)
    ensures OnCycle(Turn(c, k), u, v)
  {
    var t := Turn(c, k);
    var i :| ArcAt(c, i, u, v);
    var j := if i >= k then i - k else i - k + |c|;
    TurnAt(c, k, j);
    TurnAt(c, k, if j + 1 < |c| then j + 1 else 0);
    assert ArcAt(t, j, u, v);
  }

  /** Nothing leaves d, and nothing in d lies on a cycle. */
  ghost predicate Clear(r: Rel, d: set<Id>) {
    Covered(r, d, d) && forall u, n: nat :: u in d && n > 0 ==> !Digraph.Walk(r, u, u, n)
  }

  lemma {:induction false} ClearAdd(r: Rel, d: set<Id>, x: Id)
    requires Clear(r, d) && x !in d && forall v :: (x, v) in r ==> v in d
    ensures Clear(r, d + {x})
  {
    forall n: nat | n > 0 ensures !Digraph.Walk(r, x, x, n) {
      if Digraph.Walk(r, x, x, n) {
        var v :| (x, v) in r && Digraph.Walk(r, v, x, n - 1);
        CoveredWalk(r, d, v, x, n - 1);
      }
    }
  }

  lemma {:induction false} ClearShrinks(r: Rel, s: Rel, d: set<Id>)
    requires Clear(r, d) && s <= r
    ensures Clear(s, d)
  {
    forall u, n: nat | u in d && n > 0 ensures !Digraph.Walk(s, u, u, n) {
      if Digraph.Walk(s, u, u, n) { WalkGrows(s, r, u, u, n); }
    }
  }

  lemma {:induction false} ClearIsAcyclic(g: Adjacency, r: Rel, d: set<Id>)
    requires r <= Arcs(g) && Clear(r, d) && g.Keys <= d
    ensures Acyclic(r)
  {
    forall u, n: nat | n > 0 && u !in d ensures !Digraph.Walk(r, u, u, n) {
      forall v ensures (u, v) !in r { ArcsOf(g, u, v); }
    }
  }

  function Ids(path: seq<Id>): set<Id> {
    set x | x in path
  }

  ghost predicate IsPath(r: Rel, path: seq<Id>) {
    DistinctIds(path) && forall i :: 0 <= i < |path| - 1 ==> (path[i], path[i + 1]) in r
  }

  ghost predicate Genuine(r: Rel, cycles: seq<seq<Id>>) {
    forall i :: 0 <= i < |cycles| ==> IsCycle(r, cycles[i]) && LowestFirst(cycles[i])
  }

  /** What holds at every moment of the walk, with path the nodes still open. */
  ghost predicate Sane(g: Adjacency, path: seq<Id>, s: Dfs) {
    && IsPath(Arcs(g), path) && Ids(path) <= s.visited && Genuine(Arcs(g), s.cycles)
    && Clear(Unreported(Arcs(g), s.cycles), s.visited - Ids(path))
  }

  lemma {:induction false} InUniverse(g: Adjacency, x: Id, y: Id)
    requires y in Neighbours(g, x)
    ensures y in Universe(g)
  {
    var i :| 0 <= i < |g[x]| && g[x][i] == y;
    assert g[x][i] in Universe(g);
  }

  lemma {:induction false} BackEdgeIsCycle(r: Rel, path: seq<Id>, x: Id)
    requires IsPath(r, path) && path != [] && x in path && (path[|path| - 1], x) in r
    ensures IsCycle(r, RotateToLowest(path[IndexOf(path, x)..])) &&
            LowestFirst(RotateToLowest(path[IndexOf(path, x)..]))
    ensures OnCycle(RotateToLowest(path[IndexOf(path, x)..]), path[|path| - 1], x)
  {
    var c := path[IndexOf(path, x)..];
    assert IsCycle(r, c);
    RotationIsCanonical(r, c, 0);
    assert ArcAt(c, |c| - 1, path[|path| - 1], x);
    TurnKeepsArc(c, LowestFrom(c, 0, 0), path[|path| - 1], x);
  }

  lemma {:induction false} OneMoreCycle(g: Adjacency, path: seq<Id>, s: Dfs, c: seq<Id>)
    requires Sane(g, path, s) && IsCycle(Arcs(g), c) && LowestFirst(c)
    ensures Sane(g, path, s.(cycles := s.cycles + [c]))
  {
    var more := s.cycles + [c];
    assert forall d :: d in s.cycles ==> d in more;
    ClearShrinks(Unreported(Arcs(g), s.cycles), Unreported(Arcs(g), more), s.visited - Ids(path));
  }

  lemma {:induction false} OpenNode(g: Adjacency, node: Id, path: seq<Id>, s: Dfs)
    requires Sane(g, path, s) && node !in s.visited && (path != [] ==> (path[|path| - 1], node) in Arcs(g))
    ensures Sane(g, path + [node], s.(visited := s.visited + {node}))
  {
    var open := path + [node];
    assert Ids(open) == Ids(path) + {node};
    assert (s.visited + {node}) - Ids(open) == s.visited - Ids(path);
    assert node !in path by { assert node !in Ids(path); }
  }

  lemma {:induction false} CloseNode(g: Adjacency, node: Id, path: seq<Id>, t: Dfs)
    requires Sane(g, path + [node], t) && IsPath(Arcs(g), path) && node !in path
    requires forall x :: x in Neighbours(g, node) ==>
               x in t.visited && (x !in path + [node] || Reported(t.cycles, node, x))
    ensures Sane(g, path, t)
  {
    assert Ids(path + [node]) == Ids(path) + {node};
    var d, r := t.visited - Ids(path + [node]), Unreported(Arcs(g), t.cycles);
    forall v | (node, v) in r ensures v in d {
      ArcsOf(g, node, v);
      assert !Reported(t.cycles, (node, v).0, (node, v).1);
    }
    ClearAdd(r, d, node);
    assert t.visited - Ids(path) == d + {node};
  }

  lemma {:induction false} WalkSane(g: Adjacency, node: Id, path: seq<Id>, s: Dfs)
    requires Sane(g, path, s) && node in Universe(g) && node !in s.visited
    requires path != [] ==> (path[|path| - 1], node) in Arcs(g)
    ensures Sane(g, path, Walk(g, node, path, s))
    decreases Universe(g) - s.visited, 0
  {
    OpenNode(g, node, path, s);
    forall x | x in Neighbours(g, node)
        ensures x in Universe(g) && (node, x) in Arcs(g) { ArcsOf(g, node, x); InUniverse(g, node, x); }
    assert node !in path by { assert node !in Ids(path); }
    WalkEachSane(g, Neighbours(g, node), path + [node], s.(visited := s.visited + {node}));
    CloseNode(g, node, path, Walk(g, node, path, s));
  }

  lemma {:induction false} WalkEachSane(g: Adjacency, todo: seq<Id>, path: seq<Id>, s: Dfs)
    requires Sane(g, path, s) && path != []
    requires forall x :: x in todo ==> x in Universe(g) && (path[|path| - 1], x) in Arcs(g)
    ensures Sane(g, path, WalkEach(g, todo, path, s))
    ensures var t := WalkEach(g, todo, path, s);
            forall x :: x in todo ==> x in t.visited && (x !in path || Reported(t.cycles, path[|path| - 1], x))
    decreases Universe(g) - s.visited, 1 + |todo|
  {
    if todo != [] {
      var x := todo[0];
      assert x in todo;
      var next := s;
      if x !in s.visited {
        WalkSane(g, x, path, s);
        next := Walk(g, x, path, s);
        assert x !in path by { assert x !in Ids(path); }
      } else if x in path {
        BackEdgeIsCycle(Arcs(g), path, x);
        var c := RotateToLowest(path[IndexOf(path, x)..]);
        OneMoreCycle(g, path, s, c);
        next := s.(cycles := s.cycles + [c]);
        assert c in next.cycles;
      }
      assert Universe(g) - next.visited <= Universe(g) - s.visited;
      WalkEachSane(g, todo[1..], path, next);
      assert todo == [x] + todo[1..];
      assert forall d :: d in next.cycles ==> d in WalkEach(g, todo, path, s).cycles;
    }
  }

  lemma {:induction false} WalkRootsSane(g: Adjacency, roots: seq<Id>, s: Dfs)
    requires Sane(g, [], s) && forall x :: x in roots ==> x in Universe(g)
    ensures Sane(g, [], WalkRoots(g, roots, s))
    decreases |roots|
  {
    if roots != [] {
      assert roots[0] in roots;
      if roots[0] !in s.visited { WalkSane(g, roots[0], [], s); }
      WalkRootsSane(g, roots[1..], if roots[0] in s.visited then s else Walk(g, roots[0], [], s));
    }
  }

  // ---------------------------------------------------------------- the report

  /** The cycles of a graph, each at its lowest member, in order. */
  function CyclePaths(g: Adjacency, roots: seq<Id>): seq<seq<Id>>
    requires forall x :: x in roots ==> x in Universe(g)
  {
    Sort(ListAtMost, WalkRoots(g, roots, Dfs({}, [])).cycles)
  }

  lemma {:induction false} CycleWalks(r: Rel, c: seq<Id>, i: nat)
    requires IsCycle(r, c) && i < |c|
    ensures Digraph.Walk(r, c[i], c[0], |c| - i)
    decreases |c| - i
  {
    if i < |c| - 1 {
      CycleWalks(r, c, i + 1);
    } else {
      assert Digraph.Walk(r, c[0], c[0], 0);
    }
  }

  /** EMPTY EXACTLY WHEN ACYCLIC. From any order of roots that covers the sources, the
      report is empty if and only if the graph has no cycle, and every cycle in it is a
      genuine one: members in edge order, all different, lowest first; the list is sorted. No
      cycle goes unmentioned: without the arcs of the reported ones the graph is acyclic. */
  lemma {:induction false} ReportIsExact(g: Adjacency, roots: seq<Id>)
    requires forall x :: x in roots <==> x in g
    ensures CyclePaths(g, roots) == [] <==> Acyclic(Arcs(g))
    ensures Genuine(Arcs(g), CyclePaths(g, roots)) && Sorted(ListAtMost, CyclePaths(g, roots))
    ensures Acyclic(Unreported(Arcs(g), CyclePaths(g, roots)))
  {
    var r, start := Arcs(g), Dfs({}, []);
    var end := WalkRoots(g, roots, start);
    assert Sane(g, [], start);
    WalkRootsSane(g, roots, start);
    ListsOrdered();
    SortSorts(ListAtMost, end.cycles);
    var report := CyclePaths(g, roots);
    assert |multiset(report)| == |report| && |multiset(end.cycles)| == |end.cycles|;
    forall i | 0 <= i < |report| ensures IsCycle(r, report[i]) && LowestFirst(report[i]) {
      assert report[i] in multiset(report);
      assert report[i] in end.cycles;
    }
    assert end.visited - Ids([]) == end.visited;
    ClearIsAcyclic(g, Unreported(r, end.cycles), end.visited);
    SameReported(r, report, end.cycles);
    if report == [] {
      assert Unreported(r, report) == r;
    } else {
      CycleWalks(r, report[0], 0);
    }
  }

  lemma {:induction false} SameReported(r: Rel, a: seq<seq<Id>>, b: seq<seq<Id>>)
    requires multiset(a) == multiset(b)
    ensures Unreported(r, a) == Unreported(r, b)
  {
    assert forall c :: c in a <==> c in multiset(a);
    assert forall c :: c in b <==> c in multiset(b);
  }

  // ---------------------------------------------------------------- the edge rows as read

  function Targets(rows: seq<(Id, Id)>, x: Id): (ts: seq<Id>)
    ensures forall y :: y in ts <==> (x, y) in rows
  {
    if rows == [] then []
    else (if rows[0].0 == x then [rows[0].1] else []) + Targets(rows[1..], x)
  }

  function Sources(rows: seq<(Id, Id)>): (ss: seq<Id>)
    ensures forall x :: x in ss <==> exists y :: (x, y) in rows
  {
    if rows == [] then []
    else
      assert rows == [rows[0]] + rows[1..];
      assert (rows[0].0, rows[0].1) in rows;
      [rows[0].0] + Sources(rows[1..])
  }

  function RowRel(rows: seq<(Id, Id)>): Rel {
    set e | e in rows
  }

  function Collect(rows: seq<(Id, Id)>): Adjacency {
    map x | x in Sources(rows) :: Distinct(Targets(rows, x))
  }

  lemma {:induction false} CollectEdges(rows: seq<(Id, Id)>)
    ensures Arcs(Collect(rows)) == RowRel(rows)
    ensures forall x :: x in Distinct(Sources(rows)) <==> x in Collect(rows)
  {
    var g := Collect(rows);
    DistinctIs(Sources(rows));
    forall x, y ensures (x, y) in Arcs(g) <==> (x, y) in rows {
      ArcsOf(g, x, y);
      DistinctIs(Targets(rows, x));
    }
    forall e ensures e in Arcs(g) <==> e in rows { assert e == (e.0, e.1); }
  }

  function Detect(rows: seq<(Id, Id)>): seq<seq<Id>> {
    CollectEdges(rows);
    CyclePaths(Collect(rows), Distinct(Sources(rows)))
  }

  /** THE REPORT IS A FUNCTION OF THE EDGE SET: rows in any order and any number of
      times give the same list, empty exactly when the edge set is acyclic. */
  lemma {:induction false} DetectIsCanonical(rows: seq<(Id, Id)>, others: seq<(Id, Id)>)
    requires forall e :: e in rows <==> e in others
    ensures Detect(rows) == Detect(others)
    ensures Detect(rows) == [] <==> Acyclic(RowRel(rows))
    ensures Genuine(RowRel(rows), Detect(rows)) && Sorted(ListAtMost, Detect(rows))
    ensures Acyclic(Unreported(RowRel(rows), Detect(rows)))
  {
    forall x ensures Distinct(Targets(rows, x)) == Distinct(Targets(others, x)) {
      DistinctUnique(Targets(rows, x), Targets(others, x));
    }
    DistinctUnique(Sources(rows), Sources(others));
    assert Collect(rows) == Collect(others);
    CollectEdges(rows);
    ReportIsExact(Collect(rows), Distinct(Sources(rows)));
  }

  // ---------------------------------------------------------------- the report of a store

  /** The edges the detector reads: blocking ones of both kinds, dangling and external ones too. */
  function Blocking(g: Graph): Rel {
    set e | e in g.edges && (g.edges[e].kind == Blocks || g.edges[e].kind == ConditionalBlocks)
  }

  /** THE REPORT IS ABOUT BLOCKS AND CONDITIONAL-BLOCKS, sound store or not: it is empty exactly
      when no walk over stored edges of those two types comes back to its start, and every arc
      of every reported cycle is such an edge. */
  lemma {:induction false} ReportReadsBlocks(g: Graph, rows: seq<(Id, Id)>)
    requires forall e :: e in rows <==> e in Blocking(g)
    ensures Detect(rows) == [] <==> Acyclic(Pairs(g, [], BLOCKING_KINDS))
    ensures forall c, u, v :: c in Detect(rows) && OnCycle(c, u, v) ==>
              (u, v) in g.edges && g.edges[(u, v)].kind in BLOCKING_KINDS
  {
    assert RowRel(rows) == Blocking(g) == Pairs(g, [], BLOCKING_KINDS);
    DetectIsCanonical(rows, rows);
    forall c, u, v | c in Detect(rows) && OnCycle(c, u, v) ensures (u, v) in Blocking(g) {
      var i :| ArcAt(c, i, u, v);
      assert IsCycle(RowRel(rows), c);
    }
  }

  /** A NON-EMPTY REPORT IS A BROKEN STORE: whatever order its edge rows are read in, the
      report of any store a run of the verbs has built from a sound one is empty. */
  lemma {:induction false} SoundStoreReportsNothing(cfg: Config, st: State, ops: seq<Op>, rows: seq<(Id, Id)>)
    requires Sound(st) && forall e :: e in rows <==> e in Blocking(Run(cfg, st, ops).g)
    ensures Detect(rows) == []
  {
    RunKeeps(cfg, st, ops);
    var g := Run(cfg, st, ops).g;
    assert RowRel(rows) == Blocking(g) <= Scheduling(g);
    AcyclicShrinks(Blocking(g), Scheduling(g));
    DetectIsCanonical(rows, rows);
  }
}
