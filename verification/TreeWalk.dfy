/** The dependency tree: a first-visit depth-first walk with a depth bound, flattened in
    pre-order, and the status prune that runs over the finished list. */
module TreeWalk {

  import opened Digraph

  datatype Node = Node(id: Id, depth: nat, parent: Id)
  datatype Walked = Walked(nodes: seq<Node>, visited: set<Id>)

  function Grow(g: Adjacency, x: Id, depth: nat, max: nat, visited: set<Id>, parent: Id): Walked
    decreases max - depth, 0
  {
    if depth >= max || x in visited then Walked([], visited)
    else
      var below := GrowEach(g, Neighbours(g, x), depth + 1, max, visited + {x}, x);
      Walked([Node(x, depth, parent)] + below.nodes, below.visited)
  }

  function GrowEach(g: Adjacency, todo: seq<Id>, depth: nat, max: nat, visited: set<Id>, parent: Id): Walked
    requires depth <= max
    decreases max - depth, 1 + |todo|
  {
    if todo == [] then Walked([], visited)
    else
      var first := Grow(g, todo[0], depth, max, visited, parent);
      var rest := GrowEach(g, todo[1..], depth, max, first.visited, parent);
      Walked(first.nodes + rest.nodes, rest.visited)
  }

  function Tree(g: Adjacency, root: Id, max: nat): seq<Node> {
    Grow(g, root, 0, max, {}, "").nodes
  }

  function Ids(nodes: seq<Node>): set<Id> {
    set i | 0 <= i < |nodes| :: nodes[i].id
  }

  // ---------------------------------------------------------------- the shape of the answer

  /** A node, then the trees of its children one after another: pre-order, each subtree
      contiguous, every parent the node the subtree hangs from and joined to it by an edge. */
  ghost predicate IsTree(g: Adjacency, nodes: seq<Node>, parent: Id, depth: nat, max: nat)
    decreases |nodes|, 0
  {
    && nodes != [] && depth < max && nodes[0].parent == parent && nodes[0].depth == depth
    && (depth > 0 ==> (parent, nodes[0].id) in Arcs(g))
    && IsForest(g, nodes[1..], nodes[0].id, depth + 1, max)
  }

  ghost predicate IsForest(g: Adjacency, nodes: seq<Node>, parent: Id, depth: nat, max: nat)
    decreases |nodes|, 1
  {
    nodes == [] ||
    exists k :: 0 < k <= |nodes| && IsTree(g, nodes[..k], parent, depth, max) &&
        IsForest(g, nodes[k..], parent, depth, max)
  }

  ghost predicate NoRepeats(nodes: seq<Node>) {
    forall i, j :: 0 <= i < j < |nodes| ==> nodes[i].id != nodes[j].id
  }

  lemma {:induction false} JoinIds(a: seq<Node>, b: seq<Node>)
    ensures Ids(a + b) == Ids(a) + Ids(b)
  {
    forall x | x in Ids(a) ensures x in Ids(a + b) { var i :| 0 <= i < |a| && a[i].id == x; assert (a + b)[i].id == x; }
    forall x | x in Ids(b)
        ensures x in Ids(a + b) { var i :| 0 <= i < |b| && b[i].id == x; assert (a + b)[|a| + i].id == x; }
  }

  lemma {:induction false} JoinNoRepeats(a: seq<Node>, b: seq<Node>)
    requires NoRepeats(a) && NoRepeats(b) && Ids(a) !! Ids(b)
    ensures NoRepeats(a + b)
  {
    forall i, j | 0 <= i < j < |a + b| ensures (a + b)[i].id != (a + b)[j].id {
      if i < |a| <= j { assert a[i].id in Ids(a) && b[j - |a|].id in Ids(b); }
    }
  }

  /** What a walk lists is exactly what it newly visits. */
  ghost predicate Fresh(before: set<Id>, w: Walked) {
    before <= w.visited && NoRepeats(w.nodes) && Ids(w.nodes) == w.visited - before
  }

  lemma {:induction false} GrowShape(g: Adjacency, x: Id, depth: nat, max: nat, visited: set<Id>, parent: Id)
    requires depth > 0 ==> (parent, x) in Arcs(g)
    ensures var w := Grow(g, x, depth, max, visited, parent);
            Fresh(visited, w) && (w.nodes == [] || IsTree(g, w.nodes, parent, depth, max))
    decreases max - depth, 0
  {
    if depth < max && x !in visited {
      forall y | y in Neighbours(g, x) ensures (x, y) in Arcs(g) { ArcsOf(g, x, y); }
      GrowEachShape(g, Neighbours(g, x), depth + 1, max, visited + {x}, x);
      var below := GrowEach(g, Neighbours(g, x), depth + 1, max, visited + {x}, x);
      var head := [Node(x, depth, parent)];
      assert (head + below.nodes)[1..] == below.nodes;
      assert Ids(head) == {x} by { assert head[0].id in Ids(head); }
      JoinIds(head, below.nodes);
      JoinNoRepeats(head, below.nodes);
    }
  }

  lemma {:induction false} GrowEachShape(g: Adjacency, todo: seq<Id>, depth: nat, max: nat, visited: set<Id>,
                                         parent: Id)
    requires depth <= max && forall y :: y in todo ==> (parent, y) in Arcs(g)
    ensures var w := GrowEach(g, todo, depth, max, visited, parent);
            Fresh(visited, w) && IsForest(g, w.nodes, parent, depth, max)
    decreases max - depth, 1 + |todo|
  {
    if todo != [] {
      GrowShape(g, todo[0], depth, max, visited, parent);
      var first := Grow(g, todo[0], depth, max, visited, parent);
      GrowEachShape(g, todo[1..], depth, max, first.visited, parent);
      var rest := GrowEach(g, todo[1..], depth, max, first.visited, parent);
      JoinIds(first.nodes, rest.nodes);
      JoinNoRepeats(first.nodes, rest.nodes);
      var all := first.nodes + rest.nodes;
      if first.nodes == [] {
        assert all == rest.nodes;
      } else {
        assert all[..|first.nodes|] == first.nodes && all[|first.nodes|..] == rest.nodes;
      }
    }
  }

  /** THE WALK IS A TREE OF THE GRAPH, on every graph and for every bound: each node at most
      once, in pre-order with contiguous subtrees, every parent link an edge, every depth
      below the bound, and nothing listed that the root does not reach. */
  lemma {:induction false} WalkIsTree(g: Adjacency, root: Id, max: nat)
    requires max >= 1
    ensures IsTree(g, Tree(g, root, max), "", 0, max) && NoRepeats(Tree(g, root, max)) &&
            Tree(g, root, max)[0].id == root
    ensures Ids(Tree(g, root, max)) <= ReachSet(Arcs(g), {root})
  {
    GrowShape(g, root, 0, max, {}, "");
    ReachSetExact(Arcs(g), {root});
    assert root in ReachSet(Arcs(g), {root});
    GrowWithin(g, root, 0, max, {}, "", ReachSet(Arcs(g), {root}));
  }

  lemma {:induction false} GrowWithin(g: Adjacency, x: Id, depth: nat, max: nat, visited: set<Id>, parent: Id,
                                      all: set<Id>)
    requires Covered(Arcs(g), all, all) && x in all && visited <= all
    ensures Grow(g, x, depth, max, visited, parent).visited <= all
    decreases max - depth, 0
  {
    if depth < max && x !in visited {
      forall y | y in Neighbours(g, x) ensures y in all { ArcsOf(g, x, y); }
      GrowEachWithin(g, Neighbours(g, x), depth + 1, max, visited + {x}, x, all);
    }
  }

  lemma {:induction false} GrowEachWithin(g: Adjacency, todo: seq<Id>, depth: nat, max: nat, visited: set<Id>,
                                          parent: Id, all: set<Id>)
    requires Covered(Arcs(g), all, all) && depth <= max && visited <= all && forall y :: y in todo ==> y in all
    ensures GrowEach(g, todo, depth, max, visited, parent).visited <= all
    decreases max - depth, 1 + |todo|
  {
    if todo != [] {
      GrowWithin(g, todo[0], depth, max, visited, parent, all);
      GrowEachWithin(g, todo[1..], depth, max, Grow(g, todo[0], depth, max, visited, parent).visited, parent, all);
    }
  }

  // ---------------------------------------------------------------- what it lists

  /** Visited nodes that are not still open have all their neighbours visited. */
  ghost predicate Explored(g: Adjacency, visited: set<Id>, open: set<Id>) {
    Covered(Arcs(g), visited - open, visited)
  }

  /** Where the walk stands: inside what the root reaches, with one open node per level. */
  ghost predicate Stands(g: Adjacency, all: set<Id>, visited: set<Id>, open: set<Id>, depth: nat) {
    open <= visited <= all && |open| == depth && Explored(g, visited, open)
  }

  lemma {:induction false} GrowCovers(g: Adjacency, x: Id, depth: nat, max: nat, visited: set<Id>, parent: Id,
                                      all: set<Id>, open: set<Id>)
    requires Covered(Arcs(g), all, all) && |all| <= max && x in all && Stands(g, all, visited, open, depth)
    ensures var w := Grow(g, x, depth, max, visited, parent);
            visited + {x} <= w.visited && Stands(g, all, w.visited, open, depth)
    decreases max - depth, 0
  {
    if x !in visited {
      assert |open + {x}| == depth + 1;
      SubsetSize(open + {x}, all);
      var now := visited + {x};
      assert now - (open + {x}) == visited - open;
      forall y | y in Neighbours(g, x) ensures y in all { ArcsOf(g, x, y); }
      GrowEachCovers(g, Neighbours(g, x), depth + 1, max, now, x, all, open + {x});
      var end := GrowEach(g, Neighbours(g, x), depth + 1, max, now, x).visited;
      forall u, v | (u, v) in Arcs(g) && u in end - open ensures v in end {
        if u == x { ArcsOf(g, x, v); } else { assert u in end - (open + {x}); }
      }
    }
  }

  lemma {:induction false} GrowEachCovers(g: Adjacency, todo: seq<Id>, depth: nat, max: nat, visited: set<Id>,
                                          parent: Id, all: set<Id>, open: set<Id>)
    requires Covered(Arcs(g), all, all) && |all| <= max && depth <= max && (forall y :: y in todo ==> y in all)
    requires Stands(g, all, visited, open, depth)
    ensures var w := GrowEach(g, todo, depth, max, visited, parent);
            visited <= w.visited && Stands(g, all, w.visited, open, depth) && forall y :: y in todo ==> y in w.visited
    decreases max - depth, 1 + |todo|
  {
    if todo != [] {
      GrowCovers(g, todo[0], depth, max, visited, parent, all, open);
      GrowEachCovers(g, todo[1..], depth, max, Grow(g, todo[0], depth, max, visited, parent).visited, parent, all,
          open);
      assert todo == [todo[0]] + todo[1..];
    }
  }

  /** With a bound no smaller than their number, exactly the nodes the root reaches are listed. */
  lemma {:induction false} WalkIsComplete(g: Adjacency, root: Id, max: nat)
    requires |ReachSet(Arcs(g), {root})| <= max
    ensures Ids(Tree(g, root, max)) == ReachSet(Arcs(g), {root})
  {
    var all := ReachSet(Arcs(g), {root});
    ReachSetExact(Arcs(g), {root});
    assert root in all;
    GrowCovers(g, root, 0, max, {}, "", all, {});
    GrowShape(g, root, 0, max, {}, "");
    var visited := Grow(g, root, 0, max, {}, "").visited;
    assert visited - {} == visited;
    ReachSetLeast(Arcs(g), {root}, visited);
  }

  // ---------------------------------------------------------------- the status prune

  /** child -> parent, as the finished list records it; a later entry for an id wins. */
  function ParentMap(nodes: seq<Node>): map<Id, Id> {
    if nodes == [] then map[]
    else
      var last := nodes[|nodes| - 1];
      var before := ParentMap(nodes[..|nodes| - 1]);
      if last.parent != "" && last.parent != last.id then before[last.id := last.parent] else before
  }

  function Up(parents: map<Id, Id>): Rel {
    set x | x in parents :: (x, parents[x])
  }

  function Matching(nodes: seq<Node>, matches: set<Id>): set<Id> {
    set i | 0 <= i < |nodes| && nodes[i].id in matches :: nodes[i].id
  }

  function Filter(nodes: seq<Node>, keep: set<Id>): seq<Node> {
    if nodes == [] then []
    else Filter(nodes[..|nodes| - 1], keep) + (if nodes[|nodes| - 1].id in keep then [nodes[|nodes| - 1]] else [])
  }

  /** After some nodes: their matches are kept, and so is every chain above a kept node. */
  ghost predicate Keeping(parents: map<Id, Id>, wanted: set<Id>, matched: set<Id>, keep: set<Id>) {
    matched <= keep <= ReachSet(Up(parents), wanted) && Covered(Up(parents), keep, keep)
  }

  method KeepMatches(nodes: seq<Node>, matches: set<Id>, parents: map<Id, Id>) returns (keep: set<Id>)
    ensures keep == ReachSet(Up(parents), Matching(nodes, matches))
  {
    ghost var wanted := Matching(nodes, matches);
    keep := {};
    var i := 0;
    while i < |nodes|
      invariant 0 <= i <= |nodes| && Keeping(parents, wanted, Matching(nodes[..i], matches), keep)
    {
      MatchingStep(nodes, i, matches);
      if nodes[i].id in matches && nodes[i].id !in keep {
        assert nodes[i].id in wanted;
        keep := Climb(parents, nodes[i].id, keep, wanted);
      }
      i := i + 1;
    }
    assert nodes[..i] == nodes;
    ReachSetLeast(Up(parents), wanted, keep);
  }

  /** THE PRUNE KEEPS exactly the nodes that have a matching node at or below them in the
      walk, in walk order; matches is the set of ids that carry the wanted status. */
  method PruneTree(nodes: seq<Node>, matches: set<Id>) returns (kept: seq<Node>)
    ensures kept == Filter(nodes, ReachSet(Up(ParentMap(nodes)), Matching(nodes, matches)))
  {
    var parents := BuildParents(nodes);
    var keep := KeepMatches(nodes, matches, parents);
    kept := Keep(nodes, keep);
  }

  lemma {:induction false} MatchingStep(nodes: seq<Node>, i: nat, matches: set<Id>)
    requires i < |nodes|
    ensures Matching(nodes[..i + 1], matches) <= Matching(nodes[..i], matches) +
            (if nodes[i].id in matches then {nodes[i].id} else {})
  {
    forall x | x in Matching(nodes[..i + 1], matches)
        ensures x in Matching(nodes[..i], matches) || (x == nodes[i].id && x in matches) {
      var k :| 0 <= k < |nodes[..i + 1]| && nodes[..i + 1][k].id in matches && nodes[..i + 1][k].id == x;
      if k < i { assert nodes[..i][k].id == x; }
    }
  }

  method BuildParents(nodes: seq<Node>) returns (parents: map<Id, Id>)
    ensures parents == ParentMap(nodes)
  {
    parents := map[];
    var i := 0;
    while i < |nodes|
      invariant 0 <= i <= |nodes| && parents == ParentMap(nodes[..i])
    {
      assert nodes[..i + 1][..i] == nodes[..i];
      if nodes[i].parent != "" && nodes[i].parent != nodes[i].id { parents := parents[nodes[i].id := nodes[i].parent]; }
      i := i + 1;
    }
    assert nodes[..i] == nodes;
  }

  /** Everything kept but the current node has its parent kept. */
  ghost predicate Climbing(parents: map<Id, Id>, wanted: set<Id>, keep: set<Id>, current: Id) {
    keep <= ReachSet(Up(parents), wanted) && current in keep && Covered(Up(parents), keep - {current}, keep)
  }

  lemma {:induction false} UpIs(parents: map<Id, Id>, u: Id, v: Id)
    ensures (u, v) in Up(parents) <==> u in parents && parents[u] == v
  {
  }

  lemma {:induction false} ParentReached(parents: map<Id, Id>, wanted: set<Id>, x: Id)
    requires x in ReachSet(Up(parents), wanted) && x in parents
    ensures parents[x] in ReachSet(Up(parents), wanted)
  {
    UpIs(parents, x, parents[x]);
    ReachSetExact(Up(parents), wanted);
  }

  lemma {:induction false} ClimbStep(parents: map<Id, Id>, wanted: set<Id>, keep: set<Id>, current: Id)
    requires Climbing(parents, wanted, keep, current) && current in parents
    ensures Climbing(parents, wanted, keep + {parents[current]}, parents[current])
  {
    var parent := parents[current];
    ParentReached(parents, wanted, current);
    forall u, v | (u, v) in Up(parents) && u in (keep + {parent}) - {parent} ensures v in keep + {parent} {
      UpIs(parents, u, v);
      assert u == current || u in keep - {current};
    }
  }

  lemma {:induction false} ClimbStops(parents: map<Id, Id>, wanted: set<Id>, keep: set<Id>, current: Id)
    requires Climbing(parents, wanted, keep, current) && (current in parents ==> parents[current] in keep)
    ensures Covered(Up(parents), keep, keep)
  {
  }

  /** Keep a node and the chain above it, stopping at the first node already kept. */
  method Climb(parents: map<Id, Id>, start: Id, before: set<Id>, ghost wanted: set<Id>) returns (keep: set<Id>)
    requires start in wanted && before <= ReachSet(Up(parents), wanted) && Covered(Up(parents), before, before)
    ensures before + {start} <= keep <= ReachSet(Up(parents), wanted) && Covered(Up(parents), keep, keep)
  {
    SeedsReached(Up(parents), wanted);
    keep := before + {start};
    var current := start;
    assert keep - {start} <= before;
    while current in parents && parents[current] != current && parents[current] !in keep
      invariant before + {start} <= keep && Climbing(parents, wanted, keep, current)
      decreases ReachSet(Up(parents), wanted) - keep
    {
      ClimbStep(parents, wanted, keep, current);
      ghost var left := ReachSet(Up(parents), wanted) - keep;
      current := parents[current];
      keep := keep + {current};
      assert current in left;
    }
    ClimbStops(parents, wanted, keep, current);
  }

  method Keep(nodes: seq<Node>, keep: set<Id>) returns (kept: seq<Node>)
    ensures kept == Filter(nodes, keep)
  {
    kept := [];
    var i := 0;
    while i < |nodes|
      invariant 0 <= i <= |nodes| && kept == Filter(nodes[..i], keep)
    {
      assert nodes[..i + 1][..i] == nodes[..i];
      if nodes[i].id in keep { kept := kept + [nodes[i]]; }
      i := i + 1;
    }
    assert nodes[..i] == nodes;
  }

  lemma {:induction false} FilterIs(nodes: seq<Node>, keep: set<Id>, n: Node)
    ensures n in Filter(nodes, keep) <==> n in nodes && n.id in keep
  {
    if nodes != [] {
      FilterIs(nodes[..|nodes| - 1], keep, n);
      assert nodes == nodes[..|nodes| - 1] + [nodes[|nodes| - 1]];
    }
  }

  lemma {:induction false} ParentMapIs(nodes: seq<Node>, i: nat)
    requires NoRepeats(nodes) && i < |nodes| && nodes[i].parent != "" && nodes[i].parent != nodes[i].id
    ensures nodes[i].id in ParentMap(nodes) && ParentMap(nodes)[nodes[i].id] == nodes[i].parent
  {
    var n := |nodes| - 1;
    assert nodes == nodes[..n] + [nodes[n]];
    if i < n { ParentMapIs(nodes[..n], i); }
  }

  /** The parent links a listing shows. */
  ghost function Links(nodes: seq<Node>): Rel {
    set j | 0 <= j < |nodes| && nodes[j].parent !in {"", nodes[j].id} :: (nodes[j].id, nodes[j].parent)
  }

  lemma {:induction false} ParentMapFrom(nodes: seq<Node>, x: Id)
    requires x in ParentMap(nodes)
    ensures exists j :: 0 <= j < |nodes| && nodes[j].id == x && nodes[j].parent == ParentMap(nodes)[x] &&
                        nodes[j].parent !in {"", x}
    decreases |nodes|
  {
    var n := |nodes| - 1;
    assert nodes[n] in nodes;
    if !(nodes[n].id == x && nodes[n].parent !in {"", x}) {
      ParentMapFrom(nodes[..n], x);
      var j :| 0 <= j < n && nodes[..n][j].id == x && nodes[..n][j].parent == ParentMap(nodes[..n])[x] &&
        nodes[..n][j].parent !in {"", x};
      assert nodes[j] == nodes[..n][j];
    }
  }

  lemma {:induction false} LinksAre(nodes: seq<Node>)
    requires NoRepeats(nodes)
    ensures Up(ParentMap(nodes)) == Links(nodes)
  {
    forall u, v ensures (u, v) in Up(ParentMap(nodes)) <==> (u, v) in Links(nodes) {
      UpIs(ParentMap(nodes), u, v);
      if u in ParentMap(nodes) { ParentMapFrom(nodes, u); }
      if (u, v) in Links(nodes) {
        var j :| 0 <= j < |nodes| && nodes[j].parent !in {"", nodes[j].id} && (nodes[j].id, nodes[j].parent) == (u, v);
        ParentMapIs(nodes, j);
      }
    }
    forall e ensures e in Up(ParentMap(nodes)) <==> e in Links(nodes) { assert e == (e.0, e.1); }
  }

  /** What survives a prune: a listed node survives exactly when the parent links lead to it from
      some matching node, and the parent of a survivor survives, so the answer is still a tree. */
  lemma {:induction false} PruneIsExact(nodes: seq<Node>, matches: set<Id>, i: nat)
    requires NoRepeats(nodes) && i < |nodes|
    ensures var kept := Filter(nodes, ReachSet(Up(ParentMap(nodes)), Matching(nodes, matches)));
            && (nodes[i] in kept <==>
                exists m :: m in nodes && m.id in matches && Reaches(Links(nodes), m.id, nodes[i].id))
            && (nodes[i] in kept && nodes[i].parent != "" && nodes[i].parent != nodes[i].id ==>
                forall p :: p in nodes && p.id == nodes[i].parent ==> p in kept)
  {
    LinksAre(nodes);
    forall x ensures x in Matching(nodes, matches) <==> exists m :: m in nodes && m.id in matches && m.id == x {
      if m :| m in nodes && m.id in matches && m.id == x {
        var j :| 0 <= j < |nodes| && nodes[j] == m;
      }
    }
    var up, wanted := Up(ParentMap(nodes)), Matching(nodes, matches);
    var keep := ReachSet(up, wanted);
    ReachSetExact(up, wanted);
    FilterIs(nodes, keep, nodes[i]);
    if nodes[i].parent != "" && nodes[i].parent != nodes[i].id && nodes[i].id in keep {
      ParentMapIs(nodes, i);
      ParentReached(ParentMap(nodes), wanted, nodes[i].id);
      forall p | p in nodes && p.id == nodes[i].parent ensures p in Filter(nodes, keep) { FilterIs(nodes, keep, p); }
    }
  }

  // ---------------------------------------------------------------- both directions

  ghost function Pruned(nodes: seq<Node>, matches: set<Id>): seq<Node> {
    Filter(nodes, ReachSet(Up(ParentMap(nodes)), Matching(nodes, matches)))
  }

  predicate Lists(nodes: seq<Node>, x: Id) {
    exists i :: 0 <= i < |nodes| && nodes[i].id == x
  }

  /** The first entry for an id, as a list of at most one. */
  function EntryOf(nodes: seq<Node>, x: Id): (r: seq<Node>)
    ensures if Lists(nodes, x) then |r| == 1 && r[0] in nodes && r[0].id == x else r == []
  {
    if nodes == [] then []
    else if nodes[0].id == x then [nodes[0]]
    else
      assert forall i :: 0 < i < |nodes| ==> nodes[i] == nodes[1..][i - 1];
      EntryOf(nodes[1..], x)
  }

  /** The down half after its prune: when only the up half survived, its root is put back. */
  ghost function DownHalf(down: seq<Node>, up: seq<Node>, root: Id, matches: set<Id>): seq<Node> {
    var d, u := Pruned(down, matches), Pruned(up, matches);
    if u == [] || Lists(d, root) then d else EntryOf(down, root) + d
  }

  function WithoutRoot(nodes: seq<Node>, root: Id): seq<Node> {
    if nodes == [] then []
    else WithoutRoot(nodes[..|nodes| - 1], root) + (if nodes[|nodes| - 1].id == root then [] else [nodes[|nodes| - 1]])
  }

  /** Each half is pruned by itself, and the root is taken from the down half alone. */
  ghost function Both(down: seq<Node>, up: seq<Node>, root: Id, matches: set<Id>): seq<Node> {
    WithoutRoot(Pruned(up, matches), root) + DownHalf(down, up, root, matches)
  }

  method PruneBoth(down: seq<Node>, up: seq<Node>, root: Id, matches: set<Id>) returns (d: seq<Node>, u: seq<Node>)
    ensures d == DownHalf(down, up, root, matches) && u == Pruned(up, matches)
  {
    d := PruneTree(down, matches);
    u := PruneTree(up, matches);
    if u != [] && !Lists(d, root) { d := EntryOf(down, root) + d; }
  }

  method MergeBoth(down: seq<Node>, up: seq<Node>, root: Id, matches: set<Id>) returns (all: seq<Node>)
    ensures all == Both(down, up, root, matches)
  {
    var d, u := PruneBoth(down, up, root, matches);
    all := [];
    var i := 0;
    while i < |u|
      invariant 0 <= i <= |u| && all == WithoutRoot(u[..i], root)
    {
      assert u[..i + 1][..i] == u[..i];
      if u[i].id != root { all := all + [u[i]]; }
      i := i + 1;
    }
    assert u[..i] == u;
    all := all + d;
  }

  /** Every node but the first hangs from an earlier one. */
  ghost predicate Hangs(nodes: seq<Node>) {
    nodes != [] && forall i :: 0 < i < |nodes| ==> exists j :: 0 <= j < i && nodes[j].id == nodes[i].parent
  }

  lemma {:induction false} ForestHangs(g: Adjacency, nodes: seq<Node>, parent: Id, depth: nat, max: nat, i: nat)
    requires IsForest(g, nodes, parent, depth, max) && i < |nodes|
    ensures nodes[i].parent == parent || exists j :: 0 <= j < i && nodes[j].id == nodes[i].parent
    decreases |nodes|, 1
  {
    var k :| 0 < k <= |nodes| && IsTree(g, nodes[..k], parent, depth, max) &&
        IsForest(g, nodes[k..], parent, depth, max);
    if i < k {
      if i > 0 {
        var j := TreeHangs(g, nodes[..k], parent, depth, max, i);
        assert nodes[j].id == nodes[i].parent;
      }
    } else {
      ForestHangs(g, nodes[k..], parent, depth, max, i - k);
      if nodes[i].parent != parent {
        var j :| 0 <= j < i - k && nodes[k..][j].id == nodes[k..][i - k].parent;
        assert nodes[k + j].id == nodes[i].parent;
      }
    }
  }

  lemma {:induction false} TreeHangs(g: Adjacency, nodes: seq<Node>, parent: Id, depth: nat, max: nat, i: nat)
      returns (j: nat)
    requires IsTree(g, nodes, parent, depth, max) && 0 < i < |nodes|
    ensures j < i && nodes[j].id == nodes[i].parent
    decreases |nodes|, 0
  {
    ForestHangs(g, nodes[1..], nodes[0].id, depth + 1, max, i - 1);
    if nodes[i].parent == nodes[0].id {
      j := 0;
    } else {
      var k :| 0 <= k < i - 1 && nodes[1..][k].id == nodes[1..][i - 1].parent;
      j := k + 1;
    }
  }

  /** In a walk every node's parent chain ends at the root. */
  lemma {:induction false} ChainToRoot(nodes: seq<Node>, i: nat)
    requires Hangs(nodes) && NoRepeats(nodes) && i < |nodes| && "" !in Ids(nodes)
    ensures Reaches(Up(ParentMap(nodes)), nodes[i].id, nodes[0].id)
    decreases i
  {
    var up := Up(ParentMap(nodes));
    if i == 0 {
      ReachesSelf(up, nodes[0].id);
    } else {
      var j :| 0 <= j < i && nodes[j].id == nodes[i].parent;
      assert nodes[j].id in Ids(nodes) && nodes[j].id != nodes[i].id;
      ParentMapIs(nodes, i);
      UpIs(ParentMap(nodes), nodes[i].id, nodes[j].id);
      ReachesEdge(up, nodes[i].id, nodes[j].id);
      ChainToRoot(nodes, j);
      ReachesTrans(up, nodes[i].id, nodes[j].id, nodes[0].id);
    }
  }

  /** What one walk lists: the root first, without a parent, and every other node once. */
  ghost predicate IsWalk(nodes: seq<Node>, root: Id) {
    Hangs(nodes) && NoRepeats(nodes) && nodes[0].id == root && nodes[0].parent == "" && "" !in Ids(nodes)
  }

  lemma {:induction false} TreeIsWalk(g: Adjacency, root: Id, max: nat)
    requires max > 0 && "" !in Ids(Tree(g, root, max))
    ensures IsWalk(Tree(g, root, max), root)
  {
    var nodes := Tree(g, root, max);
    WalkIsTree(g, root, max);
    forall i | 0 < i < |nodes| ensures exists j :: 0 <= j < i && nodes[j].id == nodes[i].parent {
      var j := TreeHangs(g, nodes, "", 0, max, i);
    }
  }

  lemma {:induction false} FilterOnce(nodes: seq<Node>, keep: set<Id>)
    requires NoRepeats(nodes)
    ensures NoRepeats(Filter(nodes, keep))
  {
    if nodes != [] {
      var n := |nodes| - 1;
      FilterOnce(nodes[..n], keep);
      forall i | 0 <= i < |Filter(nodes[..n], keep)| ensures Filter(nodes[..n], keep)[i].id != nodes[n].id {
        FilterIs(nodes[..n], keep, Filter(nodes[..n], keep)[i]);
      }
    }
  }

  /** A pruned walk is empty exactly when nothing matches, and otherwise a list without
      repeats that holds its root and the parent of every other node. */
  lemma {:induction false} PrunedWalk(nodes: seq<Node>, root: Id, matches: set<Id>)
    requires IsWalk(nodes, root)
    ensures var p := Pruned(nodes, matches);
            && (p == [] <==> Matching(nodes, matches) == {}) && (p != [] ==> Lists(p, root)) && NoRepeats(p)
            && (forall n :: n in p ==> n in nodes && (n.parent != "" ==> Lists(p, n.parent)))
  {
    var p, wanted := Pruned(nodes, matches), Matching(nodes, matches);
    FilterOnce(nodes, ReachSet(Up(ParentMap(nodes)), wanted));
    forall n | n in p ensures n in nodes && wanted != {} && (n.parent != "" ==> Lists(p, n.parent)) {
      KeptListed(nodes, matches, n);
      var i :| 0 <= i < |nodes| && nodes[i] == n;
      if n.parent != "" { KeptParent(nodes, root, matches, i); }
    }
    if wanted != {} {
      var x :| x in wanted;
      var i :| 0 <= i < |nodes| && nodes[i].id in matches && nodes[i].id == x;
      KeptRoot(nodes, root, matches, i);
    }
    if p != [] { assert p[0] in p; }
  }

  lemma {:induction false} KeptRoot(nodes: seq<Node>, root: Id, matches: set<Id>, i: nat)
    requires IsWalk(nodes, root) && i < |nodes| && nodes[i].id in matches
    ensures Lists(Pruned(nodes, matches), root)
  {
    var up, wanted := Up(ParentMap(nodes)), Matching(nodes, matches);
    assert nodes[i].id in wanted;
    ChainToRoot(nodes, i);
    ReachSetExact(up, wanted);
    FilterIs(nodes, ReachSet(up, wanted), nodes[0]);
    var k :| 0 <= k < |Pruned(nodes, matches)| && Pruned(nodes, matches)[k] == nodes[0];
  }

  lemma {:induction false} KeptListed(nodes: seq<Node>, matches: set<Id>, n: Node)
    requires n in Pruned(nodes, matches)
    ensures n in nodes && Matching(nodes, matches) != {}
  {
    var up, wanted := Up(ParentMap(nodes)), Matching(nodes, matches);
    ReachSetExact(up, wanted);
    FilterIs(nodes, ReachSet(up, wanted), n);
    assert ReachedFrom(up, wanted, n.id);
  }

  lemma {:induction false} KeptParent(nodes: seq<Node>, root: Id, matches: set<Id>, i: nat)
    requires IsWalk(nodes, root) && i < |nodes| && nodes[i] in Pruned(nodes, matches) && nodes[i].parent != ""
    ensures Lists(Pruned(nodes, matches), nodes[i].parent)
  {
    var p := Pruned(nodes, matches);
    var j :| 0 <= j < i && nodes[j].id == nodes[i].parent;
    PruneIsExact(nodes, matches, i);
    assert nodes[j] in nodes && nodes[j].id != nodes[i].id;
    assert nodes[j] in p;
    var k :| 0 <= k < |p| && p[k] == nodes[j];
  }

  lemma {:induction false} WithoutRootIs(nodes: seq<Node>, root: Id, n: Node)
    ensures n in WithoutRoot(nodes, root) <==> n in nodes && n.id != root
  {
    if nodes != [] {
      WithoutRootIs(nodes[..|nodes| - 1], root, n);
      assert nodes == nodes[..|nodes| - 1] + [nodes[|nodes| - 1]];
    }
  }

  /** The pruned down half: it holds the root, once, whenever either half kept anything. */
  lemma {:induction false} DownHalfRooted(down: seq<Node>, up: seq<Node>, root: Id, matches: set<Id>)
    requires IsWalk(down, root) && IsWalk(up, root)
    ensures var d := DownHalf(down, up, root, matches);
            && (d == [] <==> Matching(down, matches) == {} && Matching(up, matches) == {})
            && (d != [] ==> Lists(d, root)) && NoRepeats(d)
            && (forall n :: n in d ==> n in down && (n.parent != "" ==> Lists(d, n.parent)))
  {
    PrunedWalk(down, root, matches);
    PrunedWalk(up, root, matches);
    var d, u := Pruned(down, matches), Pruned(up, matches);
    if u != [] && !Lists(d, root) {
      assert d == [] && Lists(down, root) by { assert down[0].id == root; }
      var e := EntryOf(down, root);
      assert e + d == e;
      var i :| 0 <= i < |down| && down[i] == e[0];
      assert i == 0;
    }
  }

  /** ONE ROOT, NO ORPHANS: a walk both ways is empty exactly when nothing matches in either
      direction, and otherwise lists the root exactly once and, for every node, the parent
      it hangs from in its own half. */
  lemma {:induction false} BothIsRooted(down: seq<Node>, up: seq<Node>, root: Id, matches: set<Id>)
    requires IsWalk(down, root) && IsWalk(up, root)
    ensures var all := Both(down, up, root, matches);
            && (all == [] <==> Matching(down, matches) == {} && Matching(up, matches) == {})
            && (all != [] ==> exists i :: 0 <= i < |all| && all[i].id == root &&
                                          forall j :: 0 <= j < |all| && all[j].id == root ==> j == i)
            && (forall n :: n in all && n.parent != "" ==> Lists(all, n.parent))
            && (forall n :: n in Pruned(up, matches) && n.id != root ==> n in all)
            && (forall n :: n in Pruned(down, matches) ==> n in all)
  {
    var u, d := WithoutRoot(Pruned(up, matches), root), DownHalf(down, up, root, matches);
    var all := u + d;
    PrunedWalk(up, root, matches);
    DownHalfRooted(down, up, root, matches);
    forall n ensures n in u <==>
        n in Pruned(up, matches) && n.id != root { WithoutRootIs(Pruned(up, matches), root, n); }
    if u != [] { assert u[0] in u; }
    if all != [] { RootOnce(u, d, root); }
    forall n | n in all && n.parent != "" ensures Lists(all, n.parent) {
      if n in d {
        ListsMore(u, d, n.parent);
      } else {
        UpParent(up, root, matches, u, n);
        ListsMore(u, d, n.parent);
      }
    }
  }

  /** UP, THEN DOWN: the surviving up nodes but the root come first, in their order, then the
      surviving down nodes in theirs; nothing else is listed but a root put back between. */
  lemma {:induction false} BothInOrder(down: seq<Node>, up: seq<Node>, root: Id, matches: set<Id>)
    requires IsWalk(down, root) && IsWalk(up, root)
    ensures var all, u, d := Both(down, up, root, matches), WithoutRoot(Pruned(up, matches), root),
            Pruned(down, matches);
            && u <= all && (forall n :: n in u <==> n in Pruned(up, matches) && n.id != root)
            && (all[|u|..] == d || (d == [] && all[|u|..] == [down[0]]))
  {
    var u, d := WithoutRoot(Pruned(up, matches), root), Pruned(down, matches);
    forall n ensures n in u <==>
        n in Pruned(up, matches) && n.id != root { WithoutRootIs(Pruned(up, matches), root, n); }
    PrunedWalk(down, root, matches);
    var half := DownHalf(down, up, root, matches);
    assert (u + half)[|u|..] == half;
    if half != d {
      assert Lists(down, root) by { assert down[0].id == root; }
      var e := EntryOf(down, root);
      var i :| 0 <= i < |down| && down[i] == e[0];
      assert i == 0 && e == [down[0]] && d == [];
    }
  }

  lemma {:induction false} ListsMore(u: seq<Node>, d: seq<Node>, x: Id)
    ensures Lists(u + d, x) <==> Lists(u, x) || Lists(d, x)
  {
    if Lists(u, x) { var i :| 0 <= i < |u| && u[i].id == x; assert (u + d)[i].id == x; }
    if Lists(d, x) { var i :| 0 <= i < |d| && d[i].id == x; assert (u + d)[|u| + i].id == x; }
  }

  lemma {:induction false} RootOnce(u: seq<Node>, d: seq<Node>, root: Id)
    requires (forall n :: n in u ==> n.id != root) && Lists(d, root) && NoRepeats(d)
    ensures exists i :: 0 <= i < |u + d| && (u + d)[i].id == root &&
                        forall j :: 0 <= j < |u + d| && (u + d)[j].id == root ==> j == i
  {
    var k :| 0 <= k < |d| && d[k].id == root;
    var all, i := u + d, |u| + k;
    assert all[i].id == root;
    forall j | 0 <= j < |u| ensures all[j].id != root { assert u[j] in u; }
    forall j | |u| <= j < |all| && all[j].id == root ensures j == i { assert all[j] == d[j - |u|]; }
  }

  /** The parent of an up node is an up node, or the root. */
  lemma {:induction false} UpParent(up: seq<Node>, root: Id, matches: set<Id>, u: seq<Node>, n: Node)
    requires IsWalk(up, root) && u == WithoutRoot(Pruned(up, matches), root) && n in u && n.parent != ""
    ensures Lists(u, n.parent) || n.parent == root
  {
    var p := Pruned(up, matches);
    PrunedWalk(up, root, matches);
    WithoutRootIs(p, root, n);
    var i :| 0 <= i < |p| && p[i].id == n.parent;
    if n.parent != root {
      WithoutRootIs(p, root, p[i]);
      var j :| 0 <= j < |u| && u[j] == p[i];
    }
  }
}
