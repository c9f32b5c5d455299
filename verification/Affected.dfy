/** The rows each mutation can affect, and the proof that each set frames its
    mutation: nothing outside it can change its blocked verdict. */
module Affected {

  import opened Digraph
  import opened IssueGraph

  // ---------------------------------------------------------------- mutations of the graph

  function SetRow(g: Graph, id: Id, row: Row): Graph {
    g.(rows := g.rows[id := row])
  }

  function SetEdge(g: Graph, s: Id, t: Id, e: Edge): Graph {
    g.(edges := g.edges[(s, t) := e])
  }

  function DropEdge(g: Graph, s: Id, t: Id): Graph {
    g.(edges := g.edges - {(s, t)})
  }

  /** Foreign keys remove every edge out of a deleted row and every typed edge into
      one; an edge whose target was stored as external has no foreign key. */
  function DropRows(g: Graph, d: set<Id>): Graph {
    Graph(g.rows - d, map e | e in g.edges && e.0 !in d && (e.1 !in d || IsExternal(e.0, e.1)) :: g.edges[e])
  }

  // ---------------------------------------------------------------- seeds

  predicate WaitsOnParentOf(g: Graph, w: Id, id: Id) {
    exists p :: p in g.rows && ChildOf(g, id, p) && Waits(g, w, p)
  }

  function StatusSeeds(g: Graph, id: Id): set<Id> {
    {id} + set w | w in g.rows && (Gates(g, w, id) || Waits(g, w, id) || WaitsOnParentOf(g, w, id))
  }

  predicate Derives(k: Kind) {
    k == Blocks || k == ConditionalBlocks || k == WaitsFor || k == ParentChild
  }

  function EdgeSeeds(g: Graph, s: Id, t: Id, k: Kind): set<Id> {
    if !Derives(k) then {}
    else if k == ParentChild then {s} + set w | w in g.rows && Waits(g, w, t)
    else {s}
  }

  predicate TouchedByDeletion(g: Graph, d: set<Id>, w: Id) {
    exists x :: x in d && (Gates(g, w, x) || Waits(g, w, x) || ChildOf(g, w, x) || WaitsOnParentOf(g, w, x))
  }

  function DeletionSeeds(g: Graph, d: set<Id>): set<Id> {
    set w | w in g.rows && w !in d && TouchedByDeletion(g, d, w)
  }

  // ---------------------------------------------------------------- framing

  lemma {:induction false} ClosedDown(g: Graph, a: set<Id>)
    requires Covered(Down(g), a, a)
    ensures forall c, p :: ChildOf(g, c, p) && p in a ==> c in a
  {
    forall c, p | ChildOf(g, c, p) && p in a ensures c in a {
      assert ChildOf(g, (c, p).0, (c, p).1);
      assert (p, c) in Down(g);
    }
  }

  /** s has the same children, and they stand the same way. */
  ghost predicate SameChildren(g: Graph, h: Graph, s: Id) {
    forall c :: (ChildOf(g, c, s) <==> ChildOf(h, c, s)) &&
                (ChildOf(g, c, s) ==> Live(g, c) == Live(h, c) && Shut(g, c) == Shut(h, c))
  }

  lemma {:induction false} GateSame(g: Graph, h: Graph, s: Id, gate: Gate)
    requires WellFormed(g) && WellFormed(h)
    requires SameChildren(g, h, s) && Live(g, s) == Live(h, s)
    ensures GateHolds(g, s, gate) == GateHolds(h, s, gate)
  {
  }

  /** A row's own causes are the same in g and h. */
  ghost predicate SameEdges(g: Graph, h: Graph, y: Id) {
    && (forall t :: Gates(g, y, t) <==> Gates(h, y, t))
    && (forall t :: Gates(g, y, t) ==> Live(g, t) == Live(h, t))
    && (forall s :: Waits(g, y, s) <==> Waits(h, y, s))
    && (forall s :: Waits(g, y, s) ==>
         && g.edges[(y, s)].gate == h.edges[(y, s)].gate
         && Live(g, s) == Live(h, s) && SameChildren(g, h, s))
  }

  lemma {:induction false} CauseSame(g: Graph, h: Graph, y: Id)
    requires WellFormed(g) && WellFormed(h) && SameEdges(g, h, y)
    ensures DirectCause(g, y) == DirectCause(h, y)
  {
    forall s | Waits(g, y, s) ensures WaitHolds(g, y, s) == WaitHolds(h, y, s) {
      GateSame(g, h, s, g.edges[(y, s)].gate);
    }
    forall t | Gates(g, y, t) ensures t in g.rows && t in h.rows { }
  }

  lemma {:induction false} StatusLeavesRow(g: Graph, id: Id, row: Row, y: Id)
    requires WellFormed(g) && id in g.rows && y in g.rows && y !in StatusSeeds(g, id)
    ensures DirectCause(g, y) == DirectCause(SetRow(g, id, row), y)
  {
    var h := SetRow(g, id, row);
    SameShape(g, h);
    forall s | Waits(g, y, s) ensures s != id && SameChildren(g, h, s) {
      assert !WaitsOnParentOf(g, y, id);
    }
    assert SameEdges(g, h, y);
    CauseSame(g, h, y);
  }

  lemma {:induction false} StatusFrames(g: Graph, id: Id, row: Row, a: set<Id>)
    requires WellFormed(g) && id in g.rows
    requires StatusSeeds(g, id) <= a && Covered(Down(g), a, a)
    ensures WellFormed(SetRow(g, id, row)) && Frames(g, SetRow(g, id, row), a)
  {
    var h := SetRow(g, id, row);
    SameShape(g, h);
    ClosedDown(h, a);
    forall y | y in h.rows && y !in a ensures DirectCause(g, y) == DirectCause(h, y) {
      StatusLeavesRow(g, id, row, y);
    }
  }

  /** Same ids and same edges: the hierarchy is the same. */
  lemma {:induction false} SameShape(g: Graph, h: Graph)
    requires g.rows.Keys == h.rows.Keys && g.edges == h.edges
    ensures forall s, t :: Joined(g, s, t) == Joined(h, s, t)
    ensures Hierarchy(g) == Hierarchy(h) && Down(g) == Down(h)
  {
  }

  /** Only the pair (s, t) differs between g and h. */
  ghost predicate DiffersAt(g: Graph, h: Graph, s: Id, t: Id) {
    && g.rows == h.rows
    && forall e :: e != (s, t) ==> (e in g.edges <==> e in h.edges) && (e in g.edges ==> g.edges[e] == h.edges[e])
  }

  lemma {:induction false} EdgeLeavesChildren(g: Graph, h: Graph, s: Id, t: Id, k: Kind, x: Id)
    requires DiffersAt(g, h, s, t) && (k != ParentChild || x != t)
    requires (s, t) in g.edges ==> g.edges[(s, t)].kind == k
    requires (s, t) in h.edges ==> h.edges[(s, t)].kind == k
    ensures SameChildren(g, h, x)
  {
  }

  lemma {:induction false} EdgeLeavesOwn(g: Graph, h: Graph, s: Id, t: Id, k: Kind, y: Id)
    requires DiffersAt(g, h, s, t) && (y != s || !Derives(k))
    requires (s, t) in g.edges ==> g.edges[(s, t)].kind == k
    requires (s, t) in h.edges ==> h.edges[(s, t)].kind == k
    ensures forall x :: Gates(g, y, x) == Gates(h, y, x) && ChildOf(g, y, x) == ChildOf(h, y, x)
    ensures forall x :: Waits(g, y, x) == Waits(h, y, x)
    ensures forall x :: Waits(g, y, x) ==> g.edges[(y, x)] == h.edges[(y, x)]
  {
  }

  lemma {:induction false} EdgeLeavesRow(g: Graph, h: Graph, s: Id, t: Id, k: Kind, y: Id)
    requires WellFormed(g) && WellFormed(h) && DiffersAt(g, h, s, t)
    requires (s, t) in g.edges ==> g.edges[(s, t)].kind == k
    requires (s, t) in h.edges ==> h.edges[(s, t)].kind == k
    requires y in h.rows && y !in EdgeSeeds(h, s, t, k)
    ensures DirectCause(g, y) == DirectCause(h, y)
    ensures forall p :: ChildOf(g, y, p) <==> ChildOf(h, y, p)
  {
    EdgeLeavesOwn(g, h, s, t, k, y);
    forall x | Waits(h, y, x) ensures SameChildren(g, h, x) {
      EdgeLeavesChildren(g, h, s, t, k, x);
    }
    CauseSame(g, h, y);
  }

  /** Adding, removing or rewriting an edge, with the affected set read off h. */
  lemma {:induction false} EdgeFrames(g: Graph, h: Graph, s: Id, t: Id, k: Kind, a: set<Id>)
    requires WellFormed(g) && WellFormed(h) && DiffersAt(g, h, s, t)
    requires (s, t) in g.edges ==> g.edges[(s, t)].kind == k
    requires (s, t) in h.edges ==> h.edges[(s, t)].kind == k
    requires EdgeSeeds(h, s, t, k) <= a && Covered(Down(h), a, a)
    ensures Frames(g, h, a)
  {
    ClosedDown(h, a);
    forall y | y in h.rows && y !in a
      ensures DirectCause(g, y) == DirectCause(h, y)
      ensures forall p :: ChildOf(g, y, p) <==> ChildOf(h, y, p)
    {
      EdgeLeavesRow(g, h, s, t, k, y);
    }
  }

  lemma {:induction false} DropRowsWellFormed(g: Graph, d: set<Id>)
    requires WellFormed(g)
    ensures WellFormed(DropRows(g, d))
    ensures forall s, t :: Joined(DropRows(g, d), s, t) <==> Joined(g, s, t) && s !in d && t !in d
    ensures Hierarchy(DropRows(g, d)) <= Hierarchy(g)
  {
    var h := DropRows(g, d);
    forall e | e in Hierarchy(h) ensures e in Hierarchy(g) {
      assert ChildOf(g, e.0, e.1);
    }
  }

  /** The descent does not pass through deleted rows. */
  function DownAround(g: Graph, d: set<Id>): Rel {
    set e | e in Down(g) && e.0 !in d && e.1 !in d
  }

  lemma {:induction false} DeletionLeavesRow(g: Graph, d: set<Id>, y: Id)
    requires WellFormed(g) && y in g.rows && y !in d && !TouchedByDeletion(g, d, y)
    ensures DirectCause(g, y) == DirectCause(DropRows(g, d), y)
    ensures forall p :: ChildOf(g, y, p) <==> ChildOf(DropRows(g, d), y, p)
  {
    var h := DropRows(g, d);
    DropRowsWellFormed(g, d);
    forall s | Waits(g, y, s) ensures s !in d && SameChildren(g, h, s) { DeletionLeavesChildren(g, d, y, s); }
    assert SameEdges(g, h, y);
    CauseSame(g, h, y);
  }

  lemma {:induction false} DeletionLeavesChildren(g: Graph, d: set<Id>, y: Id, s: Id)
    requires WellFormed(g) && !TouchedByDeletion(g, d, y) && Waits(g, y, s)
    ensures s !in d && SameChildren(g, DropRows(g, d), s)
  {
    DropRowsWellFormed(g, d);
    forall c | ChildOf(g, c, s) ensures c !in d {
      assert c in d ==> WaitsOnParentOf(g, y, c);
    }
  }

  lemma {:induction false} DeletionFrames(g: Graph, d: set<Id>, a: set<Id>)
    requires WellFormed(g)
    requires DeletionSeeds(g, d) <= a && Covered(DownAround(g, d), a, a)
    ensures Frames(g, DropRows(g, d), a)
  {
    var h := DropRows(g, d);
    DropRowsWellFormed(g, d);
    forall c, p | ChildOf(h, c, p) && p in a ensures c in a {
      assert ChildOf(g, (c, p).0, (c, p).1);
      assert (p, c) in DownAround(g, d);
    }
    forall y | y in h.rows && y !in a
      ensures DirectCause(g, y) == DirectCause(h, y)
      ensures forall p :: ChildOf(g, y, p) <==> ChildOf(h, y, p)
    {
      DeletionLeavesRow(g, d, y);
    }
  }

  // ---------------------------------------------------------------- a new row

  lemma {:induction false} CreateFrames(g: Graph, id: Id, row: Row)
    requires WellFormed(g) && id !in g.rows
    ensures WellFormed(SetRow(g, id, row)) && Frames(g, SetRow(g, id, row), {id})
    ensures Hierarchy(SetRow(g, id, row)) == Hierarchy(g)
  {
    var h := SetRow(g, id, row);
    assert forall s, t :: Joined(g, s, t) <==> Joined(h, s, t);
    forall y | y in h.rows && y != id ensures DirectCause(g, y) == DirectCause(h, y) {
      forall s | Waits(g, y, s) ensures SameChildren(g, h, s) {
        forall c | ChildOf(g, c, s) ensures c in g.rows { assert (c, s) in g.edges; }
      }
      assert SameEdges(g, h, y);
      CauseSame(g, h, y);
    }
  }
}
