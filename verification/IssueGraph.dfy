/** The two-plane issue graph, the blocking predicate over it, and the incremental
    settlement of the stored is_blocked column against a full recompute. */
module IssueGraph {

  import opened Digraph

  datatype Status = Open | InProgress | Blocked | Deferred | Closed | Pinned | Hooked | Custom(name: string)
  datatype Kind = Blocks | ConditionalBlocks | ParentChild | WaitsFor | Other(name: string)

  /** The gate members of a waits-for edge's metadata. */
  datatype Gate = Gate(anyChildren: bool, alsoBlocks: bool)
  const ALL_CHILDREN := Gate(false, false)

  datatype Edge = Edge(kind: Kind, gate: Gate)
  datatype Plane = Issues | Wisps
  datatype Row = Row(plane: Plane, title: string, status: Status, assignee: string, version: int,
                     updatedAt: int, metadata: map<string, string>)

  /** Both planes share one id space, and a pair of ids holds at most one edge. */
  datatype Graph = Graph(rows: map<Id, Row>, edges: map<(Id, Id), Edge>)

  // ---------------------------------------------------------------- targets outside this database

  /** The id up to and including its first hyphen. */
  function ExtractPrefix(id: Id): string {
    if '-' !in id then "" else if id[0] == '-' then "-" else [id[0]] + ExtractPrefix(id[1..])
  }

  predicate IsExternal(source: Id, target: Id) {
    "external:" <= target || ExtractPrefix(source) != ExtractPrefix(target)
  }

  // ---------------------------------------------------------------- edges as the derivation reads them

  predicate Live(g: Graph, x: Id) {
    x in g.rows && g.rows[x].status != Closed && g.rows[x].status != Pinned
  }

  predicate Shut(g: Graph, x: Id) {
    x in g.rows && g.rows[x].status == Closed
  }

  predicate Joined(g: Graph, s: Id, t: Id) {
    (s, t) in g.edges && t in g.rows && !IsExternal(s, t)
  }

  predicate Gates(g: Graph, s: Id, t: Id) {
    Joined(g, s, t) && (g.edges[(s, t)].kind == Blocks || g.edges[(s, t)].kind == ConditionalBlocks)
  }

  predicate ChildOf(g: Graph, c: Id, p: Id) {
    Joined(g, c, p) && g.edges[(c, p)].kind == ParentChild
  }

  predicate Waits(g: Graph, w: Id, s: Id) {
    Joined(g, w, s) && g.edges[(w, s)].kind == WaitsFor
  }

  /** What the schema enforces: sources are rows, and so are typed targets. */
  ghost predicate WellFormed(g: Graph) {
    forall s, t :: (s, t) in g.edges ==> s in g.rows && s != t && (IsExternal(s, t) || t in g.rows)
  }

  /** child -> parent, as inheritance reads it. */
  function Hierarchy(g: Graph): Rel {
    set e | e in g.edges && ChildOf(g, e.0, e.1)
  }

  /** parent -> child. */
  function Down(g: Graph): Rel {
    set e | e in g.edges && ChildOf(g, e.0, e.1) :: (e.1, e.0)
  }

  // ---------------------------------------------------------------- the blocking predicate

  /** The gate over the spawner's children is not yet satisfied. */
  predicate GateHolds(g: Graph, spawner: Id, gate: Gate) {
    || (&& (exists c :: c in g.rows && ChildOf(g, c, spawner) && Live(g, c))
        && !(gate.anyChildren && exists c :: c in g.rows && ChildOf(g, c, spawner) && Shut(g, c)))
    || (gate.alsoBlocks && Live(g, spawner))
  }

  predicate WaitHolds(g: Graph, x: Id, s: Id) {
    Waits(g, x, s) && GateHolds(g, s, g.edges[(x, s)].gate)
  }

  predicate DirectCause(g: Graph, x: Id) {
    || (exists t :: t in g.rows && Gates(g, x, t) && Live(g, t))
    || (exists s :: s in g.rows && WaitHolds(g, x, s))
  }

  /** The predicate for one row, read off the stored flags of its parents. */
  predicate Wants(g: Graph, b: set<Id>, x: Id) {
    Live(g, x) && (DirectCause(g, x) || exists p :: p in g.rows && ChildOf(g, x, p) && p in b)
  }

  /** The stored column satisfies the predicate at every row of both planes. */
  ghost predicate Consistent(g: Graph, b: set<Id>) {
    forall x :: x in b <==> x in g.rows && Wants(g, b, x)
  }

  // ---------------------------------------------------------------- recompute and settlement

  /** x carries the flag after n levels of propagation: it did in base, or it may be
      rewritten and a chain of live rows leads up to a direct cause or to base. */
  ghost predicate Lift(g: Graph, a: set<Id>, base: set<Id>, x: Id, n: nat)
    decreases n
  {
    || x in base
    || (x in a && Live(g, x) &&
        (DirectCause(g, x) || (n > 0 && exists p :: ChildOf(g, x, p) && Lift(g, a, base, p, n - 1))))
  }

  ghost function Lifted(g: Graph, a: set<Id>, base: set<Id>): set<Id> {
    set x | x in g.rows && exists n: nat :: Lift(g, a, base, x, n)
  }

  /** The full recompute: every row is derived from the graph and the statuses alone. */
  ghost function Recompute(g: Graph): set<Id> {
    Lifted(g, g.rows.Keys, {})
  }

  /** The incremental form: rows outside the affected set keep their stored flag. */
  ghost function Settled(g: Graph, a: set<Id>, b: set<Id>): set<Id> {
    Lifted(g, a, (b * g.rows.Keys) - a)
  }

  /** The mark-only form: flags are only ever set, and only inside the affected set. */
  ghost function Marked(g: Graph, a: set<Id>, b: set<Id>): set<Id> {
    Lifted(g, a, b)
  }

  lemma {:induction false} LiftIn(g: Graph, a: set<Id>, base: set<Id>, x: Id, n: nat)
    requires x in g.rows && Lift(g, a, base, x, n)
    ensures x in Lifted(g, a, base)
  {
  }

  /** Lifted solves its own equation at every row. */
  lemma {:induction false} LiftedFix(g: Graph, a: set<Id>, base: set<Id>, x: Id)
    requires x in g.rows
    ensures x in Lifted(g, a, base) <==> x in base || (x in a && Wants(g, Lifted(g, a, base), x))
  {
    var t := Lifted(g, a, base);
    if x in t && x !in base {
      var n: nat :| Lift(g, a, base, x, n);
      if !DirectCause(g, x) {
        var p :| ChildOf(g, x, p) && Lift(g, a, base, p, n - 1);
        LiftIn(g, a, base, p, n - 1);
        assert p in g.rows && ChildOf(g, x, p) && p in t;
      }
    }
    if x in base || (x in a && Live(g, x) && DirectCause(g, x)) {
      LiftIn(g, a, base, x, 0);
    } else if x in a && Wants(g, t, x) {
      var p :| p in g.rows && ChildOf(g, x, p) && p in t;
      var n: nat :| Lift(g, a, base, p, n);
      LiftIn(g, a, base, x, n + 1);
    }
  }

  /** Lifted is below every set that already holds base and is stable inside a. */
  lemma {:induction false} LiftLeast(g: Graph, a: set<Id>, base: set<Id>, b: set<Id>, x: Id, n: nat)
    requires base <= b && forall y :: y in a && Wants(g, b, y) ==> y in b
    requires Lift(g, a, base, x, n)
    ensures x in b
    decreases n
  {
    if x !in base && !DirectCause(g, x) {
      var p :| ChildOf(g, x, p) && Lift(g, a, base, p, n - 1);
      LiftLeast(g, a, base, b, p, n - 1);
      assert p in g.rows && ChildOf(g, x, p) && p in b;
    }
  }

  /** With an acyclic hierarchy every supported set is below Lifted. */
  lemma {:induction false} LiftGreatest(g: Graph, a: set<Id>, base: set<Id>, b: set<Id>, x: Id, n: nat)
    requires forall y :: y in b ==> y in g.rows && (y in base || (y in a && Wants(g, b, y)))
    requires x in b && !Deep(Hierarchy(g), x, n)
    ensures x in Lifted(g, a, base)
    decreases n
  {
    if x !in base && !DirectCause(g, x) {
      var p :| p in g.rows && ChildOf(g, x, p) && p in b;
      assert (x, p) in Hierarchy(g) by { assert ChildOf(g, (x, p).0, (x, p).1); }
      DeepStep(Hierarchy(g), x, p, n);
      LiftGreatest(g, a, base, b, p, n - 1);
    }
    LiftedFix(g, a, base, x);
  }

  lemma {:induction false} HierarchyNodes(g: Graph)
    requires WellFormed(g)
    ensures Nodes(Hierarchy(g)) <= g.rows.Keys
  {
    forall x | x in Nodes(Hierarchy(g)) ensures x in g.rows {
      var e :| e in Hierarchy(g) && (x == e.0 || x == e.1);
      assert (e.0, e.1) in g.edges;
    }
  }

  lemma {:induction false} HierarchyShallow(g: Graph, x: Id)
    requires WellFormed(g) && Acyclic(Hierarchy(g)) && x in g.rows
    ensures !Deep(Hierarchy(g), x, |g.rows.Keys|)
  {
    HierarchyNodes(g);
    AcyclicIsShallow(Hierarchy(g), g.rows.Keys, x);
  }

  /** The predicate has exactly one solution, and the recompute is it. */
  lemma {:induction false} OneSolution(g: Graph, b: set<Id>)
    requires WellFormed(g) && Acyclic(Hierarchy(g))
    ensures Consistent(g, b) <==> b == Recompute(g)
  {
    var t := Recompute(g);
    forall x | x in g.rows ensures x in t <==> Wants(g, t, x) {
      LiftedFix(g, g.rows.Keys, {}, x);
    }
    if Consistent(g, b) {
      forall x | x in t ensures x in b {
        var n: nat :| Lift(g, g.rows.Keys, {}, x, n);
        LiftLeast(g, g.rows.Keys, {}, b, x, n);
      }
      forall x | x in b ensures x in t {
        HierarchyShallow(g, x);
        LiftGreatest(g, g.rows.Keys, {}, b, x, |g.rows.Keys|);
      }
    }
  }

  // ---------------------------------------------------------------- the affected set

  /** What an affected set must satisfy for a mutation from g to h: a row outside it
      reads the same causes and the same parents, and it is closed under children. */
  ghost predicate Frames(g: Graph, h: Graph, a: set<Id>) {
    && (forall c, p :: ChildOf(h, c, p) && p in a ==> c in a)
    && (forall y :: y in h.rows && y !in a ==>
         && y in g.rows
         && Live(g, y) == Live(h, y)
         && DirectCause(g, y) == DirectCause(h, y)
         && forall p :: ChildOf(g, y, p) <==> ChildOf(h, y, p))
  }

  /** A row outside the affected set derives the same verdict before and after. */
  lemma {:induction false} Unaffected(g: Graph, h: Graph, a: set<Id>, x: Id, n: nat)
    requires Frames(g, h, a) && x in h.rows && x !in a
    ensures Lift(g, g.rows.Keys, {}, x, n) <==> Lift(h, h.rows.Keys, {}, x, n)
    decreases n
  {
    if n > 0 {
      forall p | ChildOf(h, x, p)
        ensures Lift(g, g.rows.Keys, {}, p, n - 1) <==> Lift(h, h.rows.Keys, {}, p, n - 1)
      {
        Unaffected(g, h, a, p, n - 1);
      }
    }
  }

  /** Settling only the affected set gives the full recompute. */
  lemma {:induction false} SettledIsRecompute(g: Graph, h: Graph, a: set<Id>, b: set<Id>)
    requires Frames(g, h, a) && b == Recompute(g)
    ensures Settled(h, a, b) == Recompute(h)
  {
    var base := (b * h.rows.Keys) - a;
    forall x | x in h.rows && x in Lifted(h, a, base) ensures x in Recompute(h) {
      var n: nat :| Lift(h, a, base, x, n);
      SettledBelow(g, h, a, base, x, n);
    }
    forall x | x in Recompute(h) ensures x in Lifted(h, a, base) {
      var n: nat :| Lift(h, h.rows.Keys, {}, x, n);
      SettledAbove(g, h, a, a, base, x, n);
    }
  }

  lemma {:induction false} SettledBelow(g: Graph, h: Graph, a: set<Id>, base: set<Id>, x: Id, n: nat)
    requires Frames(g, h, a) && base == (Recompute(g) * h.rows.Keys) - a
    requires x in h.rows && Lift(h, a, base, x, n)
    ensures x in Recompute(h)
    decreases n
  {
    if x in base {
      var m: nat :| Lift(g, g.rows.Keys, {}, x, m);
      Unaffected(g, h, a, x, m);
    } else {
      if !DirectCause(h, x) {
        var p :| ChildOf(h, x, p) && Lift(h, a, base, p, n - 1);
        SettledBelow(g, h, a, base, p, n - 1);
        assert p in h.rows && ChildOf(h, x, p) && p in Recompute(h);
      }
      LiftedFix(h, h.rows.Keys, {}, x);
    }
  }

  /** Rows of the affected set that are not revisited must already carry a derived flag. */
  lemma {:induction false} SettledAbove(g: Graph, h: Graph, a: set<Id>, visited: set<Id>, base: set<Id>, x: Id, n: nat)
    requires Frames(g, h, a) && (Recompute(g) * h.rows.Keys) - a <= base
    requires forall y :: y in a && y !in visited && y in Recompute(h) ==> y in base
    requires x in h.rows && Lift(h, h.rows.Keys, {}, x, n)
    ensures x in Lifted(h, visited, base)
    decreases n
  {
    LiftedFix(h, visited, base, x);
    if x !in a {
      Unaffected(g, h, a, x, n);
      LiftIn(g, g.rows.Keys, {}, x, n);
    } else if x !in visited {
      LiftIn(h, h.rows.Keys, {}, x, n);
    } else if !DirectCause(h, x) {
      var p :| ChildOf(h, x, p) && Lift(h, h.rows.Keys, {}, p, n - 1);
      SettledAbove(g, h, a, visited, base, p, n - 1);
      assert p in h.rows && ChildOf(h, x, p) && p in Lifted(h, visited, base);
    }
  }

  /** Causes only appear. */
  ghost predicate Grows(g: Graph, h: Graph) {
    && g.rows == h.rows
    && (forall y :: DirectCause(g, y) ==> DirectCause(h, y))
    && (forall y, p :: ChildOf(g, y, p) ==> ChildOf(h, y, p))
  }

  lemma {:induction false} RecomputeGrows(g: Graph, h: Graph, x: Id, n: nat)
    requires Grows(g, h) && Lift(g, g.rows.Keys, {}, x, n)
    ensures Lift(h, h.rows.Keys, {}, x, n)
    decreases n
  {
    if !DirectCause(g, x) {
      var p :| ChildOf(g, x, p) && Lift(g, g.rows.Keys, {}, p, n - 1);
      RecomputeGrows(g, h, p, n - 1);
    }
  }

  /** Marking alone gives the full recompute when causes only appear: seed is the
      stored flags plus any row marked directly, and visited is what the passes
      still walk. */
  lemma {:induction false} MarkedIsRecompute(g: Graph, h: Graph, a: set<Id>, visited: set<Id>, seed: set<Id>)
    requires Frames(g, h, a) && Grows(g, h) && visited <= a
    requires Recompute(g) <= seed <= Recompute(h)
    requires forall y :: y in a && y !in visited && y in Recompute(h) ==> y in seed
    ensures Marked(h, visited, seed) == Recompute(h)
  {
    forall x | x in Marked(h, visited, seed) ensures x in Recompute(h) {
      var n: nat :| Lift(h, visited, seed, x, n);
      forall y | y in visited && Wants(h, Recompute(h), y) ensures y in Recompute(h) {
        LiftedFix(h, h.rows.Keys, {}, y);
      }
      LiftLeast(h, visited, seed, Recompute(h), x, n);
    }
    forall x | x in Recompute(h) ensures x in Marked(h, visited, seed) {
      var n: nat :| Lift(h, h.rows.Keys, {}, x, n);
      SettledAbove(g, h, a, visited, seed, x, n);
    }
  }
}
