/** The blocking predicate read off the stored tables: edge types, statuses and prefixes as
    they are stored, with none of the derivation's own vocabulary. */
module Reading {

  import opened Digraph
  import opened IssueGraph
  import opened Affected
  import opened Edits
  import opened Flags
  import opened Results
  import opened Verbs
  import opened Histories
  import opened Drift
  import opened Endings

  // ---------------------------------------------------------------- the vocabulary

  /** p is what stands before the first hyphen of id, with the hyphen; nothing without one. */
  ghost predicate IsPrefixOf(p: string, id: Id) {
    || ('-' !in id && p == "")
    || (exists i :: 0 <= i < |id| && id[i] == '-' && '-' !in id[..i] && p == id[..i + 1])
  }

  /** The target is stored as a row's id: same prefix, and not a reference to the outside. */
  ghost predicate Local(source: Id, target: Id) {
    !("external:" <= target) && exists p :: IsPrefixOf(p, source) && IsPrefixOf(p, target)
  }

  /** A stored edge of one of these types onto a row of this database. */
  ghost predicate Stored(g: Graph, s: Id, t: Id, kinds: set<Kind>) {
    (s, t) in g.edges && t in g.rows && Local(s, t) && g.edges[(s, t)].kind in kinds
  }

  /** Neither closed nor pinned. */
  ghost predicate Alive(g: Graph, x: Id) {
    x in g.rows && g.rows[x].status !in {Closed, Pinned}
  }

  /** The gate over the children of s is not yet satisfied: a child is still active, and it
      is not the case that any child will do and one is closed; or s itself blocks. */
  ghost predicate Unsatisfied(g: Graph, s: Id, gate: Gate) {
    || (&& (exists c :: Stored(g, c, s, {ParentChild}) && Alive(g, c))
        && (gate.anyChildren ==>
             forall c :: Stored(g, c, s, {ParentChild}) && c in g.rows ==> g.rows[c].status != Closed))
    || (gate.alsoBlocks && Alive(g, s))
  }

  /** The three clauses. */
  ghost predicate BlockedBy(g: Graph, b: set<Id>, x: Id) {
    || (exists t :: Stored(g, x, t, {Blocks, ConditionalBlocks}) && Alive(g, t))
    || (exists p :: Stored(g, x, p, {ParentChild}) && p in b)
    || (exists s :: Stored(g, x, s, {WaitsFor}) && Unsatisfied(g, s, g.edges[(x, s)].gate))
  }

  // ---------------------------------------------------------------- what the derivation reads

  lemma {:induction false} PrefixIs(id: Id, p: string)
    ensures IsPrefixOf(p, id) <==> p == ExtractPrefix(id)
    decreases |id|
  {
    if '-' in id && id[0] != '-' {
      assert '-' in id[1..];
      PrefixIs(id[1..], ExtractPrefix(id[1..]));
      var j :| 0 <= j < |id[1..]| && id[1..][j] == '-' && '-' !in id[1..][..j] &&
          ExtractPrefix(id[1..]) == id[1..][..j + 1];
      assert id[..j + 1] == [id[0]] + id[1..][..j] && id[..j + 2] == [id[0]] + id[1..][..j + 1];
      assert id[j + 1] == '-' && '-' !in id[..j + 1];
      FirstHyphen(id, p, j + 1);
    } else if '-' in id {
      assert id[..0] == [] && id[..1] == "-";
      FirstHyphen(id, p, 0);
    }
  }

  lemma {:induction false} FirstHyphen(id: Id, p: string, k: nat)
    requires k < |id| && id[k] == '-' && '-' !in id[..k]
    ensures IsPrefixOf(p, id) <==> p == id[..k + 1]
  {
    forall i | 0 <= i < k ensures id[i] != '-' { assert id[..k][i] == id[i]; }
    forall i | k < i < |id| ensures '-' in id[..i] { assert id[..i][k] == '-'; }
  }

  lemma {:induction false} LocalIs(s: Id, t: Id)
    ensures Local(s, t) <==> !IsExternal(s, t)
  {
    forall p ensures (IsPrefixOf(p, s) <==> p == ExtractPrefix(s)) && (IsPrefixOf(p, t) <==> p == ExtractPrefix(t)) {
      PrefixIs(s, p);
      PrefixIs(t, p);
    }
    assert IsPrefixOf(ExtractPrefix(s), s);
  }

  lemma {:induction false} StoredIs(g: Graph, s: Id, t: Id)
    ensures Stored(g, s, t, {Blocks, ConditionalBlocks}) <==> Gates(g, s, t)
    ensures Stored(g, s, t, {ParentChild}) <==> ChildOf(g, s, t)
    ensures Stored(g, s, t, {WaitsFor}) <==> Waits(g, s, t)
  {
    LocalIs(s, t);
  }

  lemma {:induction false} GateIs(g: Graph, s: Id, gate: Gate)
    requires WellFormed(g)
    ensures Unsatisfied(g, s, gate) <==> GateHolds(g, s, gate)
  {
    forall c ensures Stored(g, c, s, {ParentChild}) <==> ChildOf(g, c, s) { StoredIs(g, c, s); }
    forall c | ChildOf(g, c, s) ensures c in g.rows { }
  }

  /** The derivation's predicate is the three clauses over the stored tables. */
  lemma {:induction false} WantsMeans(g: Graph, b: set<Id>, x: Id)
    requires WellFormed(g)
    ensures Wants(g, b, x) <==> Alive(g, x) && BlockedBy(g, b, x)
  {
    forall t ensures (Stored(g, x, t, {Blocks, ConditionalBlocks}) <==> Gates(g, x, t)) &&
                     (Stored(g, x, t, {ParentChild}) <==> ChildOf(g, x, t)) &&
                     (Stored(g, x, t, {WaitsFor}) <==> Waits(g, x, t))
    {
      StoredIs(g, x, t);
    }
    forall s, gate ensures Unsatisfied(g, s, gate) <==> GateHolds(g, s, gate) { GateIs(g, s, gate); }
    forall s ensures WaitHolds(g, x, s) <==> Waits(g, x, s) && Unsatisfied(g, s, g.edges[(x, s)].gate) { }
  }

  // ---------------------------------------------------------------- what the column says

  /** THE COLUMN, PLAINLY. In a sound and settled store a row carries the flag if and only if
      it is neither closed nor pinned and one of three things holds: it has a blocks or
      conditional-blocks edge onto a row that is neither, a parent that carries the flag, or
      a waits-for edge whose gate is not satisfied. */
  lemma {:induction false} BlockedMeans(st: State, x: Id)
    requires Sound(st) && Fresh(st)
    ensures x in st.blocked <==> Alive(st.g, x) && BlockedBy(st.g, st.blocked, x)
  {
    FreshIsConsistent(st);
    WantsMeans(st.g, st.blocked, x);
  }

  /** So says the column of every store that a quiet run has built out of nothing. */
  lemma {:induction false} BuiltColumnMeans(cfg: Config, ops: seq<Op>, x: Id)
    requires QuietRun(cfg, EMPTY, ops)
    ensures var end := Run(cfg, EMPTY, ops);
            x in end.blocked <==> Alive(end.g, x) && BlockedBy(end.g, end.blocked, x)
  {
    EmptyIsSound();
    RunKeeps(cfg, EMPTY, ops);
    BlockedMeans(Run(cfg, EMPTY, ops), x);
  }

  // ---------------------------------------------------------------- what a write can affect

  /** child -> parent over stored local parent-child edges. */
  ghost function Parents(g: Graph): Rel {
    set e | e in g.edges && Stored(g, e.0, e.1, {ParentChild})
  }

  lemma {:induction false} Descends(g: Graph, seeds: set<Id>, x: Id)
    ensures x in Descend(g, seeds) <==> exists y :: y in seeds && Reaches(Parents(g), x, y)
  {
    ParentsAre(g);
    ReachSetExact(Down(g), seeds);
    forall y ensures Reaches(Down(g), y, x) <==> Reaches(Parents(g), x, y) { BackReaches(Down(g), Parents(g), y, x); }
  }

  lemma {:induction false} ParentsAre(g: Graph)
    ensures forall c, p :: (p, c) in Down(g) <==> (c, p) in Parents(g)
  {
    forall c, p ensures (p, c) in Down(g) <==> (c, p) in Parents(g) {
      StoredIs(g, c, p);
      assert (c, p).0 == c && (c, p).1 == p;
    }
  }

  /** What can be reached one way can be reached back over the edges turned round. */
  lemma {:induction false} BackReaches(r: Rel, s: Rel, u: Id, v: Id)
    requires forall a, b :: (a, b) in r <==> (b, a) in s
    ensures Reaches(r, u, v) <==> Reaches(s, v, u)
  {
    forall n: nat | Walk(r, u, v, n) ensures Walk(s, v, u, n) { BackWalks(r, s, u, v, n); }
    forall n: nat | Walk(s, v, u, n) ensures Walk(r, u, v, n) { BackWalks(s, r, v, u, n); }
  }

  lemma {:induction false} BackWalks(r: Rel, s: Rel, u: Id, v: Id, n: nat)
    requires (forall a, b :: (a, b) in r ==> (b, a) in s) && Walk(r, u, v, n)
    ensures Walk(s, v, u, n)
    decreases n
  {
    if n > 0 {
      var w :| (u, w) in r && Walk(r, w, v, n - 1);
      BackWalks(r, s, w, v, n - 1);
      assert Walk(s, u, u, 0) && Walk(s, w, u, 1);
      WalkJoin(s, v, w, u, n - 1, 1);
    }
  }

  /** A row a status write can reach at first hand: itself, what blocks or waits on it, and what
      waits on a parent of it. */
  ghost predicate StatusTouches(g: Graph, id: Id, y: Id) {
    || y == id || (y in g.rows && Stored(g, y, id, {Blocks, ConditionalBlocks, WaitsFor}))
    || (y in g.rows && exists p :: Stored(g, id, p, {ParentChild}) && Stored(g, y, p, {WaitsFor}))
  }

  /** THE AFFECTED SET OF A STATUS WRITE is exactly the rows it touches and all below them. */
  lemma {:induction false} StatusSetMeans(g: Graph, id: Id, x: Id)
    ensures x in StatusSet(g, id) <==> exists y :: StatusTouches(g, id, y) && Reaches(Parents(g), x, y)
  {
    Descends(g, StatusSeeds(g, id), x);
    forall y ensures y in StatusSeeds(g, id) <==> StatusTouches(g, id, y) { SeedsMean(g, id, y); }
  }

  lemma {:induction false} SeedsMean(g: Graph, id: Id, y: Id)
    ensures y in StatusSeeds(g, id) <==> StatusTouches(g, id, y)
  {
    LocalIs(y, id);
    forall p
      ensures Stored(g, id, p, {ParentChild}) <==> ChildOf(g, id, p)
      ensures Stored(g, y, p, {WaitsFor}) <==> Waits(g, y, p)
    {
      StoredIs(g, id, p);
      StoredIs(g, y, p);
    }
  }

  /** A row an edge write can reach at first hand. */
  ghost predicate PairTouches(h: Graph, s: Id, t: Id, k: Kind, y: Id) {
    !k.Other? && (y == s || (k == ParentChild && y in h.rows && Stored(h, y, t, {WaitsFor})))
  }

  /** THE AFFECTED SET OF AN EDGE WRITE is its source and all below it, and for a parent-child
      edge what waits on the parent; nothing, for a type that blocks nothing. */
  lemma {:induction false} EdgeSetMeans(h: Graph, e: EdgeReq, x: Id)
    ensures x in EdgeSet(h, e) <==>
            exists y :: PairTouches(h, e.source, e.target, e.kind, y) && Reaches(Parents(h), x, y)
  {
    Descends(h, EdgeSeeds(h, e.source, e.target, e.kind), x);
    forall y ensures Stored(h, y, e.target, {WaitsFor}) <==> Waits(h, y, e.target) { StoredIs(h, y, e.target); }
  }

  /** A row a create can reach at first hand besides the new one: the source of a pair that is
      new in h and derives something, and for a parent-child pair what waits on the parent. */
  ghost predicate CreateTouches(g: Graph, h: Graph, y: Id) {
    exists s, t :: (s, t) in h.edges && (s, t) !in g.edges && PairTouches(h, s, t, h.edges[(s, t)].kind, y)
  }

  /** THE AFFECTED SET OF A CREATE'S EDGES is exactly what they touch and all below it. */
  lemma {:induction false} CreateSetMeans(g: Graph, h: Graph, x: Id)
    ensures x in Descend(h, NewSeeds(g, h)) <==> exists y :: CreateTouches(g, h, y) && Reaches(Parents(h), x, y)
  {
    Descends(h, NewSeeds(g, h), x);
    forall y ensures y in NewSeeds(g, h) <==> CreateTouches(g, h, y) { NewSeedsMean(g, h, y); }
  }

  lemma {:induction false} NewSeedsMean(g: Graph, h: Graph, y: Id)
    ensures y in NewSeeds(g, h) <==> CreateTouches(g, h, y)
  {
    forall s, t, k ensures PairTouches(h, s, t, k, y) <==> y in EdgeSeeds(h, s, t, k) { StoredIs(h, y, t); }
    if y in NewSeeds(g, h) {
      var pair :| pair in h.edges && pair !in g.edges && y in EdgeSeeds(h, pair.0, pair.1, h.edges[pair].kind);
      assert (pair.0, pair.1) == pair;
    }
    if s, t :| (s, t) in h.edges && (s, t) !in g.edges && PairTouches(h, s, t, h.edges[(s, t)].kind, y) {
      assert y in EdgeSeeds(h, (s, t).0, (s, t).1, h.edges[(s, t)].kind);
    }
  }

  /** A survivor a deletion can reach at first hand: what blocks, waits on or stands under a
      removed row, and what waits on a parent of one. */
  ghost predicate DeletionTouches(g: Graph, d: set<Id>, y: Id) {
    && y in g.rows && y !in d
    && exists x :: x in d && TiedTo(g, y, x)
  }

  ghost predicate TiedTo(g: Graph, y: Id, x: Id) {
    || Stored(g, y, x, {Blocks, ConditionalBlocks, WaitsFor, ParentChild})
    || (exists p :: Stored(g, x, p, {ParentChild}) && Stored(g, y, p, {WaitsFor}))
  }

  ghost function SurvivingParents(g: Graph, d: set<Id>): Rel {
    set e | e in Parents(g) && e.0 !in d && e.1 !in d
  }

  /** THE AFFECTED SET OF A DELETION is exactly the survivors it touches and all survivors below
      them, by a chain of survivors. */
  lemma {:induction false} DeletionSetMeans(g: Graph, d: set<Id>, x: Id)
    ensures x in DeletionSet(g, d) <==>
            exists y :: DeletionTouches(g, d, y) && Reaches(SurvivingParents(g, d), x, y)
  {
    ReachSetExact(DownAround(g, d), DeletionSeeds(g, d));
    ParentsAre(g);
    forall y ensures Reaches(DownAround(g, d), y, x) <==> Reaches(SurvivingParents(g, d), x, y) {
      BackReaches(DownAround(g, d), SurvivingParents(g, d), y, x);
    }
    forall y ensures y in DeletionSeeds(g, d) <==> DeletionTouches(g, d, y) {
      forall z
        ensures TiedTo(g, y, z) <==> Gates(g, y, z) || Waits(g, y, z) || ChildOf(g, y, z) || WaitsOnParentOf(g, y, z)
      {
        TiedIs(g, y, z);
      }
    }
  }

  lemma {:induction false} TiedIs(g: Graph, y: Id, x: Id)
    ensures TiedTo(g, y, x) <==> Gates(g, y, x) || Waits(g, y, x) || ChildOf(g, y, x) || WaitsOnParentOf(g, y, x)
  {
    LocalIs(y, x);
    forall p
      ensures Stored(g, x, p, {ParentChild}) <==> ChildOf(g, x, p)
      ensures Stored(g, y, p, {WaitsFor}) <==> Waits(g, y, p)
    {
      StoredIs(g, x, p);
      StoredIs(g, y, p);
    }
  }
}
