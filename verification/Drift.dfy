/** How far the stored column can drift. A row is stale when its flag is not what the
    blocking predicate asks of it, read off the flags as stored. Two kinds of write settle
    nothing; this module counts the rows they turn stale, and shows that no other write of
    any verb adds one. */
module Drift {

  import opened Digraph
  import opened IssueGraph
  import opened Affected
  import opened Edits
  import opened Settlement
  import opened Flags
  import opened Results
  import opened Verbs
  import opened BatchPlan
  import opened Batch
  import opened Runs
  import opened Histories

  ghost predicate IsStale(g: Graph, b: set<Id>, x: Id) {
    x in g.rows && (x in b) != Wants(g, b, x)
  }

  ghost function Stale(st: State): set<Id> {
    set x | x in st.g.rows && IsStale(st.g, st.blocked, x)
  }

  /** In a sound store the column is the full recompute exactly when no row is stale. */
  lemma {:induction false} FreshIsNoneStale(st: State)
    requires Sound(st)
    ensures Fresh(st) <==> Stale(st) == {}
  {
    HierarchyWithinScheduling(st.g);
    OneSolution(st.g, st.blocked);
    if Stale(st) == {} {
      forall x ensures x in st.blocked <==> x in st.g.rows && Wants(st.g, st.blocked, x) {
        assert x in st.g.rows ==> x !in Stale(st);
      }
    }
  }

  // ---------------------------------------------------------------- writes that settle

  /** Settling a set that frames the write rights every row in it and touches no other. */
  lemma {:induction false} SettledStale(g: Graph, h: Graph, a: set<Id>, b: set<Id>)
    requires Frames(g, h, a) && WellFormed(h)
    ensures Stale(State(h, Settled(h, a, b))) == (Stale(State(g, b)) * h.rows.Keys) - a
  {
    var base := (b * h.rows.Keys) - a;
    var t := Settled(h, a, b);
    forall x | x in h.rows ensures IsStale(h, t, x) <==> x !in a && IsStale(g, b, x) {
      LiftedFix(h, a, base, x);
      if x !in a {
        forall p | ChildOf(h, x, p) ensures p in t <==> p in b { LiftedFix(h, a, base, p); }
        assert forall p :: ChildOf(g, x, p) <==> ChildOf(h, x, p);
        ParentsKnown(g, h, t, b, x);
      }
    }
  }

  /** So does every settlement whose rounds end, on any graph. */
  lemma {:induction false} RoundsStale(g: Graph, h: Graph, a: set<Id>, b: set<Id>)
    requires Frames(g, h, a) && Settles(h, a, b)
    ensures Stale(State(h, Rounds(h, a, b))) == (Stale(State(g, b)) * h.rows.Keys) - a
  {
    var t := Rounds(h, a, b);
    RoundsRight(h, a, b);
    forall x | x in h.rows ensures IsStale(h, t, x) <==> x !in a && IsStale(g, b, x) {
      if x !in a {
        assert forall p :: ChildOf(h, x, p) ==> p !in a && p in h.rows;
        ParentsKnown(g, h, t, b, x);
      }
    }
  }

  /** A row write with its settlement leaves stale what was, outside the affected set. */
  lemma {:induction false} RewrittenStale(st: State, id: Id, row: Row)
    requires Tidy(st) && id in st.g.rows && RowSettles(st, id, row)
    ensures Stale(Rewritten(st, id, row)) == Stale(st) - StatusSet(st.g, id)
  {
    var a, h := StatusSet(st.g, id), SetRow(st.g, id, row);
    RewrittenFrames(st.g, id, row);
    RowShape(st.g, id, row);
    RoundsStale(st.g, h, a, st.blocked);
    StaleRows(st, h.rows.Keys);
  }

  lemma {:induction false} StaleRows(st: State, ids: set<Id>)
    requires st.g.rows.Keys <= ids
    ensures Stale(st) * ids == Stale(st)
  {
  }

  lemma {:induction false} DroppedStale(st: State, s: Id, t: Id)
    requires Tidy(st)
    ensures Stale(Dropped(st, s, t)) <= Stale(st)
  {
    if (s, t) in st.g.edges {
      var h, k := DropEdge(st.g, s, t), st.g.edges[(s, t)].kind;
      DropFrames(st.g, s, t);
      SettledStale(st.g, h, Descend(h, EdgeSeeds(h, s, t, k)), st.blocked);
    }
  }

  lemma {:induction false} ErasedStale(st: State, d: set<Id>)
    requires Tidy(st)
    ensures Stale(Erased(st, d)) <= Stale(st)
  {
    var a := DeletionSet(st.g, d);
    DropRowsWellFormed(st.g, d);
    ReachSetExact(DownAround(st.g, d), DeletionSeeds(st.g, d));
    DeletionFrames(st.g, d, a);
    SettledStale(st.g, DropRows(st.g, d), a, st.blocked);
  }

  lemma {:induction false} CreateStale(cfg: Config, st: State, r: CreateReq)
    requires Tidy(st) && Create(cfg, st, r).Ok?
    ensures Stale(Create(cfg, st, r).value) <= Stale(st)
  {
    var g := SetRow(st.g, r.id, r.row);
    var h := CreateEdges(g, ParentChildFirst(r.edges)).value;
    var a := {r.id} + Descend(h, NewSeeds(g, h));
    CreateFrames(st.g, r.id, r.row);
    CreateCovers(st.g, r, h);
    CreateEdgesFrames(g, ParentChildFirst(r.edges), a);
    FirstFrames(st.g, g, r.id, a);
    FramesTrans(st.g, g, h, a);
    RoundsStale(st.g, h, a, st.blocked);
  }

  // ---------------------------------------------------------------- writes that settle nothing

  lemma {:induction false} UntouchedStale(g: Graph, h: Graph, b: set<Id>)
    requires Frames(g, h, {}) && g.rows.Keys == h.rows.Keys
    ensures Stale(State(h, b)) == Stale(State(g, b))
  {
    forall x | x in h.rows ensures IsStale(h, b, x) == IsStale(g, b, x) { ParentsKnown(g, h, b, b, x); }
  }

  ghost function Xor(a: set<Id>, b: set<Id>): set<Id> {
    (a - b) + (b - a)
  }

  /** The waiters whose verdict turns on the row's standing alone. */
  ghost function Flips(st: State, id: Id): set<Id> {
    set w | w in st.g.rows && Live(st.g, w) && (exists p :: p in st.g.rows && Turns(st.g, w, p, id))
                           && !BlockedAnyway(st.g, st.blocked, w, id)
  }

  /** A move between closed and pinned turns exactly those waiters. */
  lemma {:induction false} RestandingStale(st: State, id: Id, row: Row)
    requires Tidy(st) && id in st.g.rows && Restanding(st.g.rows[id].status, row.status)
    ensures Stale(Unsettled(st, id, row)) == Xor(Stale(st), Flips(st, id))
  {
    var g, b, h := st.g, st.blocked, SetRow(st.g, id, row);
    assert h.rows.Keys == g.rows.Keys;
    SameShape(g, h);
    forall w | w in g.rows ensures IsStale(h, b, w) == (IsStale(g, b, w) != (w in Flips(st, id))) {
      StandingFlips(g, h, b, w, id);
    }
  }

  // ---------------------------------------------------------------- one edge

  /** The source of a re-add that rewrites a gate deciding its verdict. */
  ghost function Turned(g: Graph, e: EdgeReq, b: set<Id>): set<Id> {
    if (e.source, e.target) in g.edges && !ReAddSafe(g, b, e) then {e.source} else {}
  }

  /** Re-adding a stored pair turns exactly the source, and only by an unsafe gate. */
  lemma {:induction false} ReAddStale(st: State, e: EdgeReq)
    requires Tidy(st) && Placed(st.g, e) && (e.source, e.target) in st.g.edges
    ensures Stale(State(Put(st.g, e), st.blocked)) == Xor(Stale(st), Turned(st.g, e, st.blocked))
  {
    var g, b, h := st.g, st.blocked, Put(st.g, e);
    forall y | y in g.rows ensures Wants(h, b, y) != Wants(g, b, y) <==> y in Turned(g, e, b) {
      RePut(g, b, e, y);
      SplitCause(g, b, y, e.target);
      SplitCause(h, b, y, e.target);
    }
  }

  /** Wants grows with the causes and with the flags. */
  lemma {:induction false} WantsGrow(g: Graph, h: Graph, b: set<Id>, t: set<Id>, x: Id)
    requires Grows(g, h) && b <= t && Wants(g, b, x)
    ensures Wants(h, t, x)
  {
  }

  /** Marking inside a framing set turns no row stale, if a row of the set that the passes
      skip is right or was stale before. */
  lemma {:induction false} MarkedStale(g: Graph, h: Graph, a: set<Id>, visited: set<Id>, b: set<Id>, seed: set<Id>)
    requires Frames(g, h, a) && Grows(g, h) && visited <= a && b <= seed <= b + a
    requires forall x :: x in seed && x !in b ==> Live(h, x) && DirectCause(h, x)
    requires forall x :: x in a && x !in visited && x !in seed && Wants(h, Marked(h, visited, seed), x) ==>
             IsStale(g, b, x)
    ensures Stale(State(h, Marked(h, visited, seed))) <= Stale(State(g, b))
  {
    var t := Marked(h, visited, seed);
    forall x | x in h.rows && IsStale(h, t, x) ensures IsStale(g, b, x) {
      forall y | y in h.rows
          ensures y in t <==> y in seed || (y in visited && Wants(h, t, y)) { LiftedFix(h, visited, seed, y); }
      if x !in a {
        ParentsKnown(g, h, t, b, x);
      } else if x in seed {
        if Wants(g, b, x) { MarksStay(h, visited, seed, b); WantsGrow(g, h, b, t, x); }
      }
    }
  }

  lemma {:induction false} MarksStay(h: Graph, visited: set<Id>, seed: set<Id>, b: set<Id>)
    requires b <= seed
    ensures b * h.rows.Keys <= Marked(h, visited, seed)
  {
    forall x | x in b && x in h.rows ensures x in Marked(h, visited, seed) { LiftedFix(h, visited, seed, x); }
  }

  /** A blocking edge that marks its source directly leaves it right; one that does not
      gives it no cause, and with no ring of parents its parents keep their flags. */
  lemma {:induction false} SkippedSource(g: Graph, e: EdgeReq, b: set<Id>)
    requires WellFormed(g) && Placed(g, e) && (e.source, e.target) !in g.edges && IsBlocking(e.kind)
    requires Acyclic(Hierarchy(Put(g, e)))
    ensures var h := Put(g, e);
            var t := Marked(h, EdgeSet(h, e) - {e.source}, b + DirectMark(h, e));
            e.source !in b + DirectMark(h, e) && Wants(h, t, e.source) ==> IsStale(g, b, e.source)
  {
    var h, x := Put(g, e), e.source;
    var visited, seed := EdgeSet(h, e) - {x}, b + DirectMark(h, e);
    var t := Marked(h, visited, seed);
    if x !in seed && Wants(h, t, x) {
      SameCauses(g, e);
      forall p | ChildOf(h, x, p) ensures p in t <==> p in b {
        NotBelowItself(h, e, p);
        LiftedFix(h, visited, seed, p);
      }
      ParentsKnown(g, h, t, b, x);
    }
  }

  /** A blocking edge onto a target that is not live gives its live source no cause. */
  lemma {:induction false} SameCauses(g: Graph, e: EdgeReq)
    requires WellFormed(g) && Placed(g, e) && (e.source, e.target) !in g.edges && IsBlocking(e.kind)
    requires DirectMark(Put(g, e), e) == {} && Live(Put(g, e), e.source)
    ensures var h := Put(g, e);
            && DirectCause(g, e.source) == DirectCause(h, e.source) && Live(g, e.source) == Live(h, e.source)
            && forall p :: ChildOf(g, e.source, p) <==> ChildOf(h, e.source, p)
  {
    var h, y := Put(g, e), e.source;
    forall c, p ensures ChildOf(g, c, p) == ChildOf(h, c, p) { }
    forall s, gate ensures GateHolds(g, s, gate) == GateHolds(h, s, gate) { }
    assert forall t :: Gates(h, y, t) && Live(h, t) <==> Gates(g, y, t) && Live(g, t);
    assert forall s :: WaitHolds(h, y, s) == WaitHolds(g, y, s);
  }

  /** With no ring of parents a row is not among its parent's ancestors' descendants. */
  lemma {:induction false} NotBelowItself(h: Graph, e: EdgeReq, p: Id)
    requires Acyclic(Hierarchy(h)) && ChildOf(h, e.source, p) && IsBlocking(e.kind)
    ensures p !in EdgeSet(h, e)
  {
    if p in EdgeSet(h, e) {
      assert EdgeSeeds(h, e.source, e.target, e.kind) == {e.source};
      assert ReachedFrom(Down(h), {e.source}, p);
      var n: nat :| Walk(Down(h), e.source, p, n);
      assert ChildOf(h, (e.source, p).0, (e.source, p).1) && (e.source, p) in Hierarchy(h);
      DownIsUp(h, e.source, p, n);
      assert Walk(Hierarchy(h), e.source, e.source, n + 1);
    }
  }

  /** A walk down is a walk up taken backwards. */
  lemma {:induction false} DownIsUp(g: Graph, u: Id, v: Id, n: nat)
    requires Walk(Down(g), u, v, n)
    ensures Walk(Hierarchy(g), v, u, n)
    decreases n
  {
    if n > 0 {
      var w :| (u, w) in Down(g) && Walk(Down(g), w, v, n - 1);
      DownIsUp(g, w, v, n - 1);
      assert (w, u) in Hierarchy(g) && Walk(Hierarchy(g), u, u, 0);
      assert Walk(Hierarchy(g), w, u, 1);
      WalkJoin(Hierarchy(g), v, w, u, n - 1, 1);
    }
  }

  lemma {:induction false} HierarchySettles(g: Graph, e: EdgeReq, b: set<Id>)
    requires WellFormed(Put(g, e)) && Acyclic(Hierarchy(Put(g, e)))
    ensures Settles(Put(g, e), EdgeSet(Put(g, e), e), b)
  {
    RoundsSettle(Put(g, e), EdgeSet(Put(g, e), e), b);
  }

  lemma {:induction false} BlockingStale(st: State, e: EdgeReq)
    requires Tidy(st) && Placed(st.g, e) && (e.source, e.target) !in st.g.edges && IsBlocking(e.kind)
    requires Acyclic(Hierarchy(Put(st.g, e)))
    ensures Stale(State(Put(st.g, e), EdgeFlags(st.g, e, st.blocked))) <= Stale(st)
  {
    var g, b, h := st.g, st.blocked, Put(st.g, e);
    var a, seed := EdgeSet(h, e), b + DirectMark(h, e);
    PutFrames(g, e);
    PutOnlyGrows(g, e);
    SkippedSource(g, e, b);
    MarkIsDerived(g, e);
    MarkedStale(g, h, a, a - {e.source}, b, seed);
  }

  lemma {:induction false} MarkIsDerived(g: Graph, e: EdgeReq)
    requires WellFormed(g) && Placed(g, e) && IsBlocking(e.kind)
    ensures var h := Put(g, e);
            && e.source in EdgeSeeds(h, e.source, e.target, e.kind)
            && forall x :: x in DirectMark(h, e) ==> x == e.source && Live(h, x) && DirectCause(h, x)
  {
  }

  /** No new edge, settled or marked as its type asks, turns a row stale. */
  lemma {:induction false} NewEdgeStale(st: State, e: EdgeReq)
    requires Tidy(st) && Placed(st.g, e) && (e.source, e.target) !in st.g.edges && Acyclic(Hierarchy(Put(st.g, e)))
    ensures Stale(State(Put(st.g, e), EdgeFlags(st.g, e, st.blocked))) <= Stale(st)
  {
    var g, b, h := st.g, st.blocked, Put(st.g, e);
    var a := EdgeSet(h, e);
    PutFrames(g, e);
    if e.kind == ParentChild {
      HierarchySettles(g, e, b);
      RoundsStale(g, h, a, b);
    } else if IsBlocking(e.kind) {
      BlockingStale(st, e);
    } else {
      PutOnlyGrows(g, e);
      MarkedStale(g, h, a, a, b, b);
    }
  }

  lemma {:induction false} EdgeStale(st: State, e: EdgeReq)
    requires Tidy(st) && Placed(st.g, e) && Acyclic(Hierarchy(Put(st.g, e)))
    ensures Stale(State(Put(st.g, e), EdgeFlags(st.g, e, st.blocked))) <= Stale(st) + Turned(st.g, e, st.blocked)
  {
    if (e.source, e.target) in st.g.edges { ReAddStale(st, e); } else { NewEdgeStale(st, e); }
  }

  // ---------------------------------------------------------------- a list of edges

  ghost function FoldTurned(g: Graph, es: seq<EdgeReq>, b: set<Id>): set<Id>
    decreases |es|
  {
    if es == [] then {} else Turned(g, es[0], b) + FoldTurned(Put(g, es[0]), es[1..], EdgeFlags(g, es[0], b))
  }

  lemma {:induction false} FirstStale(g: Graph, es: seq<EdgeReq>, skip: bool, b: set<Id>)
    requires es != [] && InsertAll(g, es, skip).Ok? && NoSelf(es) && Tidy(State(g, b))
    requires Acyclic(Scheduling(InsertAll(g, es, skip).value))
    ensures Tidy(State(Put(g, es[0]), EdgeFlags(g, es[0], b)))
    ensures Stale(State(Put(g, es[0]), EdgeFlags(g, es[0], b))) <= Stale(State(g, b)) + Turned(g, es[0], b)
  {
    assert es[0] in es;
    InsertAllApplies(Put(g, es[0]), es[1..], skip);
    AcyclicShrinks(Scheduling(Put(g, es[0])), Scheduling(InsertAll(g, es, skip).value));
    HierarchyWithinScheduling(Put(g, es[0]));
    PutFrames(g, es[0]);
    EdgeFlagsRows(g, es[0], b);
    EdgeStale(State(g, b), es[0]);
  }

  lemma {:induction false} FoldStale(g: Graph, es: seq<EdgeReq>, skip: bool, b: set<Id>)
    requires InsertAll(g, es, skip).Ok? && NoSelf(es) && Tidy(State(g, b))
    requires Acyclic(Scheduling(InsertAll(g, es, skip).value))
    ensures Stale(State(InsertAll(g, es, skip).value, FoldFlags(g, es, b))) <= Stale(State(g, b)) + FoldTurned(g, es, b)
    decreases |es|
  {
    if es != [] {
      FirstStale(g, es, skip, b);
      assert forall e :: e in es[1..] ==> e in es;
      FoldStale(Put(g, es[0]), es[1..], skip, EdgeFlags(g, es[0], b));
    }
  }

  /** No edge of the list turns its source exactly when every re-add is safe. */
  lemma {:induction false} NoneTurned(g: Graph, es: seq<EdgeReq>, b: set<Id>)
    ensures FoldTurned(g, es, b) == {} <==> SafeReAdds(g, es, b)
    decreases |es|
  {
    if es != [] {
      NoneTurned(Put(g, es[0]), es[1..], EdgeFlags(g, es[0], b));
      if !SafeReAdds(g, es, b) && FoldTurned(Put(g, es[0]), es[1..], EdgeFlags(g, es[0], b)) == {} {
        assert es[0].source in FoldTurned(g, es, b);
      }
    }
  }

  /** A source is turned only by naming a waits-for pair whose gate, as stored or as listed
      elsewhere in the request, is another: the caller can read this off the request. */
  lemma {:induction false} TurnedIsRegated(g: Graph, es: seq<EdgeReq>, b: set<Id>, x: Id)
    requires Wellposed(g, es) && x in FoldTurned(g, es, b)
    ensures exists e :: e in es && e.source == x && e.kind == WaitsFor && Regated(g, es, e)
    decreases |es|
  {
    var e, rest := es[0], es[1..];
    assert es == [e] + rest && e in es;
    if x in Turned(g, e, b) {
      assert Regated(g, es, e);
    } else {
      TurnedIsRegated(Put(g, e), rest, EdgeFlags(g, e, b), x);
      var f :| f in rest && f.source == x && f.kind == WaitsFor && Regated(Put(g, e), rest, f);
      assert f in es && Regated(g, es, f);
    }
  }

  ghost predicate Regated(g: Graph, es: seq<EdgeReq>, e: EdgeReq) {
    || ((e.source, e.target) in g.edges && g.edges[(e.source, e.target)].gate != e.gate)
    || exists f :: f in es && f.source == e.source && f.target == e.target && f.gate != e.gate
  }

  // ---------------------------------------------------------------- verbs

  /** The waiters an accepted update turns. */
  ghost function UpdateMoves(st: State, r: UpdateReq): set<Id> {
    if r.id in st.g.rows &&
        Restanding(st.g.rows[r.id].status, Patched(st.g.rows[r.id], r.patch).status) then Flips(st, r.id) else {}
  }

  lemma {:induction false} UnsettledStale(st: State, id: Id, row: Row)
    requires Tidy(st) && id in st.g.rows && SameStanding(st.g.rows[id].status, row.status)
    ensures Stale(Unsettled(st, id, row)) == Stale(st)
  {
    StandingFrames(st.g, id, row);
    UntouchedStale(st.g, SetRow(st.g, id, row), st.blocked);
  }

  lemma {:induction false} UpdateStale(cfg: Config, st: State, r: UpdateReq, at: Stamp)
    requires Tidy(st) && Update(cfg, st, r, at).Ok?
    ensures Stale(Update(cfg, st, r, at).value) <= Stale(st) + UpdateMoves(st, r)
  {
    var row := st.g.rows[r.id];
    var next := Patched(row, r.patch);
    if IsLive(row.status) != IsLive(next.status) {
      RewrittenStale(st, r.id, Stamped(next, at));
    } else if Restanding(row.status, next.status) {
      RestandingStale(st, r.id, Stamped(next, at));
    } else {
      UnsettledStale(st, r.id, Stamped(next, at));
    }
  }

  lemma {:induction false} CloseStale(st: State, r: CloseReq, at: Stamp)
    requires Tidy(st) && Close(st, r, at).Ok?
    ensures Stale(Close(st, r, at).value) <= Stale(st)
  {
    if st.g.rows[r.id].status != Closed {
      RewrittenStale(st, r.id, Stamped(st.g.rows[r.id], at).(status := Closed));
    }
  }

  lemma {:induction false} CloseAllStale(st: State, closes: seq<CloseReq>, ats: seq<Stamp>)
    requires Tidy(st)
    ensures Stale(CloseAll(st, closes, ats)) <= Stale(st)
    decreases |closes|
  {
    if closes != [] && ats != [] {
      var out := Close(st, closes[0], ats[0]);
      if out.Ok? {
        CloseKeeps(st, closes[0], ats[0]);
        CloseStale(st, closes[0], ats[0]);
      }
      CloseAllStale(After(st, out), closes[1..], ats[1..]);
    }
  }

  lemma {:induction false} ReopenStale(cfg: Config, st: State, id: Id, actor: string, expected: Option<int>, at: Stamp)
    requires Tidy(st) && Reopen(cfg, st, id, actor, expected, at).Ok?
    ensures Stale(Reopen(cfg, st, id, actor, expected, at).value) <= Stale(st)
  {
    if IsDone(cfg, st.g.rows[id].status) { RewrittenStale(st, id, Stamped(st.g.rows[id], at).(status := Open)); }
  }

  lemma {:induction false} ClaimStale(cfg: Config, st: State, id: Id, actor: string, at: Stamp)
    requires Tidy(st) && Claim(cfg, st, id, actor, at).Ok?
    ensures Stale(Claim(cfg, st, id, actor, at).value) == Stale(st)
  {
    var row := Stamped(st.g.rows[id], at).(assignee := actor, status := InProgress);
    if Claim(cfg, st, id, actor, at).value != st { UnsettledStale(st, id, row); }
  }

  lemma {:induction false} ReleaseStale(st: State, id: Id, actor: string, holder: Option<string>, force: bool,
                                        at: Stamp)
    requires Tidy(st) && Release(st, id, actor, holder, force, at).Ok?
    ensures Stale(Release(st, id, actor, holder, force, at).value) == Stale(st)
  {
    UnsettledStale(st, id, Stamped(st.g.rows[id], at).(assignee := "", status := Open));
  }

  lemma {:induction false} AddDependenciesStale(st: State, actor: string, es: seq<EdgeReq>, skip: bool)
    requires Sound(st) && AddDependencies(st, actor, es, skip).Ok?
    ensures Stale(AddDependencies(st, actor, es, skip).value) <= Stale(st) +
            FoldTurned(st.g, ParentChildFirst(es), st.blocked)
  {
    var fs := ParentChildFirst(es);
    AcceptedGraphIsSafe(st.g, es, skip);
    InsertAllApplies(st.g, fs, skip);
    FoldStale(st.g, fs, skip, st.blocked);
  }

  lemma {:induction false} DeleteStale(st: State, r: DeleteReq, cited: map<Id, Stamp>)
    requires Sound(st) && Delete(st, r, cited).Ok?
    ensures Stale(Delete(st, r, cited).value) <= Stale(st)
  {
    var d := Doomed(st.g, r);
    var mid := Erased(st, d);
    ErasedStale(st, d);
    ErasedFresh(st, d);
    var out := Restamped(mid, Bordering(st.g, d), cited);
    assert out.g.rows.Keys == mid.g.rows.Keys;
    SameStatuses(mid.g, out.g);
    UntouchedStale(mid.g, out.g, mid.blocked);
  }

  // ---------------------------------------------------------------- batches

  /** The rows one item of a batch turns when its turn comes. */
  ghost function ItemMoves(r: BatchReq, ran: Ran, i: nat): set<Id>
    requires i < |r.items|
  {
    match r.items[i]
    case CreateItem(_, _, _, _) => {}
    case UpdateItem(t, _, _, _, _, _, _) =>
      var id := Resolve(ran.keys, t);
      if id.Some? then UpdateMoves(ran.st, AsUpdate(r.actor, r.items[i], id.value)) else {}
    case CloseItem(_, _, _) => {}
    case DepAddItem(s, t, kind, gate) =>
      var source, target := Resolve(ran.keys, s), Resolve(ran.keys, t);
      if source.Some? && target.Some?
      then Turned(ran.st.g, EdgeReq(source.value, target.value, kind, gate), ran.st.blocked) else {}
  }

  type Mover = (Ran, nat) -> set<Id>

  ghost function ItemMover(r: BatchReq): Mover {
    (ran: Ran, i: nat) => if i < |r.items| then ItemMoves(r, ran, i) else {}
  }

  ghost predicate IsMover(moves: Mover, r: BatchReq) {
    forall ran: Ran, i: nat {:trigger ItemMoves(r, ran, i)} :: i < |r.items| ==> moves(ran, i) == ItemMoves(r, ran, i)
  }

  lemma {:induction false} ItemMoverMoves(r: BatchReq)
    ensures IsMover(ItemMover(r), r)
  {
  }

  /** The rows the first n items turn. */
  ghost function MovesBy(step: Step, moves: Mover, st: State, n: nat): set<Id> {
    if n == 0 then {}
    else
      MovesBy(step, moves, st, n - 1) +
      match Fold(step, Start(st), n - 1) case Ok(ran) => moves(ran, n - 1) case Refused(_) => {}
  }

  lemma {:induction false} EdgeItemStale(ran: Ran, e: EdgeReq, skip: bool)
    requires Tidy(ran.st) && ApplyEdge(ran, e, skip).Ok? && Acyclic(Scheduling(ApplyEdge(ran, e, skip).value.st.g))
    ensures Stale(ApplyEdge(ran, e, skip).value.st) <= Stale(ran.st) + Turned(ran.st.g, e, ran.st.blocked)
  {
    HierarchyWithinScheduling(Put(ran.st.g, e));
    EdgeStale(ran.st, e);
  }

  lemma {:induction false} ItemStale(cfg: Config, env: Env, r: BatchReq, ran: Ran, i: nat)
    requires Supplies(env, r) && i < |r.items| && Tidy(ran.st) && ApplyItem(cfg, env, r, ran, i).Ok?
    requires Acyclic(Scheduling(ApplyItem(cfg, env, r, ran, i).value.st.g))
    ensures Stale(ApplyItem(cfg, env, r, ran, i).value.st) <= Stale(ran.st) + ItemMoves(r, ran, i)
  {
    match r.items[i]
    case CreateItem(_, _, row, _) => CreateStale(cfg, ran.st, CreateReq(NewId(env, r.items[i], i), row, []));
    case UpdateItem(t, _, _, _, _, _, _) =>
      UpdateStale(cfg, ran.st, AsUpdate(r.actor, r.items[i], Resolve(ran.keys, t).value), env.at[i]);
    case CloseItem(t, expected, force) =>
      CloseStale(ran.st, CloseReq(Resolve(ran.keys, t).value, r.actor, force, expected), env.at[i]);
    case DepAddItem(s, t, kind, gate) =>
      EdgeItemStale(ran, EdgeReq(Resolve(ran.keys, s).value, Resolve(ran.keys, t).value, kind, gate), r.skip);
  }

  lemma {:induction false} NextStale(cfg: Config, env: Env, r: BatchReq, ran: Ran, i: nat)
    requires Supplies(env, r) && i < |r.items| && Tidy(ran.st) && ApplyItem(cfg, env, r, ran, i).Ok?
    requires Acyclic(Scheduling(ApplyItem(cfg, env, r, ran, i).value.st.g))
    ensures Acyclic(Scheduling(ran.st.g))
    ensures Stale(ApplyItem(cfg, env, r, ran, i).value.st) <= Stale(ran.st) + ItemMoves(r, ran, i)
  {
    StepShape(cfg, env, r, ran, i);
    AcyclicShrinks(Scheduling(ran.st.g), Scheduling(ApplyItem(cfg, env, r, ran, i).value.st.g));
    ItemStale(cfg, env, r, ran, i);
  }

  lemma {:induction false} Accrue(start: set<Id>, moved: set<Id>, more: set<Id>, a: set<Id>, b: set<Id>)
    requires a <= start + moved && b <= a + more
    ensures b <= start + (moved + more)
  {
  }

  lemma {:induction false} NextByStep(step: Step, moves: Mover, cfg: Config, env: Env, r: BatchReq, st: State, i: nat)
      returns (ran: Ran)
    requires Supplies(env, r) && IsStep(step, cfg, env, r) && IsMover(moves, r) && i < |r.items| && Tidy(st)
    requires Fold(step, Start(st), i + 1).Ok? && Acyclic(Scheduling(Fold(step, Start(st), i + 1).value.st.g))
    ensures Fold(step, Start(st), i) == Ok(ran) && Acyclic(Scheduling(ran.st.g))
    ensures Stale(Fold(step, Start(st), i + 1).value.st) <= Stale(ran.st) + moves(ran, i)
  {
    ran := Fold(step, Start(st), i).value;
    ItemsTidy(step, cfg, env, r, st, i);
    assert ApplyItem(cfg, env, r, ran, i) == Fold(step, Start(st), i + 1);
    NextStale(cfg, env, r, ran, i);
  }

  lemma {:induction false} ItemsStale(step: Step, moves: Mover, cfg: Config, env: Env, r: BatchReq, st: State, n: nat)
    requires Supplies(env, r) && IsStep(step, cfg, env, r) && IsMover(moves, r) && n <= |r.items| && Tidy(st)
    requires Fold(step, Start(st), n).Ok? && Acyclic(Scheduling(Fold(step, Start(st), n).value.st.g))
    ensures Stale(Fold(step, Start(st), n).value.st) <= Stale(st) + MovesBy(step, moves, st, n)
  {
    if n > 0 {
      var ran := NextByStep(step, moves, cfg, env, r, st, n - 1);
      ItemsStale(step, moves, cfg, env, r, st, n - 1);
      Accrue(Stale(st), MovesBy(step, moves, st, n - 1), moves(ran, n - 1), Stale(ran.st),
             Stale(Fold(step, Start(st), n).value.st));
    }
  }

  ghost function BatchMoves(cfg: Config, env: Env, st: State, r: BatchReq): set<Id>
    requires Supplies(env, r)
  {
    MovesBy(Stepper(cfg, env, r), ItemMover(r), st, |r.items|)
  }

  lemma {:induction false} BatchStale(cfg: Config, env: Env, st: State, r: BatchReq)
    requires Supplies(env, r) && NonEmptyIds(env) && WellPlanned(r.actor, r.items)
    requires Sound(st) && ApplyBatch(cfg, env, st, r).Ok?
    ensures Stale(ApplyBatch(cfg, env, st, r).value.st) <= Stale(st) + BatchMoves(cfg, env, st, r)
  {
    var ran, out := ApplyItems(cfg, env, r, st, |r.items|).value, ApplyBatch(cfg, env, st, r).value;
    var order := SpliceOrder(r, |r.items|);
    SpliceLands(cfg, env, st, r);
    SpliceAllExact(cfg, env, r, ran, ran.st, order);
    StepperSteps(cfg, env, r);
    ItemsKeep(Stepper(cfg, env, r), cfg, env, r, st, |r.items|);
    BatchKeeps(cfg, env, st, r);
    SplicedKeeps(env, r, ran, ran.st, order, out.st);
    ItemMoverMoves(r);
    ItemsStale(Stepper(cfg, env, r), ItemMover(r), cfg, env, r, st, |r.items|);
    SplicedStale(env, r, ran, ran.st, order, out.st);
  }

  lemma {:induction false} SplicedStale(env: Env, r: BatchReq, ran: Ran, st: State, order: seq<nat>, out: State)
    requires Supplies(env, r) && Spliceable(r, ran, st, order) && SplicedTo(env, r, ran, st, order, out) && Tidy(st)
    ensures Stale(out) == Stale(st)
  {
    forall x | x in st.g.rows ensures out.g.rows[x].status == st.g.rows[x].status {
      if i :| i in order && ran.results[i].issue == x { }
    }
    SameStatuses(st.g, out.g);
    UntouchedStale(st.g, out.g, st.blocked);
  }

  // ---------------------------------------------------------------- exact conditions

  /** The flag of every row of ids that is still there is what the predicate asks. */
  ghost predicate RightAt(st: State, ids: set<Id>) {
    forall x :: x in st.g.rows && x in ids ==> (x in st.blocked <==> Wants(st.g, st.blocked, x))
  }

  /** When only some rows can be stale, the column is right exactly when it is right there. */
  lemma {:induction false} RightWhereTurned(st: State, end: State, turned: set<Id>)
    requires Sound(st) && Fresh(st) && Sound(end) && Stale(end) <= Stale(st) + turned
    ensures forall x :: x in end.g.rows && x !in turned ==> (x in end.blocked <==> Wants(end.g, end.blocked, x))
    ensures Fresh(end) <==> RightAt(end, turned)
  {
    FreshIsNoneStale(st);
    FreshIsNoneStale(end);
    forall x | x in end.g.rows ensures x in Stale(end) <==> (x in end.blocked) != Wants(end.g, end.blocked, x) { }
  }

  // ---------------------------------------------------------------- runs

  /** The rows one step turns: the only ones it can leave stale that were not. */
  ghost function Moves(cfg: Config, st: State, op: Op): set<Id> {
    match op
    case DoUpdate(r, at) => if Update(cfg, st, r, at).Ok? then UpdateMoves(st, r) else {}
    case DoAddDependencies(actor, es, skip) =>
      if AddDependencies(st, actor, es, skip).Ok? then FoldTurned(st.g, ParentChildFirst(es), st.blocked) else {}
    case DoApplyBatch(r, env) =>
      if Planned(op) && ApplyBatch(cfg, env, st, r).Ok? then BatchMoves(cfg, env, st, r) else {}
    case _ => {}
  }

  lemma {:induction false} RowOpStale(cfg: Config, st: State, op: Op)
    requires Sound(st) && (op.DoCreate? || op.DoUpdate? || op.DoClose? || op.DoReopen? || op.DoClaim? || op.DoRelease?)
    ensures Stale(Histories.Step(cfg, st, op)) <= Stale(st) + Moves(cfg, st, op)
  {
    match op
    case DoCreate(r) => if Create(cfg, st, r).Ok? { CreateStale(cfg, st, r); }
    case DoUpdate(r, at) => if Update(cfg, st, r, at).Ok? { UpdateStale(cfg, st, r, at); }
    case DoClose(r, at) => if Close(st, r, at).Ok? { CloseStale(st, r, at); }
    case DoReopen(id, actor, expected, at) =>
      if Reopen(cfg, st, id, actor, expected, at).Ok? { ReopenStale(cfg, st, id, actor, expected, at); }
    case DoClaim(id, actor, at) => if Claim(cfg, st, id, actor, at).Ok? { ClaimStale(cfg, st, id, actor, at); }
    case DoRelease(id, actor, holder, force, at) =>
      if Release(st, id, actor, holder, force, at).Ok? { ReleaseStale(st, id, actor, holder, force, at); }
  }

  lemma {:induction false} StepStale(cfg: Config, st: State, op: Op)
    requires Sound(st)
    ensures Stale(Histories.Step(cfg, st, op)) <= Stale(st) + Moves(cfg, st, op)
  {
    match op
    case DoCloseBatch(rs, ats) => CloseAllStale(st, rs, ats);
    case DoAddDependencies(actor, es, skip) =>
      if AddDependencies(st, actor, es, skip).Ok? { AddDependenciesStale(st, actor, es, skip); }
    case DoRemoveDependency(actor, s, t) => DroppedStale(st, s, t);
    case DoDelete(r, cited) => if Delete(st, r, cited).Ok? { DeleteStale(st, r, cited); }
    case DoApplyBatch(r, env) => if Planned(op) && ApplyBatch(cfg, env, st, r).Ok? { BatchStale(cfg, env, st, r); }
    case _ => RowOpStale(cfg, st, op);
  }

  ghost function RunMoves(cfg: Config, st: State, ops: seq<Op>): set<Id>
    decreases |ops|
  {
    if ops == [] then {} else Moves(cfg, st, ops[0]) + RunMoves(cfg, Histories.Step(cfg, st, ops[0]), ops[1..])
  }

  lemma {:induction false} RunStale(cfg: Config, st: State, ops: seq<Op>)
    requires Sound(st)
    ensures Sound(Run(cfg, st, ops)) && Stale(Run(cfg, st, ops)) <= Stale(st) + RunMoves(cfg, st, ops)
    decreases |ops|
  {
    if ops != [] {
      StepKeeps(cfg, st, ops[0]);
      StepStale(cfg, st, ops[0]);
      RunStale(cfg, Histories.Step(cfg, st, ops[0]), ops[1..]);
    }
  }

  /** DRIFT IS CONFINED. After any run of the verbs from a settled store, the flag of every
      row is what the blocking predicate asks, except perhaps at the rows that an unsettled
      write turned; and the column is the full recompute if and only if those rows have
      come right again. */
  lemma {:induction false} DriftIsConfined(cfg: Config, st: State, ops: seq<Op>)
    requires Sound(st) && Fresh(st)
    ensures var end, turned := Run(cfg, st, ops), RunMoves(cfg, st, ops);
            && (forall x :: x in end.g.rows && x !in turned ==> (x in end.blocked <==> Wants(end.g, end.blocked, x)))
            && (Fresh(end) <==> RightAt(end, turned))
  {
    RunStale(cfg, st, ops);
    RightWhereTurned(st, Run(cfg, st, ops), RunMoves(cfg, st, ops));
  }

  lemma {:induction false} FlipsDecide(st: State, id: Id)
    ensures StandingDecides(st.g, st.blocked, id) <==> Flips(st, id) != {}
  {
    if StandingDecides(st.g, st.blocked, id) {
      var w :| && w in st.g.rows && Live(st.g, w) && (exists p :: p in st.g.rows && Turns(st.g, w, p, id))
               && !BlockedAnyway(st.g, st.blocked, w, id);
      assert w in Flips(st, id);
    }
  }

  lemma {:induction false} SafeItemMovesNone(r: BatchReq, ran: Ran, i: nat)
    requires i < |r.items|
    ensures ItemSafe(r, ran, i) <==> ItemMoves(r, ran, i) == {}
  {
    match r.items[i]
    case UpdateItem(t, _, _, _, _, _, _) =>
      if Resolve(ran.keys, t).Some? { FlipsDecide(ran.st, Resolve(ran.keys, t).value); }
    case _ =>
  }

  lemma {:induction false} NoneInUnion(a: set<Id>, b: set<Id>)
    ensures a + b == {} <==> a == {} && b == {}
  {
    if a + b == {} { assert a <= a + b && b <= a + b; }
  }

  lemma {:induction false} SafeNext(step: Step, moves: Mover, r: BatchReq, st: State, i: nat)
    requires IsMover(moves, r) && i < |r.items| && Fold(step, Start(st), i).Ok?
    ensures SafeBy(step, r, st, i + 1) <==> SafeBy(step, r, st, i) && moves(Fold(step, Start(st), i).value, i) == {}
  {
    SafeItemMovesNone(r, Fold(step, Start(st), i).value, i);
  }

  lemma {:induction false} SafeItemsMoveNone(step: Step, moves: Mover, r: BatchReq, st: State, n: nat)
    requires IsMover(moves, r) && n <= |r.items|
    ensures SafeBy(step, r, st, n) <==> MovesBy(step, moves, st, n) == {}
  {
    if n > 0 {
      SafeItemsMoveNone(step, moves, r, st, n - 1);
      if Fold(step, Start(st), n - 1).Ok? {
        SafeNext(step, moves, r, st, n - 1);
        NoneInUnion(MovesBy(step, moves, st, n - 1), moves(Fold(step, Start(st), n - 1).value, n - 1));
      }
    }
  }

  lemma {:induction false} SafeBatchMovesNone(cfg: Config, env: Env, st: State, r: BatchReq)
    requires Supplies(env, r)
    ensures ItemsSafe(cfg, env, r, st) <==> BatchMoves(cfg, env, st, r) == {}
  {
    ItemMoverMoves(r);
    SafeItemsMoveNone(Stepper(cfg, env, r), ItemMover(r), r, st, |r.items|);
  }

  /** A step is quiet exactly when it turns no row. */
  lemma {:induction false} QuietTurnsNone(cfg: Config, st: State, op: Op)
    ensures Quiet(cfg, st, op) <==> Moves(cfg, st, op) == {}
  {
    match op
    case DoUpdate(r, at) => FlipsDecide(st, r.id);
    case DoAddDependencies(actor, es, skip) => NoneTurned(st.g, ParentChildFirst(es), st.blocked);
    case DoApplyBatch(r, env) => if Planned(op) { SafeBatchMovesNone(cfg, env, st, r); }
    case _ =>
  }
}
