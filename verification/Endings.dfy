/** When settlement comes to an end. The rounds of a settlement stop at the first one that
    changes nothing, and nothing else stops them. With no ring of parents they always stop.
    A request that drops the per-edge cycle probe can close such a ring and settles on it
    before its last gate looks; this module says when it is still answered. */
module Endings {

  import opened Digraph
  import opened IssueGraph
  import opened Affected
  import opened Edits
  import opened Settlement
  import opened Flags
  import opened Results
  import opened Verbs
  import opened BatchPlan
  import opened Batch
  import opened Runs
  import opened Histories
  import opened Drift

  // ---------------------------------------------------------------- one settlement, from a right column

  /** The full recompute is right at every row, on every graph. */
  lemma {:induction false} FreshIsConsistent(st: State)
    requires Fresh(st)
    ensures Consistent(st.g, st.blocked)
  {
    forall x | x in st.g.rows ensures x in st.blocked <==> Wants(st.g, st.blocked, x) {
      LiftedFix(st.g, st.g.rows.Keys, {}, x);
    }
  }

  lemma {:induction false} OneSidedSettles(h: Graph, a: set<Id>, b: set<Id>)
    requires b <= h.rows.Keys && (Rising(h, a, b) || Falling(h, a, b))
    ensures Settles(h, a, b)
  {
    assert b * h.rows.Keys == b;
    ByPlaneCovers(h, a);
    var n := OneSidedEnds(h, a, b, ByPlane(h, a));
    RoundsAre(h, a, b, n);
  }

  /** A settlement that frames its write leaves a right column right. */
  lemma {:induction false} RightAfter(g: Graph, h: Graph, a: set<Id>, b: set<Id>)
    requires Consistent(g, b) && Frames(g, h, a) && g.rows.Keys <= h.rows.Keys && Settles(h, a, b)
    ensures Consistent(h, Rounds(h, a, b))
  {
    var t := Rounds(h, a, b);
    RoundsRight(h, a, b);
    RoundsWithin(h, a, b);
    assert b * h.rows.Keys == b;
    forall x | x in h.rows && x !in a ensures x in t <==> Wants(h, t, x) {
      assert forall p :: ChildOf(h, x, p) ==> p !in a;
      ParentsKnown(g, h, t, b, x);
    }
  }

  // ---------------------------------------------------------------- row writes

  /** Rows block more and count as closed less. */
  ghost predicate Livelier(g: Graph, h: Graph) {
    && g.edges == h.edges && g.rows.Keys == h.rows.Keys
    && forall y :: (Live(g, y) ==> Live(h, y)) && (Shut(h, y) ==> Shut(g, y))
  }

  lemma {:induction false} LivelierWants(g: Graph, h: Graph, b: set<Id>, x: Id)
    requires Livelier(g, h) && Wants(g, b, x)
    ensures Wants(h, b, x)
  {
    SameShape(g, h);
    forall s | WaitHolds(g, x, s) ensures WaitHolds(h, x, s) { }
  }

  /** A row write from a right column settles, and leaves it right: every status is as live
      as another or less, so flags are only set or only cleared. */
  lemma {:induction false} RowEnds(st: State, id: Id, row: Row)
    requires WellFormed(st.g) && Consistent(st.g, st.blocked) && id in st.g.rows
    ensures RowSettles(st, id, row) && Consistent(Rewritten(st, id, row).g, Rewritten(st, id, row).blocked)
  {
    var g, b, h, a := st.g, st.blocked, SetRow(st.g, id, row), StatusSet(st.g, id);
    RewrittenFrames(g, id, row);
    RowShape(g, id, row);
    if Livelier(g, h) {
      forall x | x in a && x in b ensures Wants(h, b, x) { LivelierWants(g, h, b, x); }
    } else {
      assert Livelier(h, g);
      forall x | x in a && Wants(h, b, x) ensures x in b { LivelierWants(h, g, b, x); }
    }
    OneSidedSettles(h, a, b);
    RightAfter(g, h, a, b);
  }

  // ---------------------------------------------------------------- one edge

  /** Beside the new pair nothing changes. */
  lemma {:induction false} ChildPut(g: Graph, e: EdgeReq)
    requires WellFormed(g) && Placed(g, e) && (e.source, e.target) !in g.edges && e.kind == ParentChild
    ensures var h := Put(g, e);
            && g.rows == h.rows && (forall y, t :: Gates(g, y, t) == Gates(h, y, t) && Waits(g, y, t) == Waits(h, y, t))
            && (forall y, t :: Waits(g, y, t) ==> g.edges[(y, t)] == h.edges[(y, t)])
            && (forall c, p :: (c, p) != (e.source, e.target) ==> ChildOf(g, c, p) == ChildOf(h, c, p))
            && !ChildOf(g, e.source, e.target)
  {
    var h := Put(g, e);
    forall y, t | (y, t) != (e.source, e.target) ensures Joined(g, y, t) == Joined(h, y, t) { }
  }

  /** A live child only adds causes, */
  lemma {:induction false} LiveChildWants(g: Graph, e: EdgeReq, b: set<Id>, x: Id)
    requires WellFormed(g) && Placed(g, e) && (e.source, e.target) !in g.edges && e.kind == ParentChild
    requires Live(g, e.source) && Wants(g, b, x)
    ensures Wants(Put(g, e), b, x)
  {
    var h := Put(g, e);
    ChildPut(g, e);
    forall c, p | ChildOf(g, c, p) ensures ChildOf(h, c, p) { }
    forall s | WaitHolds(g, x, s) ensures WaitHolds(h, x, s) { }
  }

  /** and one that is not live only removes them, and inherits nothing itself. */
  lemma {:induction false} DoneChildWants(g: Graph, e: EdgeReq, b: set<Id>, x: Id)
    requires WellFormed(g) && Placed(g, e) && (e.source, e.target) !in g.edges && e.kind == ParentChild
    requires !Live(g, e.source) && Wants(Put(g, e), b, x)
    ensures Wants(g, b, x)
  {
    var h := Put(g, e);
    ChildPut(g, e);
    forall c, p | ChildOf(h, c, p) && Live(h, c) ensures ChildOf(g, c, p) { }
    forall s | WaitHolds(h, x, s) ensures WaitHolds(g, x, s) { }
  }

  /** A NEW PARENT-CHILD EDGE SETTLES FROM A RIGHT COLUMN, even one that closes a ring of
      parents, and leaves the column right. */
  lemma {:induction false} ChildEnds(g: Graph, e: EdgeReq, b: set<Id>)
    requires WellFormed(g) && Placed(g, e) && Consistent(g, b)
    requires e.kind == ParentChild && (e.source, e.target) !in g.edges
    ensures EdgeSettles(g, e, b) && Consistent(Put(g, e), EdgeFlags(g, e, b))
  {
    var h, a := Put(g, e), EdgeSet(Put(g, e), e);
    PutFrames(g, e);
    if Live(g, e.source) {
      forall x | x in a && x in b ensures Wants(h, b, x) { LiveChildWants(g, e, b, x); }
    } else {
      forall x | x in a && Wants(h, b, x) ensures x in b { DoneChildWants(g, e, b, x); }
    }
    OneSidedSettles(h, a, b);
    RightAfter(g, h, a, b);
  }

  /** Marking from a right column leaves it right, if the rows the passes skip are right. */
  lemma {:induction false} MarkedRight(g: Graph, h: Graph, a: set<Id>, visited: set<Id>, b: set<Id>, seed: set<Id>)
    requires Consistent(g, b) && Frames(g, h, a) && Grows(g, h) && visited <= a && b <= seed <= b + (a * h.rows.Keys)
    requires forall x :: x in seed && x !in b ==> Live(h, x) && DirectCause(h, x)
    requires forall x :: x in a && x !in visited && x !in seed ==> !Wants(h, Marked(h, visited, seed), x)
    ensures Consistent(h, Marked(h, visited, seed))
  {
    var t := Marked(h, visited, seed);
    forall x | x in h.rows ensures x in t <==> x in seed || (x in visited && Wants(h, t, x)) {
      LiftedFix(h, visited, seed, x);
    }
    assert b <= t;
    forall x | x in h.rows ensures x in t <==> Wants(h, t, x) {
      if x !in a {
        assert forall p :: ChildOf(h, x, p) ==> p !in a && p in h.rows;
        ParentsKnown(g, h, t, b, x);
      } else if x in b {
        assert Wants(g, b, x);
        WantsGrow(g, h, b, t, x);
      }
    }
  }

  /** A blocking edge that marks nothing changes no verdict. */
  lemma {:induction false} IdleBlocker(g: Graph, e: EdgeReq, b: set<Id>, x: Id)
    requires WellFormed(g) && Placed(g, e) && (e.source, e.target) !in g.edges && IsBlocking(e.kind)
    requires DirectMark(Put(g, e), e) == {}
    ensures Wants(Put(g, e), b, x) == Wants(g, b, x)
  {
    var h := Put(g, e);
    forall c, p ensures ChildOf(g, c, p) == ChildOf(h, c, p) { }
    forall y, t | !(y == e.source && t == e.target)
      ensures Gates(g, y, t) == Gates(h, y, t) && Waits(g, y, t) == Waits(h, y, t)
      ensures Waits(g, y, t) ==> g.edges[(y, t)] == h.edges[(y, t)]
    { }
    forall s, gate ensures GateHolds(g, s, gate) == GateHolds(h, s, gate) { }
    forall s ensures WaitHolds(g, x, s) == WaitHolds(h, x, s) { }
    assert Live(g, x) ==> forall t :: Gates(h, x, t) && Live(h, t) <==> Gates(g, x, t) && Live(g, t);
  }

  lemma {:induction false} BlockerRight(g: Graph, e: EdgeReq, b: set<Id>)
    requires WellFormed(g) && Placed(g, e) && Consistent(g, b) && (e.source, e.target) !in g.edges && IsBlocking(e.kind)
    ensures Consistent(Put(g, e), EdgeFlags(g, e, b))
  {
    var h, a := Put(g, e), EdgeSet(Put(g, e), e);
    var visited, seed := a - {e.source}, b + DirectMark(h, e);
    if DirectMark(h, e) == {} {
      assert seed == b;
      forall x ensures Wants(h, b, x) == Wants(g, b, x) { IdleBlocker(g, e, b, x); }
      NothingToMark(h, visited, b);
    } else {
      MarkingBlockerRight(g, e, b);
    }
  }

  lemma {:induction false} MarkingBlockerRight(g: Graph, e: EdgeReq, b: set<Id>)
    requires WellFormed(g) && Placed(g, e) && Consistent(g, b) && (e.source, e.target) !in g.edges && IsBlocking(e.kind)
    requires DirectMark(Put(g, e), e) != {}
    ensures Consistent(Put(g, e), Marked(Put(g, e), EdgeSet(Put(g, e), e) - {e.source}, b + {e.source}))
  {
    var h, a := Put(g, e), EdgeSet(Put(g, e), e);
    PutFrames(g, e);
    PutOnlyGrows(g, e);
    assert e.source in a by { assert e.source in EdgeSeeds(h, e.source, e.target, e.kind); }
    assert DirectCause(h, e.source);
    MarkedRight(g, h, a, a - {e.source}, b, b + {e.source});
  }

  lemma {:induction false} NothingToMark(h: Graph, visited: set<Id>, b: set<Id>)
    requires Consistent(h, b)
    ensures Marked(h, visited, b) == b
  {
    forall x | x in Marked(h, visited, b) ensures x in b {
      var n: nat :| Lift(h, visited, b, x, n);
      LiftLeast(h, visited, b, b, x, n);
    }
    forall x | x in b ensures x in Marked(h, visited, b) { LiftedFix(h, visited, b, x); }
  }

  lemma {:induction false} ReAddRight(g: Graph, e: EdgeReq, b: set<Id>)
    requires Placed(g, e) && Consistent(g, b) && (e.source, e.target) in g.edges && ReAddSafe(g, b, e)
    ensures Consistent(Put(g, e), b)
  {
    forall y ensures Wants(Put(g, e), b, y) == Wants(g, b, y) {
      RePut(g, b, e, y);
      SplitCause(g, b, y, e.target);
      SplitCause(Put(g, e), b, y, e.target);
    }
  }

  /** Every edge write from a right column settles, and all but an unsafe re-add leave the
      column right, on every graph. */
  lemma {:induction false} EdgeEnds(g: Graph, e: EdgeReq, b: set<Id>)
    requires WellFormed(g) && Placed(g, e) && Consistent(g, b)
    ensures EdgeSettles(g, e, b)
    ensures ((e.source, e.target) in g.edges ==> ReAddSafe(g, b, e)) ==> Consistent(Put(g, e), EdgeFlags(g, e, b))
  {
    if (e.source, e.target) in g.edges {
      if ReAddSafe(g, b, e) { ReAddRight(g, e, b); }
    } else if e.kind == ParentChild {
      ChildEnds(g, e, b);
    } else if IsBlocking(e.kind) {
      BlockerRight(g, e, b);
    } else {
      PutFrames(g, e);
      PutOnlyGrows(g, e);
      MarkedRight(g, Put(g, e), EdgeSet(Put(g, e), e), EdgeSet(Put(g, e), e), b, b);
    }
  }

  // ---------------------------------------------------------------- the editor

  ghost predicate OnlyChildren(es: seq<EdgeReq>, n: nat) {
    n <= |es| && forall i :: 0 <= i < |es| ==> (es[i].kind == ParentChild <==> i < n)
  }

  /** Parent-child edges first: while they are written the column stays right, and after
      them nothing needs clearing. */
  lemma {:induction false} ChildrenFirstSettle(g: Graph, es: seq<EdgeReq>, n: nat, skip: bool, b: set<Id>)
    requires WellFormed(g) && NoSelf(es) && OnlyChildren(es, n) && (n > 0 ==> Consistent(g, b))
    ensures FoldSettles(g, es, skip, b)
    decreases |es|
  {
    if es != [] && Insert(g, es[0], skip).Ok? {
      assert es[0] in es && forall e :: e in es[1..] ==> e in es;
      PutFrames(g, es[0]);
      if n > 0 { EdgeEnds(g, es[0], b); }
      ChildrenFirstSettle(Put(g, es[0]), es[1..], if n > 0 then n - 1 else 0, skip, EdgeFlags(g, es[0], b));
    }
  }

  lemma {:induction false} OnlyKeeps(es: seq<EdgeReq>, parents: bool)
    ensures forall i :: 0 <= i < |Only(es, parents)| ==> IsParentChild(Only(es, parents)[i]) == parents
  {
    forall i | 0 <= i < |Only(es, parents)| ensures IsParentChild(Only(es, parents)[i]) == parents {
      assert Only(es, parents)[i] in Only(es, parents);
    }
  }

  /** With the probe on no edge closes a ring. */
  lemma {:induction false} ProbedFoldSettles(g: Graph, es: seq<EdgeReq>, b: set<Id>)
    requires WellFormed(g) && NoSelf(es) && Acyclic(Scheduling(g))
    ensures FoldSettles(g, es, false, b)
    decreases |es|
  {
    if es != [] && Insert(g, es[0], false).Ok? {
      assert es[0] in es && forall e :: e in es[1..] ==> e in es;
      PutFrames(g, es[0]);
      ProbedStep(g, es[0]);
      AcyclicEdgeSettles(g, es[0], b);
      ProbedFoldSettles(Put(g, es[0]), es[1..], EdgeFlags(g, es[0], b));
    }
  }

  lemma {:induction false} ProbedStep(g: Graph, e: EdgeReq)
    requires Acyclic(Scheduling(g)) && Insert(g, e, false).Ok?
    ensures Acyclic(Scheduling(Put(g, e)))
  {
    if (e.source, e.target) in g.edges {
      assert Scheduling(Put(g, e)) == Scheduling(g);
    } else {
      StepAcyclic(g, e);
    }
  }

  /** THE EDITOR ANSWERS: with the probe on, always; with it off, whenever the column was
      right, though the request close a ring of parents and settle on it. */
  lemma {:induction false} EditorAnswers(st: State, actor: string, es: seq<EdgeReq>, skip: bool)
    requires Sound(st) && (skip ==> Fresh(st))
    ensures AddDependencies(st, actor, es, skip) != Refused(Endless)
  {
    if ShapeRefusal(es).None? {
      assert NoSelf(ParentChildFirst(es));
      EditorSettles(st, es, skip);
      GraphAnswers(st.g, ParentChildFirst(es), skip);
    }
  }

  lemma {:induction false} EditorSettles(st: State, es: seq<EdgeReq>, skip: bool)
    requires Sound(st) && (skip ==> Fresh(st)) && NoSelf(ParentChildFirst(es))
    ensures FoldSettles(st.g, ParentChildFirst(es), skip, st.blocked)
  {
    if skip {
      FreshIsConsistent(st);
      OnlyKeeps(es, true);
      OnlyKeeps(es, false);
      ChildrenFirstSettle(st.g, ParentChildFirst(es), |Only(es, true)|, skip, st.blocked);
    } else {
      ProbedFoldSettles(st.g, ParentChildFirst(es), st.blocked);
    }
  }

  lemma {:induction false} GraphAnswers(g: Graph, es: seq<EdgeReq>, skip: bool)
    ensures InsertAll(g, es, skip) != Refused(Endless)
    decreases |es|
  {
    if es != [] && Insert(g, es[0], skip).Ok? { GraphAnswers(Insert(g, es[0], skip).value, es[1..], skip); }
  }

  // ---------------------------------------------------------------- batches

  lemma {:induction false} NoneStaleIsRight(st: State)
    requires Tidy(st)
    ensures Stale(st) == {} <==> Consistent(st.g, st.blocked)
  {
    if Stale(st) == {} {
      forall x ensures x in st.blocked <==> x in st.g.rows && Wants(st.g, st.blocked, x) {
        assert x in st.g.rows ==> x !in Stale(st);
      }
    }
  }

  /** A create without edges settles nothing but its own row. */
  lemma {:induction false} BareCreateAnswers(cfg: Config, st: State, id: Id, row: Row)
    requires Tidy(st)
    ensures Create(cfg, st, CreateReq(id, row, [])) != Refused(Endless)
  {
    assert ParentChildFirst([]) == [];
    var h := SetRow(st.g, id, row);
    if id !in st.g.rows {
      assert CreateEdges(h, []) == Ok(h);
      assert NewSeeds(h, h) == {};
      NoDescent(h);
      assert {id} + Descend(h, {}) == {id};
      OneSidedSettles(h, {id}, st.blocked);
    }
  }

  lemma {:induction false} NoDescent(g: Graph)
    ensures Descend(g, {}) == {}
  {
    ReachSetLeast(Down(g), {}, {});
  }

  lemma {:induction false} GuardAnswers(cfg: Config, st: State, r: UpdateReq)
    ensures UpdateGuard(cfg, st, r) != Some(Endless)
  {
  }

  lemma {:induction false} RightUpdateAnswers(cfg: Config, st: State, r: UpdateReq, at: Stamp)
    requires Tidy(st) && Consistent(st.g, st.blocked)
    ensures Update(cfg, st, r, at) != Refused(Endless)
  {
    GuardAnswers(cfg, st, r);
    if UpdateGuard(cfg, st, r).None? { RowEnds(st, r.id, Stamped(Patched(st.g.rows[r.id], r.patch), at)); }
  }

  lemma {:induction false} RightCloseAnswers(st: State, r: CloseReq, at: Stamp)
    requires Tidy(st) && Consistent(st.g, st.blocked)
    ensures Close(st, r, at) != Refused(Endless)
  {
    if r.id in st.g.rows { RowEnds(st, r.id, Stamped(st.g.rows[r.id], at).(status := Closed)); }
  }

  lemma {:induction false} RightEdgeAnswers(ran: Ran, e: EdgeReq, skip: bool)
    requires Tidy(ran.st) && Consistent(ran.st.g, ran.st.blocked)
    ensures ApplyEdge(ran, e, skip) != Refused(Endless)
    ensures ApplyEdge(ran, e, skip).Ok? && Turned(ran.st.g, e, ran.st.blocked) == {} ==>
              Consistent(ApplyEdge(ran, e, skip).value.st.g, ApplyEdge(ran, e, skip).value.st.blocked)
  {
    if e.source != e.target && Insert(ran.st.g, e, skip).Ok? { EdgeEnds(ran.st.g, e, ran.st.blocked); }
  }

  /** From a right column every item is answered, and one that turns no row leaves it right. */
  lemma {:induction false} RightItemAnswers(cfg: Config, env: Env, r: BatchReq, ran: Ran, i: nat)
    requires Supplies(env, r) && i < |r.items| && Tidy(ran.st) && Stale(ran.st) == {}
    ensures ApplyItem(cfg, env, r, ran, i) != Refused(Endless)
    ensures var out := ApplyItem(cfg, env, r, ran, i);
            out.Ok? && ItemMoves(r, ran, i) == {} && Tidy(out.value.st) ==> Stale(out.value.st) == {}
  {
    var out := ApplyItem(cfg, env, r, ran, i);
    NoneStaleIsRight(ran.st);
    match r.items[i]
    case CreateItem(_, _, row, _) =>
      BareCreateAnswers(cfg, ran.st, NewId(env, r.items[i], i), row);
      if out.Ok? { CreateStale(cfg, ran.st, CreateReq(NewId(env, r.items[i], i), row, [])); }
    case UpdateItem(t, _, _, _, _, _, _) =>
      if Resolve(ran.keys, t).Some? {
        var q := AsUpdate(r.actor, r.items[i], Resolve(ran.keys, t).value);
        RightUpdateAnswers(cfg, ran.st, q, env.at[i]);
        if out.Ok? { UpdateStale(cfg, ran.st, q, env.at[i]); }
      }
    case CloseItem(t, expected, force) =>
      if Resolve(ran.keys, t).Some? {
        var q := CloseReq(Resolve(ran.keys, t).value, r.actor, force, expected);
        RightCloseAnswers(ran.st, q, env.at[i]);
        if out.Ok? { CloseStale(ran.st, q, env.at[i]); }
      }
    case DepAddItem(s, t, kind, gate) =>
      if Resolve(ran.keys, s).Some? && Resolve(ran.keys, t).Some? {
        RightEdgeAnswers(ran, EdgeReq(Resolve(ran.keys, s).value, Resolve(ran.keys, t).value, kind, gate), r.skip);
        if out.Ok? && Tidy(out.value.st) { NoneStaleIsRight(out.value.st); }
      }
  }

  lemma {:induction false} RightItemsAnswer(step: Step, cfg: Config, env: Env, r: BatchReq, st: State, n: nat)
    requires Supplies(env, r) && IsStep(step, cfg, env, r) && n <= |r.items| && Tidy(st) && Stale(st) == {}
    requires SafeBy(step, r, st, n)
    ensures Fold(step, Start(st), n) != Refused(Endless)
    ensures Fold(step, Start(st), n).Ok? ==> Stale(Fold(step, Start(st), n).value.st) == {}
    ensures n < |r.items| ==> Fold(step, Start(st), n + 1) != Refused(Endless)
  {
    if n > 0 {
      RightItemsAnswer(step, cfg, env, r, st, n - 1);
      if Fold(step, Start(st), n).Ok? {
        ItemsTidy(step, cfg, env, r, st, n);
        RightStep(step, cfg, env, r, st, n - 1);
      }
    }
    if n < |r.items| && Fold(step, Start(st), n).Ok? {
      ItemsTidy(step, cfg, env, r, st, n);
      NextAnswers(step, cfg, env, r, st, n);
    }
  }

  lemma {:induction false} NextAnswers(step: Step, cfg: Config, env: Env, r: BatchReq, st: State, i: nat)
    requires Supplies(env, r) && IsStep(step, cfg, env, r) && i < |r.items| && Fold(step, Start(st), i).Ok?
    requires var ran := Fold(step, Start(st), i).value; Tidy(ran.st) && Stale(ran.st) == {}
    ensures Fold(step, Start(st), i + 1) != Refused(Endless)
  {
    RightItemAnswers(cfg, env, r, Fold(step, Start(st), i).value, i);
  }

  lemma {:induction false} RightStep(step: Step, cfg: Config, env: Env, r: BatchReq, st: State, i: nat)
    requires Supplies(env, r) && IsStep(step, cfg, env, r) && i < |r.items| && Tidy(st)
    requires Fold(step, Start(st), i).Ok? && Fold(step, Start(st), i + 1).Ok?
    requires Stale(Fold(step, Start(st), i).value.st) == {} && Tidy(Fold(step, Start(st), i + 1).value.st)
    requires ItemSafe(r, Fold(step, Start(st), i).value, i)
    ensures Stale(Fold(step, Start(st), i + 1).value.st) == {}
  {
    var ran := Fold(step, Start(st), i).value;
    ItemsTidy(step, cfg, env, r, st, i);
    SafeItemMovesNone(r, ran, i);
    RightItemAnswers(cfg, env, r, ran, i);
  }

  /** With the probe on the scheduling graph stays acyclic under every item, and every item
      is answered. */
  lemma {:induction false} ProbedItemAnswers(cfg: Config, env: Env, r: BatchReq, ran: Ran, i: nat)
    requires Supplies(env, r) && i < |r.items| && Tidy(ran.st) && Acyclic(Scheduling(ran.st.g)) && !r.skip
    ensures ApplyItem(cfg, env, r, ran, i) != Refused(Endless)
    ensures ApplyItem(cfg, env, r, ran, i).Ok? ==> Acyclic(Scheduling(ApplyItem(cfg, env, r, ran, i).value.st.g))
  {
    match r.items[i]
    case CreateItem(_, _, row, _) =>
      BareCreateAnswers(cfg, ran.st, NewId(env, r.items[i], i), row);
      if ApplyItem(cfg, env, r, ran, i).Ok? { CreateKeeps(cfg, ran.st, CreateReq(NewId(env, r.items[i], i), row, [])); }
    case UpdateItem(t, _, _, _, _, _, _) =>
      if Resolve(ran.keys, t).Some? {
        SoundUpdateAnswers(cfg, ran.st, AsUpdate(r.actor, r.items[i], Resolve(ran.keys, t).value), env.at[i]);
      }
    case CloseItem(t, expected, force) =>
      if Resolve(ran.keys, t).Some? {
        SoundCloseAnswers(ran.st, CloseReq(Resolve(ran.keys, t).value, r.actor, force, expected), env.at[i]);
      }
    case DepAddItem(s, t, kind, gate) =>
      if Resolve(ran.keys, s).Some? && Resolve(ran.keys, t).Some? {
        ProbedEdgeAnswers(ran, EdgeReq(Resolve(ran.keys, s).value, Resolve(ran.keys, t).value, kind, gate));
      }
  }

  lemma {:induction false} SoundRowSettles(st: State, id: Id, row: Row)
    requires Sound(st) && id in st.g.rows
    ensures RowSettles(st, id, row)
  {
    RewrittenFrames(st.g, id, row);
    RowShape(st.g, id, row);
    HierarchyWithinScheduling(st.g);
    RoundsSettle(SetRow(st.g, id, row), StatusSet(st.g, id), st.blocked);
  }

  lemma {:induction false} SoundUpdateAnswers(cfg: Config, st: State, r: UpdateReq, at: Stamp)
    requires Sound(st)
    ensures Update(cfg, st, r, at) != Refused(Endless)
    ensures Update(cfg, st, r, at).Ok? ==> Acyclic(Scheduling(Update(cfg, st, r, at).value.g))
  {
    GuardAnswers(cfg, st, r);
    if UpdateGuard(cfg, st, r).None? { SoundRowSettles(st, r.id, Stamped(Patched(st.g.rows[r.id], r.patch), at)); }
    if Update(cfg, st, r, at).Ok? { UpdateKeepsTidy(cfg, st, r, at); }
  }

  lemma {:induction false} SoundCloseAnswers(st: State, r: CloseReq, at: Stamp)
    requires Sound(st)
    ensures Close(st, r, at) != Refused(Endless)
    ensures Close(st, r, at).Ok? ==> Acyclic(Scheduling(Close(st, r, at).value.g))
  {
    if r.id in st.g.rows { SoundRowSettles(st, r.id, Stamped(st.g.rows[r.id], at).(status := Closed)); }
    if Close(st, r, at).Ok? { CloseKeeps(st, r, at); }
  }

  lemma {:induction false} ProbedEdgeAnswers(ran: Ran, e: EdgeReq)
    requires Tidy(ran.st) && Acyclic(Scheduling(ran.st.g))
    ensures ApplyEdge(ran, e, false) != Refused(Endless)
    ensures ApplyEdge(ran, e, false).Ok? ==> Acyclic(Scheduling(ApplyEdge(ran, e, false).value.st.g))
  {
    if e.source != e.target && Insert(ran.st.g, e, false).Ok? {
      ProbedStep(ran.st.g, e);
      AcyclicEdgeSettles(ran.st.g, e, ran.st.blocked);
    }
  }

  lemma {:induction false} ProbedItemsAnswer(step: Step, cfg: Config, env: Env, r: BatchReq, st: State, n: nat)
    requires Supplies(env, r) && IsStep(step, cfg, env, r) && n <= |r.items| && Sound(st) && !r.skip
    ensures Fold(step, Start(st), n) != Refused(Endless)
    ensures Fold(step, Start(st), n).Ok? ==> Acyclic(Scheduling(Fold(step, Start(st), n).value.st.g))
  {
    if n > 0 {
      ProbedItemsAnswer(step, cfg, env, r, st, n - 1);
      if Fold(step, Start(st), n - 1).Ok? {
        ItemsTidy(step, cfg, env, r, st, n - 1);
        ProbedItemAnswers(cfg, env, r, Fold(step, Start(st), n - 1).value, n - 1);
      }
    }
  }

  lemma {:induction false} ConflictAnswers(h: Graph, es: seq<EdgeReq>)
    requires !Rechecked(h, es)
    ensures FirstConflict(h, es) != Endless
    decreases |es|
  {
    if !AncestorConflict(h, es[0]) && !DescendantConflict(h, es[0]) {
      assert es == [es[0]] + es[1..];
      ConflictAnswers(h, es[1..]);
    }
  }

  /** THE BATCH ANSWERS: with the probe on, always; with it off, whenever the column was
      right and no item turns a row stale before the request is done. */
  lemma {:induction false} BatchAnswers(cfg: Config, env: Env, st: State, r: BatchReq)
    requires Supplies(env, r) && NonEmptyIds(env) && WellPlanned(r.actor, r.items) && Sound(st)
    requires r.skip ==> Fresh(st) && ItemsSafe(cfg, env, r, st)
    ensures ApplyBatch(cfg, env, st, r) != Refused(Endless)
  {
    StepperSteps(cfg, env, r);
    if r.skip {
      FreshIsNoneStale(st);
      RightItemsAnswer(Stepper(cfg, env, r), cfg, env, r, st, |r.items|);
    } else {
      ProbedItemsAnswer(Stepper(cfg, env, r), cfg, env, r, st, |r.items|);
    }
    if ApplyItems(cfg, env, r, st, |r.items|).Ok? { FinishAnswers(cfg, env, st, r); }
  }

  lemma {:induction false} FinishAnswers(cfg: Config, env: Env, st: State, r: BatchReq)
    requires Supplies(env, r) && NonEmptyIds(env) && WellPlanned(r.actor, r.items)
    requires ApplyItems(cfg, env, r, st, |r.items|).Ok?
    ensures ApplyBatch(cfg, env, st, r) != Refused(Endless)
  {
    var ran, order := ApplyItems(cfg, env, r, st, |r.items|).value, SpliceOrder(r, |r.items|);
    SpliceLands(cfg, env, st, r);
    SpliceAllExact(cfg, env, r, ran, ran.st, order);
    if AllValid(r, order) {
      var h := SpliceAll(cfg, env, r, ran, ran.st, order).value.g;
      if !FinalCycle(h, ran.edges) && !Rechecked(h, ran.edges) { ConflictAnswers(h, ran.edges); }
    }
  }

  // ---------------------------------------------------------------- runs

  ghost predicate ClosesHang(st: State, closes: seq<CloseReq>, ats: seq<Stamp>)
    decreases |closes|
  {
    closes != [] && ats != [] &&
    (Close(st, closes[0], ats[0]) == Refused(Endless) ||
     ClosesHang(After(st, Close(st, closes[0], ats[0])), closes[1..], ats[1..]))
  }

  /** The call is never answered. */
  ghost predicate Hangs(cfg: Config, st: State, op: Op) {
    match op
    case DoCreate(r) => Create(cfg, st, r) == Refused(Endless)
    case DoUpdate(r, at) => Update(cfg, st, r, at) == Refused(Endless)
    case DoClose(r, at) => Close(st, r, at) == Refused(Endless)
    case DoCloseBatch(rs, ats) => ClosesHang(st, rs, ats)
    case DoReopen(id, actor, expected, at) => Reopen(cfg, st, id, actor, expected, at) == Refused(Endless)
    case DoAddDependencies(actor, es, skip) => AddDependencies(st, actor, es, skip) == Refused(Endless)
    case DoApplyBatch(r, env) => Planned(op) && ApplyBatch(cfg, env, st, r) == Refused(Endless)
    case _ => false
  }

  lemma {:induction false} ClosesAnswer(st: State, closes: seq<CloseReq>, ats: seq<Stamp>)
    requires Sound(st)
    ensures !ClosesHang(st, closes, ats)
    decreases |closes|
  {
    if closes != [] && ats != [] {
      SoundCloseAnswers(st, closes[0], ats[0]);
      if Close(st, closes[0], ats[0]).Ok? { CloseKeeps(st, closes[0], ats[0]); }
      ClosesAnswer(After(st, Close(st, closes[0], ats[0])), closes[1..], ats[1..]);
    }
  }

  lemma {:induction false} SoundReopenAnswers(cfg: Config, st: State, id: Id, actor: string, expected: Option<int>,
                                              at: Stamp)
    requires Sound(st)
    ensures Reopen(cfg, st, id, actor, expected, at) != Refused(Endless)
  {
    if id in st.g.rows { SoundRowSettles(st, id, Stamped(st.g.rows[id], at).(status := Open)); }
  }

  lemma {:induction false} SoundCreateAnswers(cfg: Config, st: State, r: CreateReq)
    requires Sound(st)
    ensures Create(cfg, st, r) != Refused(Endless)
  {
    var g := SetRow(st.g, r.id, r.row);
    CreateGraphAnswers(g, ParentChildFirst(r.edges));
    if r.id !in st.g.rows && CreateEdges(g, ParentChildFirst(r.edges)).Ok? {
      var h := CreateEdges(g, ParentChildFirst(r.edges)).value;
      var a := {r.id} + Descend(h, NewSeeds(g, h));
      CreateFrames(st.g, r.id, r.row);
      CreateCovers(st.g, r, h);
      RowKeepsScheduling(st.g, r.id, r.row);
      CreateEdgesFrames(g, ParentChildFirst(r.edges), a);
      HierarchyWithinScheduling(h);
      RoundsSettle(h, a, st.blocked);
    }
  }

  lemma {:induction false} CreateGraphAnswers(g: Graph, es: seq<EdgeReq>)
    ensures CreateEdges(g, es) != Refused(Endless)
    decreases |es|
  {
    if es != [] && CreateEdge(g, es[0]).Ok? { CreateGraphAnswers(CreateEdge(g, es[0]).value, es[1..]); }
  }

  /** The one way not to be answered: the probe is dropped over a column that is, or that
      the request itself makes, stale. */
  ghost predicate Heeds(cfg: Config, st: State, op: Op) {
    match op
    case DoAddDependencies(_, _, skip) => skip ==> Fresh(st)
    case DoApplyBatch(r, env) => r.skip && Planned(op) ==> Fresh(st) && ItemsSafe(cfg, env, r, st)
    case _ => true
  }

  /** EVERY CALL IS ANSWERED in a sound state, unless it drops the probe over a stale column. */
  lemma {:induction false} EveryCallAnswers(cfg: Config, st: State, op: Op)
    requires Sound(st) && Heeds(cfg, st, op)
    ensures !Hangs(cfg, st, op)
  {
    match op
    case DoCreate(r) => SoundCreateAnswers(cfg, st, r);
    case DoUpdate(r, at) => SoundUpdateAnswers(cfg, st, r, at);
    case DoClose(r, at) => SoundCloseAnswers(st, r, at);
    case DoCloseBatch(rs, ats) => ClosesAnswer(st, rs, ats);
    case DoReopen(id, actor, expected, at) => SoundReopenAnswers(cfg, st, id, actor, expected, at);
    case DoAddDependencies(actor, es, skip) => EditorAnswers(st, actor, es, skip);
    case DoApplyBatch(r, env) => if Planned(op) { BatchAnswers(cfg, env, st, r); }
    case _ =>
  }

  /** Along every quiet run from a settled store every call is answered, probing or not; of a
      batch without the probe this asks that no item turn a row. */
  lemma {:induction false} QuietRunAnswers(cfg: Config, st: State, ops: seq<Op>, op: Op)
    requires Sound(st) && Fresh(st) && QuietRun(cfg, st, ops)
    requires op.DoApplyBatch? && op.batch.skip && Planned(op) ==> ItemsSafe(cfg, op.env, op.batch, Run(cfg, st, ops))
    ensures !Hangs(cfg, Run(cfg, st, ops), op)
  {
    RunKeeps(cfg, st, ops);
    EveryCallAnswers(cfg, Run(cfg, st, ops), op);
  }
}
