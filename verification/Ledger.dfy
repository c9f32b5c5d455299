/** The rows a request leaves stale, to the row. Each write takes off the ledger the rows its
    settlement or its marks set right, and puts on it the rows it turns without settling; what
    is on it at the end is exactly what is stale. */
module Ledger {

  import opened Digraph
  import opened IssueGraph
  import opened Affected
  import opened Edits
  import opened Settlement
  import opened Flags
  import opened Results
  import opened Verbs
  import opened BatchPlan
  import opened Batch
  import opened Runs
  import opened Drift

  ghost function Posted(owed: set<Id>, mends: set<Id>, turns: set<Id>): set<Id> {
    Xor(owed - mends, turns)
  }

  // ---------------------------------------------------------------- one edge

  /** What an edge write sets right: all it affects, when it settles; when it only marks, the
      rows it affects that then carry their flag and are owed it. */
  ghost function EdgeMends(g: Graph, e: EdgeReq, b: set<Id>): set<Id> {
    var h, t := Put(g, e), EdgeFlags(g, e, b);
    if (e.source, e.target) in g.edges then {}
    else if e.kind == ParentChild then EdgeSet(h, e)
    else set x | x in EdgeSet(h, e) && x in t && Wants(h, t, x)
  }

  /** Marks cure a stale row of the framing set exactly when they leave it flagged with cause. */
  lemma {:induction false} MarksMend(g: Graph, h: Graph, a: set<Id>, b: set<Id>, t: set<Id>, x: Id)
    requires Frames(g, h, a) && Grows(g, h) && b <= t && x in g.rows
    requires forall y :: y in h.rows && y !in a ==> (y in t <==> y in b)
    requires IsStale(g, b, x)
    ensures IsStale(h, t, x) <==> !(x in a && x in t && Wants(h, t, x))
  {
    if x !in a {
      assert forall p :: ChildOf(h, x, p) ==> p !in a && p in h.rows;
      ParentsKnown(g, h, t, b, x);
    } else if x !in t {
      WantsGrow(g, h, b, t, x);
    }
  }

  lemma {:induction false} MarkingIs(g: Graph, e: EdgeReq, b: set<Id>)
    requires WellFormed(g) && Placed(g, e) && b <= g.rows.Keys
    requires (e.source, e.target) !in g.edges && e.kind != ParentChild
    ensures var h, t := Put(g, e), EdgeFlags(g, e, b);
            && Frames(g, h, EdgeSet(h, e)) && Grows(g, h) && b <= t
            && forall y :: y in h.rows && y !in EdgeSet(h, e) ==> (y in t <==> y in b)
  {
    var h := Put(g, e);
    var a := EdgeSet(h, e);
    PutFrames(g, e);
    PutOnlyGrows(g, e);
    if IsBlocking(e.kind) {
      MarkIsDerived(g, e);
      MarksOutside(h, a, a - {e.source}, b + DirectMark(h, e), b);
    } else {
      MarksOutside(h, a, a, b, b);
    }
  }

  lemma {:induction false} MarksOutside(h: Graph, a: set<Id>, visited: set<Id>, seed: set<Id>, b: set<Id>)
    requires visited <= a && b <= seed <= b + a && b <= h.rows.Keys
    ensures b <= Marked(h, visited, seed)
    ensures forall y :: y in h.rows && y !in a ==> (y in Marked(h, visited, seed) <==> y in b)
  {
    MarksStay(h, visited, seed, b);
    assert b * h.rows.Keys == b;
    forall y | y in h.rows && y !in a
        ensures y in Marked(h, visited, seed) <==> y in b { LiftedFix(h, visited, seed, y); }
  }

  lemma {:induction false} MarkedExactly(st: State, e: EdgeReq)
    requires Tidy(st) && Placed(st.g, e) && Acyclic(Hierarchy(Put(st.g, e)))
    requires (e.source, e.target) !in st.g.edges && e.kind != ParentChild
    ensures Stale(State(Put(st.g, e), EdgeFlags(st.g, e, st.blocked))) == Stale(st) - EdgeMends(st.g, e, st.blocked)
  {
    var g, b, h, t := st.g, st.blocked, Put(st.g, e), EdgeFlags(st.g, e, st.blocked);
    NewEdgeStale(st, e);
    MarkingIs(g, e, b);
    forall x | x in Stale(st) ensures x in Stale(State(h, t)) <==> x !in EdgeMends(g, e, b) {
      MarksMend(g, h, EdgeSet(h, e), b, t, x);
    }
  }

  /** ONE EDGE, TO THE ROW. */
  lemma {:induction false} EdgeExactly(st: State, e: EdgeReq)
    requires Tidy(st) && Placed(st.g, e) && Acyclic(Hierarchy(Put(st.g, e)))
    ensures Stale(State(Put(st.g, e), EdgeFlags(st.g, e, st.blocked))) ==
            Posted(Stale(st), EdgeMends(st.g, e, st.blocked), Turned(st.g, e, st.blocked))
  {
    var g, b := st.g, st.blocked;
    if (e.source, e.target) in g.edges {
      ReAddStale(st, e);
      assert Stale(st) - {} == Stale(st);
    } else if e.kind == ParentChild {
      PutFrames(g, e);
      HierarchySettles(g, e, b);
      RoundsStale(g, Put(g, e), EdgeSet(Put(g, e), e), b);
      StaleRows(st, Put(g, e).rows.Keys);
      XorNone(Stale(st) - EdgeSet(Put(g, e), e));
    } else {
      MarkedExactly(st, e);
      XorNone(Stale(st) - EdgeMends(g, e, b));
    }
  }

  lemma {:induction false} XorNone(a: set<Id>)
    ensures Xor(a, {}) == a
  {
  }

  // ---------------------------------------------------------------- the editor

  ghost function FoldOwed(g: Graph, es: seq<EdgeReq>, b: set<Id>, owed: set<Id>): set<Id>
    decreases |es|
  {
    if es == [] then owed
    else FoldOwed(Put(g, es[0]), es[1..], EdgeFlags(g, es[0], b),
                  Posted(owed, EdgeMends(g, es[0], b), Turned(g, es[0], b)))
  }

  lemma {:induction false} FirstExactly(g: Graph, es: seq<EdgeReq>, skip: bool, b: set<Id>)
    requires es != [] && InsertAll(g, es, skip).Ok? && NoSelf(es) && Tidy(State(g, b))
    requires Acyclic(Scheduling(InsertAll(g, es, skip).value))
    ensures Tidy(State(Put(g, es[0]), EdgeFlags(g, es[0], b)))
    ensures Stale(State(Put(g, es[0]), EdgeFlags(g, es[0], b))) ==
            Posted(Stale(State(g, b)), EdgeMends(g, es[0], b), Turned(g, es[0], b))
  {
    FirstStale(g, es, skip, b);
    assert es[0] in es;
    InsertAllApplies(Put(g, es[0]), es[1..], skip);
    AcyclicShrinks(Scheduling(Put(g, es[0])), Scheduling(InsertAll(g, es, skip).value));
    HierarchyWithinScheduling(Put(g, es[0]));
    EdgeExactly(State(g, b), es[0]);
  }

  lemma {:induction false} FoldExactly(g: Graph, es: seq<EdgeReq>, skip: bool, b: set<Id>)
    requires InsertAll(g, es, skip).Ok? && NoSelf(es) && Tidy(State(g, b))
    requires Acyclic(Scheduling(InsertAll(g, es, skip).value))
    ensures Stale(State(InsertAll(g, es, skip).value, FoldFlags(g, es, b))) == FoldOwed(g, es, b, Stale(State(g, b)))
    decreases |es|
  {
    if es != [] {
      FirstExactly(g, es, skip, b);
      assert forall e :: e in es[1..] ==> e in es;
      FoldExactly(Put(g, es[0]), es[1..], skip, EdgeFlags(g, es[0], b));
    }
  }

  /** THE EDITOR, EXACTLY. However many edges a request names, it leaves the column right if
      and only if every source it turns is turned back or set right by a later edge of it. */
  lemma {:induction false} EditorExact(st: State, actor: string, es: seq<EdgeReq>, skip: bool)
    requires Sound(st) && Fresh(st) && AddDependencies(st, actor, es, skip).Ok?
    ensures Fresh(AddDependencies(st, actor, es, skip).value) <==>
            FoldOwed(st.g, ParentChildFirst(es), st.blocked, {}) == {}
  {
    var fs := ParentChildFirst(es);
    AddDependenciesKeeps(st, actor, es, skip);
    AcceptedGraphIsSafe(st.g, es, skip);
    FreshIsNoneStale(st);
    FoldExactly(st.g, fs, skip, st.blocked);
    FreshIsNoneStale(AddDependencies(st, actor, es, skip).value);
  }

  // ---------------------------------------------------------------- items

  ghost function UpdateMends(st: State, r: UpdateReq): set<Id> {
    if r.id in st.g.rows && IsLive(st.g.rows[r.id].status) != IsLive(Patched(st.g.rows[r.id], r.patch).status)
    then StatusSet(st.g, r.id) else {}
  }

  lemma {:induction false} UpdateExactly(cfg: Config, st: State, r: UpdateReq, at: Stamp)
    requires Tidy(st) && Update(cfg, st, r, at).Ok?
    ensures Stale(Update(cfg, st, r, at).value) == Posted(Stale(st), UpdateMends(st, r), UpdateMoves(st, r))
  {
    var row := st.g.rows[r.id];
    var next := Patched(row, r.patch);
    XorNone(Stale(st));
    XorNone(Stale(st) - StatusSet(st.g, r.id));
    assert Stale(st) - {} == Stale(st);
    if next == row {
    } else if IsLive(row.status) != IsLive(next.status) {
      RewrittenStale(st, r.id, Stamped(next, at));
    } else if Restanding(row.status, next.status) {
      RestandingStale(st, r.id, Stamped(next, at));
    } else {
      UnsettledStale(st, r.id, Stamped(next, at));
    }
  }

  ghost function CloseMends(st: State, id: Id): set<Id> {
    if id in st.g.rows && st.g.rows[id].status != Closed then StatusSet(st.g, id) else {}
  }

  lemma {:induction false} CloseExactly(st: State, r: CloseReq, at: Stamp)
    requires Tidy(st) && Close(st, r, at).Ok?
    ensures Stale(Close(st, r, at).value) == Posted(Stale(st), CloseMends(st, r.id), {})
  {
    XorNone(Stale(st) - CloseMends(st, r.id));
    if st.g.rows[r.id].status != Closed {
      RewrittenStale(st, r.id, Stamped(st.g.rows[r.id], at).(status := Closed));
    } else {
      assert Stale(st) - {} == Stale(st);
    }
  }

  lemma {:induction false} BareCreateExactly(cfg: Config, st: State, id: Id, row: Row)
    requires Tidy(st) && Create(cfg, st, CreateReq(id, row, [])).Ok?
    ensures Stale(Create(cfg, st, CreateReq(id, row, [])).value) == Posted(Stale(st), {}, {})
  {
    var h := SetRow(st.g, id, row);
    assert ParentChildFirst([]) == [] && CreateEdges(h, []) == Ok(h) && NewSeeds(h, h) == {};
    ReachSetLeast(Down(h), {}, {});
    assert {id} + Descend(h, {}) == {id};
    CreateFrames(st.g, id, row);
    RoundsStale(st.g, h, {id}, st.blocked);
    StaleRows(st, h.rows.Keys);
    XorNone(Stale(st));
    assert Stale(st) - {} == Stale(st) && Stale(st) - {id} == Stale(st);
  }

  /** What one item of a batch sets right. */
  ghost function ItemMends(r: BatchReq, ran: Ran, i: nat): set<Id>
    requires i < |r.items|
  {
    match r.items[i]
    case CreateItem(_, _, _, _) => {}
    case UpdateItem(t, _, _, _, _, _, _) =>
      var id := Resolve(ran.keys, t);
      if id.Some? then UpdateMends(ran.st, AsUpdate(r.actor, r.items[i], id.value)) else {}
    case CloseItem(t, _, _) => var id := Resolve(ran.keys, t); if id.Some? then CloseMends(ran.st, id.value) else {}
    case DepAddItem(s, t, kind, gate) =>
      var source, target := Resolve(ran.keys, s), Resolve(ran.keys, t);
      if source.Some? && target.Some?
      then EdgeMends(ran.st.g, EdgeReq(source.value, target.value, kind, gate), ran.st.blocked) else {}
  }

  lemma {:induction false} EdgeItemExactly(ran: Ran, e: EdgeReq, skip: bool)
    requires Tidy(ran.st) && ApplyEdge(ran, e, skip).Ok? && Acyclic(Scheduling(ApplyEdge(ran, e, skip).value.st.g))
    ensures Stale(ApplyEdge(ran, e, skip).value.st) ==
            Posted(Stale(ran.st), EdgeMends(ran.st.g, e, ran.st.blocked), Turned(ran.st.g, e, ran.st.blocked))
  {
    HierarchyWithinScheduling(Put(ran.st.g, e));
    EdgeExactly(ran.st, e);
  }

  /** ONE ITEM, TO THE ROW. */
  lemma {:induction false} ItemExactly(cfg: Config, env: Env, r: BatchReq, ran: Ran, i: nat)
    requires Supplies(env, r) && i < |r.items| && Tidy(ran.st) && ApplyItem(cfg, env, r, ran, i).Ok?
    requires Acyclic(Scheduling(ApplyItem(cfg, env, r, ran, i).value.st.g))
    ensures Stale(ApplyItem(cfg, env, r, ran, i).value.st) ==
            Posted(Stale(ran.st), ItemMends(r, ran, i), ItemMoves(r, ran, i))
  {
    match r.items[i]
    case CreateItem(_, _, row, _) => BareCreateExactly(cfg, ran.st, NewId(env, r.items[i], i), row);
    case UpdateItem(t, _, _, _, _, _, _) =>
      UpdateExactly(cfg, ran.st, AsUpdate(r.actor, r.items[i], Resolve(ran.keys, t).value), env.at[i]);
    case CloseItem(t, expected, force) =>
      CloseExactly(ran.st, CloseReq(Resolve(ran.keys, t).value, r.actor, force, expected), env.at[i]);
    case DepAddItem(s, t, kind, gate) =>
      EdgeItemExactly(ran, EdgeReq(Resolve(ran.keys, s).value, Resolve(ran.keys, t).value, kind, gate), r.skip);
  }

  // ---------------------------------------------------------------- batches

  ghost function ItemMender(r: BatchReq): Mover {
    (ran: Ran, i: nat) => if i < |r.items| then ItemMends(r, ran, i) else {}
  }

  ghost predicate IsMender(mends: Mover, r: BatchReq) {
    forall ran: Ran, i: nat {:trigger ItemMends(r, ran, i)} :: i < |r.items| ==> mends(ran, i) == ItemMends(r, ran, i)
  }

  /** The ledger after n items. */
  ghost function OwedBy(step: Step, mends: Mover, moves: Mover, st: State, owed: set<Id>, n: nat): set<Id> {
    if n == 0 then owed
    else
      var before := OwedBy(step, mends, moves, st, owed, n - 1);
      match Fold(step, Start(st), n - 1)
      case Ok(ran) => Posted(before, mends(ran, n - 1), moves(ran, n - 1))
      case Refused(_) => before
  }

  lemma {:induction false} NextExactly(step: Step, mends: Mover, moves: Mover, cfg: Config, env: Env, r: BatchReq,
                                       st: State, i: nat) returns (ran: Ran)
    requires Supplies(env, r) && IsStep(step, cfg, env, r) && IsMender(mends, r) && IsMover(moves, r)
    requires i < |r.items| && Tidy(st)
    requires Fold(step, Start(st), i + 1).Ok? && Acyclic(Scheduling(Fold(step, Start(st), i + 1).value.st.g))
    ensures Fold(step, Start(st), i) == Ok(ran) && Acyclic(Scheduling(ran.st.g))
    ensures Stale(Fold(step, Start(st), i + 1).value.st) == Posted(Stale(ran.st), mends(ran, i), moves(ran, i))
  {
    ran := NextByStep(step, moves, cfg, env, r, st, i);
    ItemsTidy(step, cfg, env, r, st, i);
    assert ApplyItem(cfg, env, r, ran, i) == Fold(step, Start(st), i + 1);
    ItemExactly(cfg, env, r, ran, i);
  }

  lemma {:induction false} ItemsExactly(step: Step, mends: Mover, moves: Mover, cfg: Config, env: Env, r: BatchReq,
                                        st: State, n: nat)
    requires Supplies(env, r) && IsStep(step, cfg, env, r) && IsMender(mends, r) && IsMover(moves, r)
    requires n <= |r.items| && Tidy(st)
    requires Fold(step, Start(st), n).Ok? && Acyclic(Scheduling(Fold(step, Start(st), n).value.st.g))
    ensures Stale(Fold(step, Start(st), n).value.st) == OwedBy(step, mends, moves, st, Stale(st), n)
  {
    if n > 0 {
      var ran := NextExactly(step, mends, moves, cfg, env, r, st, n - 1);
      ItemsExactly(step, mends, moves, cfg, env, r, st, n - 1);
    }
  }

  ghost function BatchOwed(cfg: Config, env: Env, st: State, r: BatchReq): set<Id>
    requires Supplies(env, r)
  {
    OwedBy(Stepper(cfg, env, r), ItemMender(r), ItemMover(r), st, {}, |r.items|)
  }

  /** THE BATCH, EXACTLY. An accepted batch leaves the column right if and only if every row
      an item of it turns is turned back or set right by a later item. */
  lemma {:induction false} BatchExact(cfg: Config, env: Env, st: State, r: BatchReq)
    requires Supplies(env, r) && NonEmptyIds(env) && WellPlanned(r.actor, r.items)
    requires Sound(st) && Fresh(st) && ApplyBatch(cfg, env, st, r).Ok?
    ensures Fresh(ApplyBatch(cfg, env, st, r).value.st) <==> BatchOwed(cfg, env, st, r) == {}
  {
    var ran, out := ApplyItems(cfg, env, r, st, |r.items|).value, ApplyBatch(cfg, env, st, r).value;
    var order := SpliceOrder(r, |r.items|);
    SpliceLands(cfg, env, st, r);
    SpliceAllExact(cfg, env, r, ran, ran.st, order);
    StepperSteps(cfg, env, r);
    ItemsTidy(Stepper(cfg, env, r), cfg, env, r, st, |r.items|);
    BatchKeeps(cfg, env, st, r);
    SplicedKeeps(env, r, ran, ran.st, order, out.st);
    SplicedStale(env, r, ran, ran.st, order, out.st);
    FreshIsNoneStale(st);
    FreshIsNoneStale(out.st);
    ItemsOwe(cfg, env, st, r);
  }

  lemma {:induction false} ItemsOwe(cfg: Config, env: Env, st: State, r: BatchReq)
    requires Supplies(env, r) && Tidy(st) && Stale(st) == {} && ApplyItems(cfg, env, r, st, |r.items|).Ok?
    requires Acyclic(Scheduling(ApplyItems(cfg, env, r, st, |r.items|).value.st.g))
    ensures Stale(ApplyItems(cfg, env, r, st, |r.items|).value.st) == BatchOwed(cfg, env, st, r)
  {
    StepperSteps(cfg, env, r);
    ItemMoverMoves(r);
    assert IsMender(ItemMender(r), r);
    ItemsExactly(Stepper(cfg, env, r), ItemMender(r), ItemMover(r), cfg, env, r, st, |r.items|);
  }
}
