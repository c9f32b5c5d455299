/** The stored state and the flags each kind of write leaves behind: a row write, one
    edge, one removal, one deletion. Each is proved to leave the column equal to a full
    recompute, or to do so exactly under a stated condition. */
module Flags {

  import opened Digraph
  import opened IssueGraph
  import opened Affected
  import opened Edits
  import opened Settlement

  /** The rows and edges of both planes, and the rows whose is_blocked column is 1. */
  datatype State = State(g: Graph, blocked: set<Id>)

  ghost predicate Tidy(st: State) {
    WellFormed(st.g) && st.blocked <= st.g.rows.Keys
  }

  /** What every committed state satisfies. */
  ghost predicate Sound(st: State) {
    Tidy(st) && Acyclic(Scheduling(st.g))
  }

  /** The stored column is the full recompute. */
  ghost predicate Fresh(st: State) {
    st.blocked == Recompute(st.g)
  }

  // ---------------------------------------------------------------- affected sets

  ghost function Descend(g: Graph, seeds: set<Id>): set<Id> {
    ReachSet(Down(g), seeds)
  }

  ghost function StatusSet(g: Graph, id: Id): set<Id> {
    Descend(g, StatusSeeds(g, id))
  }

  ghost function EdgeSet(h: Graph, e: EdgeReq): set<Id> {
    Descend(h, EdgeSeeds(h, e.source, e.target, e.kind))
  }

  ghost function DeletionSet(g: Graph, d: set<Id>): set<Id> {
    ReachSet(DownAround(g, d), DeletionSeeds(g, d))
  }

  lemma {:induction false} HierarchyWithinScheduling(g: Graph)
    ensures Hierarchy(g) <= Scheduling(g)
    ensures Acyclic(Scheduling(g)) ==> Acyclic(Hierarchy(g))
  {
    forall e | e in Hierarchy(g) ensures e in Scheduling(g) { assert ChildOf(g, e.0, e.1); }
    if Acyclic(Scheduling(g)) { AcyclicShrinks(Hierarchy(g), Scheduling(g)); }
  }

  lemma {:induction false} LiftedRows(g: Graph, a: set<Id>, base: set<Id>)
    ensures Lifted(g, a, base) <= g.rows.Keys
  {
  }

  /** The same causes and parents, with the same flags, ask for the same flag. */
  lemma {:induction false} ParentsKnown(g: Graph, h: Graph, t: set<Id>, b: set<Id>, x: Id)
    requires Live(g, x) == Live(h, x) && DirectCause(g, x) == DirectCause(h, x)
    requires forall p :: ChildOf(g, x, p) <==> ChildOf(h, x, p)
    requires forall p :: ChildOf(h, x, p) ==> (p in t <==> p in b)
    ensures Wants(h, t, x) == Wants(g, b, x)
  {
    assert forall p :: ChildOf(g, x, p) ==> p in g.rows;
    assert forall p :: ChildOf(h, x, p) ==> p in h.rows;
  }

  // ---------------------------------------------------------------- row writes

  /** A row write followed by the settlement of everything a status change reaches. */
  ghost function Rewritten(st: State, id: Id, row: Row): State {
    State(SetRow(st.g, id, row), Rounds(SetRow(st.g, id, row), StatusSet(st.g, id), st.blocked))
  }

  /** Settling a framing set, with no ring of parents, gives the full recompute. */
  lemma {:induction false} RoundsFresh(g: Graph, h: Graph, a: set<Id>, b: set<Id>)
    requires Frames(g, h, a) && WellFormed(h) && Acyclic(Hierarchy(h)) && b == Recompute(g)
    ensures Rounds(h, a, b) == Recompute(h)
  {
    RoundsSettle(h, a, b);
    SettledIsRecompute(g, h, a, b);
  }

  lemma {:induction false} RowShape(g: Graph, id: Id, row: Row)
    requires id in g.rows
    ensures SetRow(g, id, row).rows.Keys == g.rows.Keys && Hierarchy(SetRow(g, id, row)) == Hierarchy(g)
  {
    assert SetRow(g, id, row).rows.Keys == g.rows.Keys;
    SameShape(g, SetRow(g, id, row));
  }

  lemma {:induction false} RewrittenFrames(g: Graph, id: Id, row: Row)
    requires WellFormed(g) && id in g.rows
    ensures WellFormed(SetRow(g, id, row)) && Frames(g, SetRow(g, id, row), StatusSet(g, id))
  {
    ReachSetExact(Down(g), StatusSeeds(g, id));
    StatusFrames(g, id, row, StatusSet(g, id));
  }

  lemma {:induction false} RewrittenFresh(st: State, id: Id, row: Row)
    requires Tidy(st) && id in st.g.rows
    ensures Tidy(Rewritten(st, id, row))
    ensures Acyclic(Hierarchy(st.g)) && Fresh(st) ==> Fresh(Rewritten(st, id, row))
  {
    var a, h := StatusSet(st.g, id), SetRow(st.g, id, row);
    RewrittenFrames(st.g, id, row);
    RowShape(st.g, id, row);
    RoundsWithin(h, a, st.blocked);
    if Acyclic(Hierarchy(st.g)) && Fresh(st) { RoundsFresh(st.g, h, a, st.blocked); }
  }

  /** The settlement of a row write comes to an end. */
  ghost predicate RowSettles(st: State, id: Id, row: Row) {
    Settles(SetRow(st.g, id, row), StatusSet(st.g, id), st.blocked)
  }

  /** A row write that settles nothing. */
  function Unsettled(st: State, id: Id, row: Row): State {
    st.(g := SetRow(st.g, id, row))
  }

  predicate SameStanding(a: Status, b: Status) {
    (a == Closed <==> b == Closed) && (a == Pinned <==> b == Pinned)
  }

  lemma {:induction false} UnsettledFresh(st: State, id: Id, row: Row)
    requires Tidy(st) && id in st.g.rows && SameStanding(st.g.rows[id].status, row.status)
    ensures Tidy(Unsettled(st, id, row))
    ensures Fresh(st) ==> Fresh(Unsettled(st, id, row))
  {
    var h := SetRow(st.g, id, row);
    assert h.rows.Keys == st.g.rows.Keys;
    StandingFrames(st.g, id, row);
    if Fresh(st) { NothingAffected(st.g, h, st.blocked); }
  }

  lemma {:induction false} StandingFrames(g: Graph, id: Id, row: Row)
    requires WellFormed(g) && id in g.rows && SameStanding(g.rows[id].status, row.status)
    ensures WellFormed(SetRow(g, id, row)) && Frames(g, SetRow(g, id, row), {})
  {
    var h := SetRow(g, id, row);
    assert h.rows.Keys == g.rows.Keys;
    SameShape(g, h);
    forall y ensures Live(g, y) == Live(h, y) && Shut(g, y) == Shut(h, y) { }
    forall y | y in h.rows ensures DirectCause(g, y) == DirectCause(h, y) {
      forall s ensures SameChildren(g, h, s) { }
      assert SameEdges(g, h, y);
      CauseSame(g, h, y);
    }
  }

  /** Rows that keep their ids and statuses keep every verdict. */
  lemma {:induction false} SameStatuses(g: Graph, h: Graph)
    requires WellFormed(g) && g.edges == h.edges && g.rows.Keys == h.rows.Keys
    requires forall x :: x in g.rows ==> h.rows[x].status == g.rows[x].status
    ensures WellFormed(h) && Frames(g, h, {})
  {
    SameShape(g, h);
    forall y | y in h.rows ensures DirectCause(g, y) == DirectCause(h, y) {
      forall s ensures SameChildren(g, h, s) { }
      assert SameEdges(g, h, y);
      CauseSame(g, h, y);
    }
  }

  /** A mutation that affects no row leaves the recompute as it was. */
  lemma {:induction false} NothingAffected(g: Graph, h: Graph, b: set<Id>)
    requires Frames(g, h, {}) && b == Recompute(g) && b <= h.rows.Keys
    ensures b == Recompute(h)
  {
    SettledIsRecompute(g, h, {}, b);
    var base := (b * h.rows.Keys) - {};
    assert base == b;
    forall x | x in Lifted(h, {}, b) ensures x in b { LiftedFix(h, {}, b, x); }
    forall x | x in b ensures x in Lifted(h, {}, b) { LiftedFix(h, {}, b, x); }
  }

  // ---------------------------------------------------------------- one edge

  /** The flags one edge write leaves. A stored pair only has its metadata replaced and
      settles nothing; a parent-child edge settles; a blocking edge marks its source
      directly and then walks the rest; any other edge only marks. */
  ghost function EdgeFlags(g: Graph, e: EdgeReq, b: set<Id>): set<Id> {
    if (e.source, e.target) in g.edges then b else NewEdgeFlags(Put(g, e), e, b)
  }

  ghost function NewEdgeFlags(h: Graph, e: EdgeReq, b: set<Id>): set<Id> {
    var a := EdgeSet(h, e);
    if e.kind == ParentChild then Rounds(h, a, b)
    else if IsBlocking(e.kind) then Marked(h, a - {e.source}, b + DirectMark(h, e))
    else Marked(h, a, b)
  }

  /** The settlement of an edge write comes to an end; only a new parent-child edge clears
      flags as well as setting them, and the rounds of the others always end. */
  ghost predicate EdgeSettles(g: Graph, e: EdgeReq, b: set<Id>) {
    e.kind == ParentChild && (e.source, e.target) !in g.edges ==> Settles(Put(g, e), EdgeSet(Put(g, e), e), b)
  }

  lemma {:induction false} AcyclicEdgeSettles(g: Graph, e: EdgeReq, b: set<Id>)
    requires WellFormed(g) && Placed(g, e) && Acyclic(Scheduling(Put(g, e)))
    ensures EdgeSettles(g, e, b)
  {
    PutFrames(g, e);
    HierarchyWithinScheduling(Put(g, e));
    RoundsSettle(Put(g, e), EdgeSet(Put(g, e), e), b);
  }

  function DirectMark(h: Graph, e: EdgeReq): set<Id> {
    if Gates(h, e.source, e.target) && Live(h, e.target) && Live(h, e.source) then {e.source} else {}
  }

  /** Another cause than the wait on t already blocks x. */
  predicate OtherCause(g: Graph, b: set<Id>, x: Id, t: Id) {
    || (exists u :: u in g.rows && Gates(g, x, u) && Live(g, u))
    || (exists s :: s in g.rows && s != t && WaitHolds(g, x, s))
    || (exists p :: p in g.rows && ChildOf(g, x, p) && p in b)
  }

  /** When re-adding a stored pair leaves the column right: unless it rewrites the gate
      of a wait that decides a live row's verdict on its own. */
  predicate ReAddSafe(g: Graph, b: set<Id>, e: EdgeReq) {
    && (e.source, e.target) in g.edges
    && (|| e.kind != WaitsFor
        || !Joined(g, e.source, e.target)
        || !Live(g, e.source)
        || GateHolds(g, e.target, e.gate) == GateHolds(g, e.target, g.edges[(e.source, e.target)].gate)
        || OtherCause(g, b, e.source, e.target))
  }

  predicate Placed(g: Graph, e: EdgeReq) {
    && e.source in g.rows && e.source != e.target && (IsExternal(e.source, e.target) || e.target in g.rows)
    && ((e.source, e.target) in g.edges ==> g.edges[(e.source, e.target)].kind == e.kind)
  }

  lemma {:induction false} PutFrames(g: Graph, e: EdgeReq)
    requires WellFormed(g) && Placed(g, e)
    ensures WellFormed(Put(g, e)) && Frames(g, Put(g, e), EdgeSet(Put(g, e), e))
    ensures EdgeSeeds(Put(g, e), e.source, e.target, e.kind) <= EdgeSet(Put(g, e), e)
  {
    var h := Put(g, e);
    assert WellFormed(h);
    ReachSetExact(Down(h), EdgeSeeds(h, e.source, e.target, e.kind));
    EdgeFrames(g, h, e.source, e.target, e.kind, EdgeSet(h, e));
  }

  /** Other edges than parent-child ones only ever add a cause. */
  lemma {:induction false} PutOnlyGrows(g: Graph, e: EdgeReq)
    requires WellFormed(g) && Placed(g, e) && (e.source, e.target) !in g.edges && e.kind != ParentChild
    ensures Grows(g, Put(g, e))
  {
    var h := Put(g, e);
    forall s, t | Joined(g, s, t) ensures Joined(h, s, t) && h.edges[(s, t)] == g.edges[(s, t)] { }
    forall c, p ensures ChildOf(g, c, p) == ChildOf(h, c, p) { }
    forall y | DirectCause(g, y) ensures DirectCause(h, y) {
      GrownCause(g, h, y);
    }
  }

  lemma {:induction false} GrownCause(g: Graph, h: Graph, y: Id)
    requires g.rows == h.rows && DirectCause(g, y)
    requires forall s, t :: Joined(g, s, t) ==> Joined(h, s, t) && h.edges[(s, t)] == g.edges[(s, t)]
    requires forall c, p :: ChildOf(g, c, p) == ChildOf(h, c, p)
    ensures DirectCause(h, y)
  {
    if t :| t in g.rows && Gates(g, y, t) && Live(g, t) {
      assert Gates(h, y, t) && Live(h, t);
    } else {
      var s :| s in g.rows && WaitHolds(g, y, s);
      assert GateHolds(h, s, h.edges[(y, s)].gate);
      assert WaitHolds(h, y, s);
    }
  }

  lemma {:induction false} CausesGrow(g: Graph, h: Graph)
    requires Grows(g, h)
    ensures Recompute(g) <= Recompute(h)
  {
    forall x | x in Recompute(g) ensures x in Recompute(h) {
      var n: nat :| Lift(g, g.rows.Keys, {}, x, n);
      RecomputeGrows(g, h, x, n);
    }
  }

  /** The direct mark is derived, and after it the source carries all it is owed. */
  lemma {:induction false} SourceMarked(g: Graph, e: EdgeReq)
    requires WellFormed(g) && Placed(g, e) && (e.source, e.target) !in g.edges && IsBlocking(e.kind)
    ensures DirectMark(Put(g, e), e) <= Recompute(Put(g, e))
    ensures e.source in Recompute(Put(g, e)) ==> e.source in Recompute(g) + DirectMark(Put(g, e), e)
  {
    var h := Put(g, e);
    if DirectMark(h, e) != {} {
      assert DirectCause(h, e.source);
      LiftedFix(h, h.rows.Keys, {}, e.source);
    } else if e.source in Recompute(h) {
      SourceUnchanged(g, e);
    }
  }

  lemma {:induction false} BlockingFresh(g: Graph, e: EdgeReq, b: set<Id>)
    requires WellFormed(g) && Placed(g, e) && b == Recompute(g)
    requires (e.source, e.target) !in g.edges && IsBlocking(e.kind)
    ensures EdgeFlags(g, e, b) == Recompute(Put(g, e))
  {
    var h := Put(g, e);
    PutFrames(g, e);
    PutOnlyGrows(g, e);
    CausesGrow(g, h);
    SourceMarked(g, e);
    MarkedIsRecompute(g, h, EdgeSet(h, e), EdgeSet(h, e) - {e.source}, b + DirectMark(h, e));
  }

  /** A blocking edge that marks nothing gives its source no cause. */
  lemma {:induction false} SourceUnchanged(g: Graph, e: EdgeReq)
    requires WellFormed(g) && Placed(g, e)
    requires (e.source, e.target) !in g.edges && IsBlocking(e.kind) && DirectMark(Put(g, e), e) == {}
    requires e.source in Recompute(Put(g, e))
    ensures e.source in Recompute(g)
  {
    var h := Put(g, e);
    LiftedFix(h, h.rows.Keys, {}, e.source);
    assert Live(h, e.source) && !(Gates(h, e.source, e.target) && Live(h, e.target));
    forall c, p ensures ChildOf(g, c, p) == ChildOf(h, c, p) { }
    forall y, t | !(y == e.source && t == e.target)
      ensures Gates(g, y, t) == Gates(h, y, t) && Waits(g, y, t) == Waits(h, y, t)
      ensures Waits(g, y, t) ==> g.edges[(y, t)] == h.edges[(y, t)]
    { }
    forall s, gate ensures GateHolds(g, s, gate) == GateHolds(h, s, gate) { }
    forall y ensures DirectCause(g, y) == DirectCause(h, y) {
      assert forall t :: Gates(h, y, t) && Live(h, t) <==> Gates(g, y, t) && Live(g, t);
      assert forall s :: WaitHolds(h, y, s) == WaitHolds(g, y, s);
    }
    assert Frames(h, g, {});
    NothingAffected(h, g, Recompute(h));
  }

  lemma {:induction false} NewEdgeFresh(g: Graph, e: EdgeReq, b: set<Id>)
    requires WellFormed(g) && Placed(g, e) && b == Recompute(g) && (e.source, e.target) !in g.edges
    requires Acyclic(Hierarchy(Put(g, e)))
    ensures EdgeFlags(g, e, b) == Recompute(Put(g, e))
  {
    var h := Put(g, e);
    var a := EdgeSet(h, e);
    PutFrames(g, e);
    if e.kind == ParentChild {
      RoundsFresh(g, h, a, b);
    } else if IsBlocking(e.kind) {
      BlockingFresh(g, e, b);
    } else {
      PutOnlyGrows(g, e);
      CausesGrow(g, h);
      MarkedIsRecompute(g, h, a, a, b);
    }
  }

  /** A row's verdict splits into the wait on t and everything else. */
  lemma {:induction false} SplitCause(g: Graph, b: set<Id>, x: Id, t: Id)
    ensures Wants(g, b, x) <==> Live(g, x) && (OtherCause(g, b, x, t) || (t in g.rows && WaitHolds(g, x, t)))
  {
  }

  lemma {:induction false} RePut(g: Graph, b: set<Id>, e: EdgeReq, y: Id)
    requires Placed(g, e) && (e.source, e.target) in g.edges
    ensures Live(g, y) == Live(Put(g, e), y)
    ensures Waits(g, y, e.target) == Waits(Put(g, e), y, e.target)
    ensures OtherCause(g, b, y, e.target) == OtherCause(Put(g, e), b, y, e.target)
    ensures forall gate :: GateHolds(g, e.target, gate) == GateHolds(Put(g, e), e.target, gate)
  {
    var h := Put(g, e);
    forall s, t ensures Joined(g, s, t) == Joined(h, s, t)
                ensures Joined(g, s, t) ==> g.edges[(s, t)].kind == h.edges[(s, t)].kind
                ensures Joined(g, s, t) && t != e.target ==> g.edges[(s, t)] == h.edges[(s, t)]
    { }
    forall c, p ensures ChildOf(g, c, p) == ChildOf(h, c, p) { }
    forall s, gate ensures GateHolds(g, s, gate) == GateHolds(h, s, gate) { }
    forall u ensures Gates(g, y, u) == Gates(h, y, u) { }
    forall s | s != e.target ensures WaitHolds(g, y, s) == WaitHolds(h, y, s) { }
  }

  /** Re-adding a stored pair keeps the column equal to the recompute exactly when the
      gate it rewrites decides nothing on its own. */
  lemma {:induction false} ReAddExact(st: State, e: EdgeReq)
    requires Sound(st) && Fresh(st) && Placed(st.g, e) && (e.source, e.target) in st.g.edges
    ensures EdgeFlags(st.g, e, st.blocked) == Recompute(Put(st.g, e)) <==> ReAddSafe(st.g, st.blocked, e)
  {
    var g, b, h := st.g, st.blocked, Put(st.g, e);
    HierarchyWithinScheduling(g);
    OneSolution(g, b);
    assert WellFormed(h);
    assert Hierarchy(h) == Hierarchy(g) by {
      forall p ensures p in Hierarchy(h) <==> p in Hierarchy(g) { assert ChildOf(h, p.0, p.1) == ChildOf(g, p.0, p.1); }
    }
    OneSolution(h, b);
    forall y ensures Wants(h, b, y) == Wants(g, b, y) || (y == e.source && !ReAddSafe(g, b, e)) {
      RePut(g, b, e, y);
      SplitCause(g, b, y, e.target);
      SplitCause(h, b, y, e.target);
    }
    if !ReAddSafe(g, b, e) {
      RePut(g, b, e, e.source);
      SplitCause(g, b, e.source, e.target);
      SplitCause(h, b, e.source, e.target);
    }
  }

  // ---------------------------------------------------------------- a closed row that becomes pinned, or back

  /** The verdict of w's wait on p turns on whether id counts as closed: an any-children
      gate with a live child and no closed child but id. */
  predicate Turns(g: Graph, w: Id, p: Id, id: Id) {
    && Waits(g, w, p) && ChildOf(g, id, p)
    && g.edges[(w, p)].gate.anyChildren && !(g.edges[(w, p)].gate.alsoBlocks && Live(g, p))
    && (exists c :: c in g.rows && ChildOf(g, c, p) && Live(g, c))
    && !(exists c :: c in g.rows && c != id && ChildOf(g, c, p) && Shut(g, c))
  }

  /** w is blocked whatever id's standing. */
  predicate BlockedAnyway(g: Graph, b: set<Id>, w: Id, id: Id) {
    || (exists u :: u in g.rows && Gates(g, w, u) && Live(g, u))
    || (exists s :: s in g.rows && !Turns(g, w, s, id) && WaitHolds(g, w, s))
    || (exists p :: p in g.rows && ChildOf(g, w, p) && p in b)
  }

  /** Some live waiter's verdict turns on id's standing alone. */
  predicate StandingDecides(g: Graph, b: set<Id>, id: Id) {
    exists w :: w in g.rows && Live(g, w) && (exists p :: p in g.rows && Turns(g, w, p, id)) &&
        !BlockedAnyway(g, b, w, id)
  }

  predicate Restanding(a: Status, b: Status) {
    (a == Closed && b == Pinned) || (a == Pinned && b == Closed)
  }

  lemma {:induction false} TurnsDecides(g: Graph, w: Id, s: Id, id: Id)
    requires WellFormed(g) && id in g.rows && !Live(g, id)
    ensures Turns(g, w, s, id) ==> (WaitHolds(g, w, s) <==> !Shut(g, id))
  {
  }

  lemma {:induction false} NotTurning(g: Graph, h: Graph, w: Id, s: Id, id: Id)
    requires WellFormed(g) && WellFormed(h) && g.edges == h.edges && g.rows.Keys == h.rows.Keys && id in g.rows
    requires !Live(g, id) && !Live(h, id) && Shut(g, id) != Shut(h, id)
    requires forall y :: y != id ==> Live(g, y) == Live(h, y) && Shut(g, y) == Shut(h, y)
    ensures Turns(g, w, s, id) == Turns(h, w, s, id)
    ensures !Turns(g, w, s, id) ==> WaitHolds(g, w, s) == WaitHolds(h, w, s)
  {
    SameShape(g, h);
    assert forall c :: ChildOf(g, c, s) == ChildOf(h, c, s);
    assert forall y :: Live(g, y) == Live(h, y);
  }

  lemma {:induction false} StandingSplits(g: Graph, b: set<Id>, w: Id, id: Id)
    requires WellFormed(g) && id in g.rows && !Live(g, id)
    ensures Wants(g, b, w) <==>
            Live(g, w) && (BlockedAnyway(g, b, w, id) ||
                (!Shut(g, id) && exists p :: p in g.rows && Turns(g, w, p, id)))
  {
    forall s ensures Turns(g, w, s, id) ==> (WaitHolds(g, w, s) <==> !Shut(g, id)) { TurnsDecides(g, w, s, id); }
  }

  lemma {:induction false} StandingSame(g: Graph, h: Graph, b: set<Id>, w: Id, id: Id)
    requires WellFormed(g) && WellFormed(h) && g.edges == h.edges && g.rows.Keys == h.rows.Keys && id in g.rows
    requires !Live(g, id) && !Live(h, id) && Shut(g, id) != Shut(h, id)
    requires forall y :: y != id ==> Live(g, y) == Live(h, y) && Shut(g, y) == Shut(h, y)
    ensures BlockedAnyway(g, b, w, id) == BlockedAnyway(h, b, w, id)
    ensures (exists p :: p in g.rows && Turns(g, w, p, id)) == (exists p :: p in h.rows && Turns(h, w, p, id))
  {
    SameShape(g, h);
    forall s ensures Turns(g, w, s, id) == Turns(h, w, s, id)
             ensures !Turns(g, w, s, id) ==> WaitHolds(g, w, s) == WaitHolds(h, w, s)
    { NotTurning(g, h, w, s, id); }
    assert forall u :: Gates(g, w, u) && Live(g, u) <==> Gates(h, w, u) && Live(h, u);
    assert forall p :: ChildOf(g, w, p) == ChildOf(h, w, p);
  }

  /** A waiter's verdict flips exactly when it turns on id alone. */
  lemma {:induction false} StandingFlips(g: Graph, h: Graph, b: set<Id>, w: Id, id: Id)
    requires WellFormed(g) && WellFormed(h) && g.edges == h.edges && g.rows.Keys == h.rows.Keys && id in g.rows
    requires !Live(g, id) && !Live(h, id) && Shut(g, id) != Shut(h, id)
    requires forall y :: y != id ==> Live(g, y) == Live(h, y) && Shut(g, y) == Shut(h, y)
    ensures Wants(g, b, w) != Wants(h, b, w) <==>
            Live(g, w) && (exists p :: p in g.rows && Turns(g, w, p, id)) && !BlockedAnyway(g, b, w, id)
  {
    StandingSame(g, h, b, w, id);
    StandingSplits(g, b, w, id);
    StandingSplits(h, b, w, id);
  }

  /** An update between closed and pinned settles nothing, and that keeps the column
      right exactly when no live waiter's verdict turns on the row's standing. */
  lemma {:induction false} RestandingExact(st: State, id: Id, row: Row)
    requires Sound(st) && Fresh(st) && id in st.g.rows && Restanding(st.g.rows[id].status, row.status)
    ensures Fresh(Unsettled(st, id, row)) <==> !StandingDecides(st.g, st.blocked, id)
  {
    var g, b, h := st.g, st.blocked, SetRow(st.g, id, row);
    assert h.rows.Keys == g.rows.Keys;
    SameShape(g, h);
    HierarchyWithinScheduling(g);
    OneSolution(g, b);
    OneSolution(h, b);
    forall w ensures Wants(g, b, w) != Wants(h, b, w) <==>
                     Live(g, w) && (exists p :: p in g.rows && Turns(g, w, p, id)) && !BlockedAnyway(g, b, w, id)
    {
      StandingFlips(g, h, b, w, id);
    }
  }

  // ---------------------------------------------------------------- removing an edge, deleting rows

  ghost function Dropped(st: State, s: Id, t: Id): State {
    if (s, t) !in st.g.edges then st
    else
      var h := DropEdge(st.g, s, t);
      State(h, Settled(h, Descend(h, EdgeSeeds(h, s, t, st.g.edges[(s, t)].kind)), st.blocked))
  }

  lemma {:induction false} DropFrames(g: Graph, s: Id, t: Id)
    requires WellFormed(g) && (s, t) in g.edges
    ensures var h, k := DropEdge(g, s, t), g.edges[(s, t)].kind;
            WellFormed(h) && Scheduling(h) <= Scheduling(g) && Frames(g, h, Descend(h, EdgeSeeds(h, s, t, k)))
  {
    var h, k := DropEdge(g, s, t), g.edges[(s, t)].kind;
    ReachSetExact(Down(h), EdgeSeeds(h, s, t, k));
    EdgeFrames(g, h, s, t, k, Descend(h, EdgeSeeds(h, s, t, k)));
  }

  lemma {:induction false} DroppedFresh(st: State, s: Id, t: Id)
    requires Tidy(st)
    ensures Tidy(Dropped(st, s, t)) && Scheduling(Dropped(st, s, t).g) <= Scheduling(st.g)
    ensures Fresh(st) ==> Fresh(Dropped(st, s, t))
  {
    if (s, t) in st.g.edges {
      var h := DropEdge(st.g, s, t);
      var a := Descend(h, EdgeSeeds(h, s, t, st.g.edges[(s, t)].kind));
      DropFrames(st.g, s, t);
      LiftedRows(h, a, (st.blocked * h.rows.Keys) - a);
      if Fresh(st) { SettledIsRecompute(st.g, h, a, st.blocked); }
    }
  }

  ghost function Erased(st: State, d: set<Id>): State {
    var h := DropRows(st.g, d);
    State(h, Settled(h, DeletionSet(st.g, d), st.blocked))
  }

  lemma {:induction false} ErasedFresh(st: State, d: set<Id>)
    requires Tidy(st)
    ensures Tidy(Erased(st, d)) && Scheduling(Erased(st, d).g) <= Scheduling(st.g)
    ensures Fresh(st) ==> Fresh(Erased(st, d))
  {
    var h := DropRows(st.g, d);
    var a := DeletionSet(st.g, d);
    DropRowsWellFormed(st.g, d);
    ReachSetExact(DownAround(st.g, d), DeletionSeeds(st.g, d));
    DeletionFrames(st.g, d, a);
    LiftedRows(h, a, (st.blocked * h.rows.Keys) - a);
    if Fresh(st) { SettledIsRecompute(st.g, h, a, st.blocked); }
  }

  // ---------------------------------------------------------------- a list of edges

  ghost function FoldFlags(g: Graph, es: seq<EdgeReq>, b: set<Id>): set<Id>
    decreases |es|
  {
    if es == [] then b else FoldFlags(Put(g, es[0]), es[1..], EdgeFlags(g, es[0], b))
  }

  /** Every edge that is written before a refusal settles. */
  ghost predicate FoldSettles(g: Graph, es: seq<EdgeReq>, skip: bool, b: set<Id>)
    decreases |es|
  {
    es != [] && Insert(g, es[0], skip).Ok? ==>
      EdgeSettles(g, es[0], b) && FoldSettles(Put(g, es[0]), es[1..], skip, EdgeFlags(g, es[0], b))
  }

  /** Every re-add in the list meets its exact condition when its turn comes. */
  ghost predicate SafeReAdds(g: Graph, es: seq<EdgeReq>, b: set<Id>)
    decreases |es|
  {
    es == [] ||
    (((es[0].source, es[0].target) in g.edges ==> ReAddSafe(g, b, es[0])) &&
     SafeReAdds(Put(g, es[0]), es[1..], EdgeFlags(g, es[0], b)))
  }

  lemma {:induction false} EdgeFlagsRows(g: Graph, e: EdgeReq, b: set<Id>)
    requires b <= g.rows.Keys
    ensures EdgeFlags(g, e, b) <= g.rows.Keys
  {
    RoundsWithin(Put(g, e), EdgeSet(Put(g, e), e), b);
  }

  lemma {:induction false} EdgeFlagsFresh(st: State, e: EdgeReq)
    requires Sound(st) && Fresh(st) && Placed(st.g, e) && Acyclic(Hierarchy(Put(st.g, e)))
    requires (e.source, e.target) in st.g.edges ==> ReAddSafe(st.g, st.blocked, e)
    ensures EdgeFlags(st.g, e, st.blocked) == Recompute(Put(st.g, e))
  {
    if (e.source, e.target) in st.g.edges { ReAddExact(st, e); } else { NewEdgeFresh(st.g, e, st.blocked); }
  }

  lemma {:induction false} FoldRows(g: Graph, es: seq<EdgeReq>, b: set<Id>)
    requires b <= g.rows.Keys
    ensures FoldFlags(g, es, b) <= g.rows.Keys
    decreases |es|
  {
    if es != [] {
      EdgeFlagsRows(g, es[0], b);
      FoldRows(Put(g, es[0]), es[1..], EdgeFlags(g, es[0], b));
    }
  }

  /** The first edge of an accepted list leaves the column right. */
  lemma {:induction false} FirstFresh(g: Graph, es: seq<EdgeReq>, skip: bool, b: set<Id>)
    requires es != [] && InsertAll(g, es, skip).Ok? && NoSelf(es) && Tidy(State(g, b)) && Fresh(State(g, b))
    requires (es[0].source, es[0].target) in g.edges ==> ReAddSafe(g, b, es[0])
    requires Acyclic(Scheduling(InsertAll(g, es, skip).value))
    ensures Tidy(State(Put(g, es[0]), EdgeFlags(g, es[0], b))) && Fresh(State(Put(g, es[0]), EdgeFlags(g, es[0], b)))
  {
    assert es[0] in es;
    InsertAllApplies(g, es, skip);
    InsertAllApplies(Put(g, es[0]), es[1..], skip);
    AcyclicShrinks(Scheduling(g), Scheduling(InsertAll(g, es, skip).value));
    AcyclicShrinks(Scheduling(Put(g, es[0])), Scheduling(InsertAll(g, es, skip).value));
    HierarchyWithinScheduling(Put(g, es[0]));
    EdgeFlagsFresh(State(g, b), es[0]);
    PutFrames(g, es[0]);
    EdgeFlagsRows(g, es[0], b);
  }

  lemma {:induction false} FoldFresh(g: Graph, es: seq<EdgeReq>, skip: bool, b: set<Id>)
    requires InsertAll(g, es, skip).Ok? && NoSelf(es) && Tidy(State(g, b)) && Fresh(State(g, b)) && SafeReAdds(g, es, b)
    requires Acyclic(Scheduling(InsertAll(g, es, skip).value))
    ensures FoldFlags(g, es, b) == Recompute(InsertAll(g, es, skip).value)
    decreases |es|
  {
    if es != [] {
      FirstFresh(g, es, skip, b);
      assert forall e :: e in es[1..] ==> e in es;
      FoldFresh(Put(g, es[0]), es[1..], skip, EdgeFlags(g, es[0], b));
    }
  }

  /** A list that leaves no scheduling cycle settles edge by edge. */
  lemma {:induction false} AcyclicFoldSettles(g: Graph, es: seq<EdgeReq>, skip: bool, b: set<Id>)
    requires InsertAll(g, es, skip).Ok? && NoSelf(es) && WellFormed(g)
    requires Acyclic(Scheduling(InsertAll(g, es, skip).value))
    ensures FoldSettles(g, es, skip, b)
    decreases |es|
  {
    if es != [] {
      assert es[0] in es && forall e :: e in es[1..] ==> e in es;
      InsertAllApplies(Put(g, es[0]), es[1..], skip);
      AcyclicShrinks(Scheduling(Put(g, es[0])), Scheduling(InsertAll(g, es, skip).value));
      AcyclicEdgeSettles(g, es[0], b);
      PutFrames(g, es[0]);
      AcyclicFoldSettles(Put(g, es[0]), es[1..], skip, EdgeFlags(g, es[0], b));
    }
  }

  lemma {:induction false} FoldFlagsSplits(g: Graph, es: seq<EdgeReq>, fs: seq<EdgeReq>, skip: bool, b: set<Id>)
    requires InsertAll(g, es, skip).Ok?
    ensures FoldFlags(g, es + fs, b) == FoldFlags(InsertAll(g, es, skip).value, fs, FoldFlags(g, es, b))
    decreases |es|
  {
    if es == [] {
      assert es + fs == fs;
    } else {
      assert (es + fs)[0] == es[0] && (es + fs)[1..] == es[1..] + fs;
      FoldFlagsSplits(Put(g, es[0]), es[1..], fs, skip, EdgeFlags(g, es[0], b));
    }
  }

  /** No listed edge rewrites the gate of a stored wait, nor of one listed before it. */
  ghost predicate GatesKept(g: Graph, es: seq<EdgeReq>) {
    && (forall e :: e in es && e.kind == WaitsFor && (e.source, e.target) in g.edges ==>
         g.edges[(e.source, e.target)].gate == e.gate)
    && (forall e, f :: e in es && f in es && e.source == f.source && e.target == f.target ==> e.gate == f.gate)
  }

  lemma {:induction false} GatesKeptIsSafe(g: Graph, es: seq<EdgeReq>, b: set<Id>)
    requires Wellposed(g, es) && GatesKept(g, es)
    ensures SafeReAdds(g, es, b)
    decreases |es|
  {
    if es != [] {
      var e, rest := es[0], es[1..];
      assert es == [e] + rest && e in es;
      assert (e.source, e.target) in g.edges && e.kind == WaitsFor ==> g.edges[(e.source, e.target)].gate == e.gate;
      GatesKeptIsSafe(Put(g, e), rest, EdgeFlags(g, e, b));
    }
  }
}
