/** Concrete inputs on which a documented promise fails, one for each exact condition
    proved elsewhere. */
module Witnesses {

  import opened Digraph
  import opened IssueGraph
  import opened Affected
  import opened Edits
  import opened Flags
  import opened Results
  import opened Verbs
  import opened Runs
  import opened Settlement
  import opened Histories
  import opened Endings
  import opened Rings
  import opened BatchPlan
  import opened Batch
  import opened Journal

  function Plain(status: Status): Row {
    Row(Issues, "", status, "", 0, 0, map[])
  }

  lemma {:induction false} Prefixes()
    ensures !IsExternal("b-1", "b-2") && !IsExternal("b-3", "b-2") && !IsExternal("b-4", "b-2")
    ensures !IsExternal("b-1", "b-4") && !IsExternal("b-2", "b-3") && !IsExternal("b-3", "b-1") &&
            IsExternal("c-1", "b-2")
  {
    assert forall s :: s in ["b-1", "b-2", "b-3", "b-4"] ==> ExtractPrefix(s) == "b-" by {
      assert "-1"[0] == '-' && "b-1"[1..] == "-1" && "b-2"[1..] == "-2" && "b-3"[1..] == "-3" && "b-4"[1..] == "-4";
      assert ExtractPrefix("-1") == "-" && ExtractPrefix("-2") == "-" && ExtractPrefix("-3") == "-" &&
             ExtractPrefix("-4") == "-";
    }
    assert "c-1"[1..] == "-1" && ExtractPrefix("-1") == "-";
    assert ExtractPrefix("c-1") == "c-" && ExtractPrefix("b-2") == "b-";
  }

  /** No edge starts where another ends. */
  lemma {:induction false} Stubby(r: Rel)
    requires forall e, f :: e in r && f in r ==> e.1 != f.0
    ensures Acyclic(r)
  {
    forall u, n: nat | n > 0 ensures !Walk(r, u, u, n) {
      forall v | (u, v) in r ensures !Walk(r, v, u, n - 1) {
        assert (u, v).1 != (u, v).0;
        forall w ensures (v, w) !in r { assert (u, v).1 == (v, w).0; }
      }
    }
  }

  /** b-1 waits for any child of b-2; b-3 is open and b-4 is settled by the given status. */
  function Fanout(settled: Status): Graph {
    Graph(map["b-1" := Plain(Open), "b-2" := Plain(Open), "b-3" := Plain(Open), "b-4" := Plain(settled)],
          map[("b-1", "b-2") := Edge(WaitsFor, Gate(true, false)),
              ("b-3", "b-2") := Edge(ParentChild, ALL_CHILDREN), ("b-4", "b-2") := Edge(ParentChild, ALL_CHILDREN)])
  }

  lemma {:induction false} FanoutSound(settled: Status)
    ensures WellFormed(Fanout(settled)) && Acyclic(Scheduling(Fanout(settled)))
  {
    Prefixes();
    Stubby(Scheduling(Fanout(settled)));
  }

  ghost function SettledState(g: Graph): State {
    State(g, Recompute(g))
  }

  lemma {:induction false} SettledStateSound(g: Graph)
    requires WellFormed(g) && Acyclic(Scheduling(g))
    ensures Sound(SettledState(g)) && Fresh(SettledState(g))
  {
  }

  lemma {:induction false} FanoutChildren(g: Graph)
    requires g == Fanout(Closed)
    ensures ChildOf(g, "b-3", "b-2") && ChildOf(g, "b-4", "b-2") && Live(g, "b-3") && Shut(g, "b-4") && !Live(g, "b-4")
    ensures forall c :: ChildOf(g, c, "b-2") ==> c == "b-3" || c == "b-4"
    ensures Waits(g, "b-1", "b-2") && Live(g, "b-1") && Live(g, "b-2")
    ensures forall t :: Joined(g, "b-1", t) ==> t == "b-2"
  {
    Prefixes();
    assert forall e :: e in g.edges ==> e == ("b-1", "b-2") || e == ("b-3", "b-2") || e == ("b-4", "b-2");
  }

  /** b-1 has nothing but its wait on b-2. */
  lemma {:induction false} OnlyTheWait(g: Graph, b: set<Id>)
    requires g == Fanout(Closed)
    ensures !OtherCause(g, b, "b-1", "b-2") && !BlockedAnyway(g, b, "b-1", "b-4")
    ensures GateHolds(g, "b-2", ALL_CHILDREN) && !GateHolds(g, "b-2", Gate(true, false))
  {
    FanoutChildren(g);
    assert !WaitHolds(g, "b-1", "b-2");
  }

  /** Re-adding the wait without its gate makes b-1 wait for all children; the column is
      left saying it does not wait. */
  lemma {:induction false} ReAddGoesStale(st: State, e: EdgeReq)
    requires st == SettledState(Fanout(Closed)) && e == EdgeReq("b-1", "b-2", WaitsFor, ALL_CHILDREN)
    ensures Sound(st) && Fresh(st) && AddDependencies(st, "a", [e], false).Ok?
    ensures !Fresh(AddDependencies(st, "a", [e], false).value)
  {
    FanoutSound(Closed);
    SettledStateSound(st.g);
    UnsafeReAdd(st.g, st.blocked, e);
    AddDependenciesOne(st, e);
    AddOneExact(st, "a", e, false);
  }

  lemma {:induction false} UnsafeReAdd(g: Graph, b: set<Id>, e: EdgeReq)
    requires g == Fanout(Closed) && e == EdgeReq("b-1", "b-2", WaitsFor, ALL_CHILDREN)
    ensures Insert(g, e, false).Ok? && (e.source, e.target) in g.edges && !ReAddSafe(g, b, e)
  {
    FanoutChildren(g);
    OnlyTheWait(g, b);
    DecidingReAdd(g, b, e);
  }

  lemma {:induction false} DecidingReAdd(g: Graph, b: set<Id>, e: EdgeReq)
    requires Waits(g, e.source, e.target) && Live(g, e.source) && !OtherCause(g, b, e.source, e.target) &&
             e.kind == WaitsFor
    requires GateHolds(g, e.target, e.gate) != GateHolds(g, e.target, g.edges[(e.source, e.target)].gate)
    ensures !ReAddSafe(g, b, e) && (e.source in g.rows && e.source != e.target ==> Insert(g, e, false).Ok?)
  {
  }

  lemma {:induction false} LoneWaitSettles(g: Graph, e: EdgeReq, b: set<Id>)
    requires e.kind != ParentChild
    ensures FoldSettles(g, [e], false, b)
  {
    assert [e][1..] == [];
    assert FoldSettles(Put(g, e), [], false, EdgeFlags(g, e, b));
  }

  lemma {:induction false} AddDependenciesOne(st: State, e: EdgeReq)
    requires Insert(st.g, e, false).Ok? && e.kind == WaitsFor && e.source != "" && e.target != ""
    ensures AddDependencies(st, "a", [e], false).Ok?
  {
    OneEdge(st.g, e, st.blocked, false);
    LoneWaitSettles(st.g, e, st.blocked);
    assert e in [e];
    assert !FinalCycle(Put(st.g, e), [e]);
  }

  lemma {:induction false} RepinDecides(g: Graph, b: set<Id>)
    requires g == Fanout(Closed)
    ensures StandingDecides(g, b, "b-4")
  {
    FanoutChildren(g);
    OnlyTheWait(g, b);
    assert Turns(g, "b-1", "b-2", "b-4");
    assert "b-1" in g.rows && "b-2" in g.rows;
  }

  function Repin(id: Id): UpdateReq {
    UpdateReq(id, "a", Patch(None, Some(Pinned), None, map[], {}), None, None, None, false, false)
  }

  lemma {:induction false} RepinAccepted(cfg: Config, st: State, id: Id, at: Stamp)
    requires id in st.g.rows && id != "" && st.g.rows[id].status == Closed
    ensures Update(cfg, st, Repin(id), at).Ok? && Patched(st.g.rows[id], Repin(id).patch).status == Pinned
  {
  }

  /** Pinning the closed child reopens the gate; the column is left saying it is satisfied. */
  lemma {:induction false} RepinGoesStale(st: State, cfg: Config, at: Stamp)
    requires st == SettledState(Fanout(Closed))
    ensures Sound(st) && Fresh(st) && Update(cfg, st, Repin("b-4"), at).Ok? &&
            !Fresh(Update(cfg, st, Repin("b-4"), at).value)
  {
    FanoutSound(Closed);
    SettledStateSound(st.g);
    RepinDecides(st.g, st.blocked);
    RepinAccepted(cfg, st, "b-4", at);
    Restale(cfg, st, "b-4", at);
  }

  lemma {:induction false} Restale(cfg: Config, st: State, id: Id, at: Stamp)
    requires Sound(st) && Fresh(st) && id in st.g.rows && id != "" && st.g.rows[id].status == Closed
    requires StandingDecides(st.g, st.blocked, id)
    ensures Update(cfg, st, Repin(id), at).Ok? && !Fresh(Update(cfg, st, Repin(id), at).value)
  {
    RepinAccepted(cfg, st, id, at);
    UpdateKeeps(cfg, st, Repin(id), at);
  }

  function CrossPrefix(): Graph {
    Graph(map["b-2" := Plain(Open), "c-1" := Plain(Open)], map[("c-1", "b-2") := Edge(Blocks, ALL_CHILDREN)])
  }

  lemma {:induction false} CrossPrefixSound(g: Graph)
    requires g == CrossPrefix()
    ensures WellFormed(g) && Acyclic(Scheduling(g)) && IsExternal("c-1", "b-2")
  {
    Prefixes();
    Stubby(Scheduling(g));
  }

  /** A forced delete leaves the edge of a row from another prefix pointing at nothing. */
  lemma {:induction false} ForcedDeleteDangles(st: State, r: DeleteReq, cited: map<Id, Stamp>)
    requires st == SettledState(CrossPrefix()) && r == DeleteReq(["b-2"], false, true, None)
    ensures Sound(st) && Delete(st, r, cited).Ok?
    ensures "b-2" !in Delete(st, r, cited).value.g.rows && ("c-1", "b-2") in Delete(st, r, cited).value.g.edges
  {
    CrossPrefixSound(st.g);
    assert Members(r.ids) == {"b-2"} by { assert r.ids[0] in Members(r.ids); }
    assert Missing(st.g, r.ids) == [] by { assert r.ids[1..] == []; }
  }

  /** A create that opens a batch lands when its id is new. */
  lemma {:induction false} FirstCreateLands(cfg: Config, env: Env, r: BatchReq, st: State)
    requires Supplies(env, r) && r.items != [] && r.items[0].CreateItem? && r.items[0].row.status == Open && Tidy(st)
    requires NewId(env, r.items[0], 0) !in st.g.rows
    ensures ApplyItems(cfg, env, r, st, 1).Ok?
  {
    assert ParentChildFirst([]) == [];
    assert ApplyItems(cfg, env, r, st, 0) == Ok(Start(st));
    BareCreateAnswers(cfg, st, NewId(env, r.items[0], 0), r.items[0].row);
    assert ApplyItem(cfg, env, r, Start(st), 0).Ok?;
  }

  /** A batch that creates a row and then guards on the id the store happened to give it
      passes the plan, though the row was written by this very request. */
  lemma {:induction false} MintedIdPassesThePlan(cfg: Config, env: Env, r: BatchReq, st: State)
    requires r.actor == "a" && !r.skip
    requires r.items == [CreateItem("", "", Plain(Open), map[]), CloseItem(Ref("", "b-1"), Some(0), false)]
    requires Supplies(env, r) && env.minted[0] == "b-1" && "b-1" !in st.g.rows && Sound(st)
    ensures WellPlanned(r.actor, r.items) && Guards(r, 1) && ApplyItems(cfg, env, r, st, 1).Ok?
    ensures WroteRow(r, ApplyItems(cfg, env, r, st, 1).value, 0, r.items[1].target.id)
  {
    assert ItemPlanned(r.items, 0) && ItemPlanned(r.items, 1);
    FirstCreateLands(cfg, env, r, st);
    GuardReadsUntouchedRow(cfg, env, r, st, 1);
    assert Created(r, 0) && r.items[0].id == "";
  }

  /** A batch whose metadata ref is named by a digit passes the plan, applies its item,
      and is refused by the splice. */
  lemma {:induction false} BadKeyPassesThePlan(cfg: Config, env: Env, r: BatchReq, st: State)
    requires r == BatchReq("a", [CreateItem("", "b-1", Plain(Open), map["9" := Ref("", "b-1")])], false)
    requires Supplies(env, r) && NonEmptyIds(env) && "b-1" !in st.g.rows && Sound(st)
    ensures WellPlanned(r.actor, r.items) && ApplyItems(cfg, env, r, st, 1).Ok?
    ensures ApplyBatch(cfg, env, st, r) == Refused(Invalid)
  {
    assert ItemPlanned(r.items, 0);
    FirstCreateLands(cfg, env, r, st);
    assert "9" in r.items[0].refs && !ValidKey("9");
    assert Splices(r, 0) && !ValidRefs(r, 0);
    SplicePasses(cfg, env, st, r);
  }

  // ---------------------------------------------------------------- a call that is never answered

  /** a is a child of b and b of c; a also waits for d itself, or only for its children. */
  function Chain(a: Id, b: Id, c: Id, d: Id, gate: Gate): Graph {
    var child := Edge(ParentChild, ALL_CHILDREN);
    Graph(map[a := Plain(Open), b := Plain(Open), c := Plain(Open), d := Plain(Open)],
          map[(a, b) := child, (b, c) := child, (a, d) := Edge(WaitsFor, gate)])
  }

  predicate Apart(a: Id, b: Id, c: Id, d: Id) {
    && a != b && a != c && a != d && b != c && b != d && c != d && a != "" && c != "" && d != ""
    && !IsExternal(a, b) && !IsExternal(b, c) && !IsExternal(c, a) && !IsExternal(a, d)
  }

  lemma {:induction false} ChainIs(g: Graph, a: Id, b: Id, c: Id, d: Id, gate: Gate)
    requires Apart(a, b, c, d) && g == Chain(a, b, c, d, gate)
    ensures WellFormed(g) && Live(g, a) && Live(g, b) && Live(g, c) && Live(g, d)
    ensures forall x, p :: ChildOf(g, x, p) <==> (x, p) == (a, b) || (x, p) == (b, c)
    ensures forall x, t :: !Gates(g, x, t)
    ensures forall x, t :: Waits(g, x, t) <==> (x, t) == (a, d)
  {
    assert forall e :: e in g.edges ==> e == (a, b) || e == (b, c) || e == (a, d);
  }

  lemma {:induction false} ChainSound(a: Id, b: Id, c: Id, d: Id, gate: Gate)
    requires Apart(a, b, c, d)
    ensures Acyclic(Scheduling(Chain(a, b, c, d, gate)))
  {
    var r := Scheduling(Chain(a, b, c, d, gate));
    assert r == {(a, b), (b, c)};
    forall u, n: nat | n > 0 ensures !Walk(r, u, u, n) { ShortWalks(r, a, b, c, u, n); }
  }

  lemma {:induction false} ShortWalks(r: Rel, a: Id, b: Id, c: Id, u: Id, n: nat)
    requires r == {(a, b), (b, c)} && a != b && b != c && a != c && n > 0
    ensures !Walk(r, u, u, n)
  {
    forall v, m: nat | Walk(r, c, v, m) ensures m == 0 && v == c { }
    forall v, m: nat | Walk(r, b, v, m) ensures v == b || v == c {
      if m > 0 { var w :| (b, w) in r && Walk(r, w, v, m - 1); }
    }
  }

  /** While a waits for d itself, a alone is blocked. */
  lemma {:induction false} ChainBlocked(g: Graph, a: Id, b: Id, c: Id, d: Id)
    requires Apart(a, b, c, d) && g == Chain(a, b, c, d, Gate(false, true))
    ensures Recompute(g) == {a}
  {
    ChainIs(g, a, b, c, d, Gate(false, true));
    assert GateHolds(g, d, g.edges[(a, d)].gate) && WaitHolds(g, a, d) && DirectCause(g, a);
    assert forall x :: x != a ==> !DirectCause(g, x);
    forall x | x in g.rows ensures x in Recompute(g) <==> x == a { LiftedFix(g, g.rows.Keys, {}, x); }
  }

  /** With c a child of a the three are a ring, */
  lemma {:induction false} ChainCloses(g: Graph, a: Id, b: Id, c: Id, d: Id, e: EdgeReq)
    requires Apart(a, b, c, d) && g == Chain(a, b, c, d, ALL_CHILDREN) && e == EdgeReq(c, a, ParentChild, ALL_CHILDREN)
    ensures var h := Put(g, e);
            && (forall x, p :: ChildOf(h, x, p) <==> (x, p) == (a, b) || (x, p) == (b, c) || (x, p) == (c, a))
            && (forall x, t :: !Gates(h, x, t)) && (forall x, t :: Waits(h, x, t) <==> (x, t) == (a, d))
            && h.rows == g.rows && Live(h, a) && Live(h, b) && Live(h, c)
  {
    ChainIs(g, a, b, c, d, ALL_CHILDREN);
    ChildPut(g, e);
    assert ChildOf(Put(g, e), c, a);
  }

  /** that stands alone and, once a waits for d's children only, has no cause. */
  lemma {:induction false} ChainRing(g: Graph, a: Id, b: Id, c: Id, d: Id, e: EdgeReq)
    requires Apart(a, b, c, d) && g == Chain(a, b, c, d, ALL_CHILDREN) && e == EdgeReq(c, a, ParentChild, ALL_CHILDREN)
    ensures var h, r := Put(g, e), [a, b, c];
            IsRing(h, r) && !Caused(h, r) && Alone(h, r, e) && OnePlane(h, r, Issues)
  {
    var h, r := Put(g, e), [a, b, c];
    ChainCloses(g, a, b, c, d, e);
    assert Linked(h, r, 0) && Linked(h, r, 1) && Linked(h, r, 2);
    assert forall x :: !WaitHolds(h, x, d);
  }

  lemma {:induction false} OneFlagIsPatchy(a: Id, b: Id, c: Id)
    requires a != b && b != c && a != c
    ensures Hole([a, b, c], {a}) && !({a} !! RingSet([a, b, c]))
  {
    assert HoleAt([a, b, c], {a}, 1);
    assert [a, b, c][0] in RingSet([a, b, c]);
  }

  /** The re-add leaves a's flag where nothing blocks a any more. */
  lemma {:induction false} ReAddLeavesFlag(st: State, a: Id, b: Id, c: Id, d: Id, e: EdgeReq)
    requires Apart(a, b, c, d) && st == SettledState(Chain(a, b, c, d, Gate(false, true)))
    requires e == EdgeReq(a, d, WaitsFor, ALL_CHILDREN)
    ensures AddDependencies(st, "a", [e], false) == Ok(State(Chain(a, b, c, d, ALL_CHILDREN), {a}))
  {
    ChainBlocked(st.g, a, b, c, d);
    assert Insert(st.g, e, false).Ok? && Put(st.g, e) == Chain(a, b, c, d, ALL_CHILDREN);
    AddDependenciesOne(st, e);
    OneEdge(st.g, e, st.blocked, false);
  }

  lemma {:induction false} RingEdgeHangs(st: State, a: Id, b: Id, c: Id, d: Id, e: EdgeReq)
    requires Apart(a, b, c, d) && st == State(Chain(a, b, c, d, ALL_CHILDREN), {a})
    requires e == EdgeReq(c, a, ParentChild, ALL_CHILDREN)
    ensures AddDependencies(st, "a", [e], true) == Refused(Endless)
  {
    ChainUnsettled(st.g, a, b, c, d, e);
    assert Insert(st.g, e, true).Ok?;
    LoneEdgeHangs(st, e);
  }

  lemma {:induction false} ChainUnsettled(g: Graph, a: Id, b: Id, c: Id, d: Id, e: EdgeReq)
    requires Apart(a, b, c, d) && g == Chain(a, b, c, d, ALL_CHILDREN) && e == EdgeReq(c, a, ParentChild, ALL_CHILDREN)
    ensures !EdgeSettles(g, e, {a})
  {
    ChainRing(g, a, b, c, d, e);
    OneFlagIsPatchy(a, b, c);
    RingEdgeExact(g, e, {a}, [a, b, c], Issues);
  }

  lemma {:induction false} LoneEdgeHangs(st: State, e: EdgeReq)
    requires InShape(e) && Insert(st.g, e, true).Ok? && !EdgeSettles(st.g, e, st.blocked)
    ensures AddDependencies(st, "a", [e], true) == Refused(Endless)
  {
    OneEdge(st.g, e, st.blocked, true);
    assert e in [e];
  }

  /** THE UNANSWERED REQUEST: two requests from a sound and settled store. The first re-adds
      a wait with a weaker gate and leaves its flag behind; the second, with the probe off,
      closes a ring of parents, and its settlement never comes to an end. */
  lemma {:induction false} RingIsNeverAnswered(cfg: Config, st: State, again: EdgeReq, ring: EdgeReq)
    requires st == SettledState(Chain("b-1", "b-2", "b-3", "b-4", Gate(false, true)))
    requires again == EdgeReq("b-1", "b-4", WaitsFor, ALL_CHILDREN)
    requires ring == EdgeReq("b-3", "b-1", ParentChild, ALL_CHILDREN)
    ensures Sound(st) && Fresh(st)
    ensures Hangs(cfg, Run(cfg, st, [DoAddDependencies("a", [again], false)]), DoAddDependencies("a", [ring], true))
  {
    Prefixes();
    ChainIs(st.g, "b-1", "b-2", "b-3", "b-4", Gate(false, true));
    ChainSound("b-1", "b-2", "b-3", "b-4", Gate(false, true));
    SettledStateSound(st.g);
    ReAddLeavesFlag(st, "b-1", "b-2", "b-3", "b-4", again);
    OneStepRun(cfg, st, DoAddDependencies("a", [again], false));
    RingEdgeHangs(AddDependencies(st, "a", [again], false).value, "b-1", "b-2", "b-3", "b-4", ring);
  }

  lemma {:induction false} OneStepRun(cfg: Config, st: State, op: Op)
    ensures Run(cfg, st, [op]) == Histories.Step(cfg, st, op)
  {
    assert [op][1..] == [];
  }

  // ---------------------------------------------------------------- the journal's counter

  /** A counter restored to 3 beside a journal pruned up to 10: the next number is free, so
      nothing raises the counter, and the row lands below a retained one. */
  method StaleCounterMisorders(e: Entry) returns (number: int, after: map<int, Entry>)
    ensures number == 4 && after == map[10 := e, 4 := e] && !CounterServes(Some(3), map[10 := e])
  {
    number, after := InsertEventRow(Some(3), map[10 := e], e);
    assert 10 in map[10 := e];
  }
}
