/** What every verb keeps, and what every run of verbs therefore keeps. */
module Runs {

  import opened Digraph
  import opened IssueGraph
  import opened Affected
  import opened Edits
  import opened Flags
  import opened Settlement
  import opened Results
  import opened Verbs

  // ---------------------------------------------------------------- row verbs

  lemma {:induction false} RowKeepsScheduling(g: Graph, id: Id, row: Row)
    ensures Scheduling(SetRow(g, id, row)) == Scheduling(g)
  {
  }

  lemma {:induction false} CloseKeeps(st: State, r: CloseReq, at: Stamp)
    requires Tidy(st) && Close(st, r, at).Ok?
    ensures Tidy(Close(st, r, at).value) && Scheduling(Close(st, r, at).value.g) == Scheduling(st.g)
    ensures Sound(st) && Fresh(st) ==> Fresh(Close(st, r, at).value)
  {
    HierarchyWithinScheduling(st.g);
    RewrittenFresh(st, r.id, Stamped(st.g.rows[r.id], at).(status := Closed));
  }

  lemma {:induction false} ReopenKeeps(cfg: Config, st: State, id: Id, actor: string, expected: Option<int>, at: Stamp)
    requires Tidy(st) && Reopen(cfg, st, id, actor, expected, at).Ok?
    ensures Tidy(Reopen(cfg, st, id, actor, expected, at).value)
    ensures Scheduling(Reopen(cfg, st, id, actor, expected, at).value.g) == Scheduling(st.g)
    ensures Sound(st) && Fresh(st) ==> Fresh(Reopen(cfg, st, id, actor, expected, at).value)
  {
    HierarchyWithinScheduling(st.g);
    RewrittenFresh(st, id, Stamped(st.g.rows[id], at).(status := Open));
  }

  /** The update moves a row between closed and pinned while a live waiter turns on it. */
  ghost predicate Disturbs(st: State, r: UpdateReq) {
    && r.id in st.g.rows
    && Restanding(st.g.rows[r.id].status, Patched(st.g.rows[r.id], r.patch).status)
    && StandingDecides(st.g, st.blocked, r.id)
  }

  lemma {:induction false} UpdateKeepsTidy(cfg: Config, st: State, r: UpdateReq, at: Stamp)
    requires Tidy(st) && Update(cfg, st, r, at).Ok?
    ensures Tidy(Update(cfg, st, r, at).value) && Scheduling(Update(cfg, st, r, at).value.g) == Scheduling(st.g)
  {
    var row := st.g.rows[r.id];
    var next := Patched(row, r.patch);
    RewrittenFresh(st, r.id, Stamped(next, at));
    assert Unsettled(st, r.id, Stamped(next, at)).g.rows.Keys == st.g.rows.Keys;
  }

  /** An accepted update leaves the column right, unless it is of the one disturbing kind. */
  lemma {:induction false} UpdateKeeps(cfg: Config, st: State, r: UpdateReq, at: Stamp)
    requires Sound(st) && Fresh(st) && Update(cfg, st, r, at).Ok?
    ensures Fresh(Update(cfg, st, r, at).value) <==> !Disturbs(st, r)
  {
    var row := st.g.rows[r.id];
    var next := Patched(row, r.patch);
    HierarchyWithinScheduling(st.g);
    if IsLive(row.status) != IsLive(next.status) {
      RewrittenFresh(st, r.id, Stamped(next, at));
    } else if Restanding(row.status, next.status) {
      RestandingExact(st, r.id, Stamped(next, at));
    } else {
      UnsettledFresh(st, r.id, Stamped(next, at));
    }
  }

  lemma {:induction false} ClaimKeeps(cfg: Config, st: State, id: Id, actor: string, at: Stamp)
    requires Tidy(st) && Claim(cfg, st, id, actor, at).Ok?
    ensures Tidy(Claim(cfg, st, id, actor, at).value) &&
            Scheduling(Claim(cfg, st, id, actor, at).value.g) == Scheduling(st.g)
    ensures Fresh(st) ==> Fresh(Claim(cfg, st, id, actor, at).value)
  {
    var row := Stamped(st.g.rows[id], at).(assignee := actor, status := InProgress);
    if Claim(cfg, st, id, actor, at).value != st { UnsettledFresh(st, id, row); }
  }

  lemma {:induction false} ReleaseKeeps(st: State, id: Id, actor: string, expected: Option<string>, force: bool,
                                        at: Stamp)
    requires Tidy(st) && Release(st, id, actor, expected, force, at).Ok?
    ensures Tidy(Release(st, id, actor, expected, force, at).value)
    ensures Scheduling(Release(st, id, actor, expected, force, at).value.g) == Scheduling(st.g)
    ensures Fresh(st) ==> Fresh(Release(st, id, actor, expected, force, at).value)
  {
    UnsettledFresh(st, id, Stamped(st.g.rows[id], at).(assignee := "", status := Open));
  }

  // ---------------------------------------------------------------- edge verbs

  lemma {:induction false} AddDependenciesKeeps(st: State, actor: string, es: seq<EdgeReq>, skip: bool)
    requires Sound(st) && AddDependencies(st, actor, es, skip).Ok?
    ensures Sound(AddDependencies(st, actor, es, skip).value)
    ensures Fresh(st) && SafeReAdds(st.g, ParentChildFirst(es), st.blocked) ==>
            Fresh(AddDependencies(st, actor, es, skip).value)
  {
    var fs := ParentChildFirst(es);
    AcceptedGraphIsSafe(st.g, es, skip);
    FoldRows(st.g, fs, st.blocked);
    InsertAllApplies(st.g, fs, skip);
    if Fresh(st) && SafeReAdds(st.g, fs, st.blocked) { FoldFresh(st.g, fs, skip, st.blocked); }
  }

  lemma {:induction false} OneEdge(g: Graph, e: EdgeReq, b: set<Id>, skip: bool)
    ensures ParentChildFirst([e]) == [e]
    ensures InsertAll(g, [e], skip) == Insert(g, e, skip)
    ensures FoldFlags(g, [e], b) == EdgeFlags(g, e, b)
    ensures SafeReAdds(g, [e], b) <==> ((e.source, e.target) in g.edges ==> ReAddSafe(g, b, e))
  {
    assert [e][1..] == [];
    assert Only([e][1..], true) == [] && Only([e][1..], false) == [];
    match Insert(g, e, skip) { case Refused(_) => case Ok(h) => assert InsertAll(h, [], skip) == Ok(h); }
  }

  /** Of a single edge the condition is exact. */
  lemma {:induction false} AddOneExact(st: State, actor: string, e: EdgeReq, skip: bool)
    requires Sound(st) && Fresh(st) && AddDependencies(st, actor, [e], skip).Ok?
    ensures Fresh(AddDependencies(st, actor, [e], skip).value) <==>
            ((e.source, e.target) in st.g.edges ==> ReAddSafe(st.g, st.blocked, e))
  {
    OneEdge(st.g, e, st.blocked, skip);
    AddDependenciesKeeps(st, actor, [e], skip);
    assert e in [e];
    if (e.source, e.target) in st.g.edges { ReAddExact(st, e); }
  }

  lemma {:induction false} RemoveDependencyKeeps(st: State, actor: string, s: Id, t: Id)
    requires Sound(st) && RemoveDependency(st, actor, s, t).Ok?
    ensures Sound(RemoveDependency(st, actor, s, t).value)
    ensures Fresh(st) ==> Fresh(RemoveDependency(st, actor, s, t).value)
  {
    DroppedFresh(st, s, t);
    AcyclicShrinks(Scheduling(Dropped(st, s, t).g), Scheduling(st.g));
  }

  lemma {:induction false} RestampedKeeps(st: State, border: set<Id>, cited: map<Id, Stamp>)
    requires Tidy(st)
    ensures var out := Restamped(st, border, cited);
            Tidy(out) && Scheduling(out.g) == Scheduling(st.g) && (Fresh(st) ==> Fresh(out))
  {
    var out := Restamped(st, border, cited);
    assert out.g.rows.Keys == st.g.rows.Keys;
    SameStatuses(st.g, out.g);
    if Fresh(st) { NothingAffected(st.g, out.g, st.blocked); }
  }

  lemma {:induction false} DeleteKeeps(st: State, r: DeleteReq, cited: map<Id, Stamp>)
    requires Sound(st) && Delete(st, r, cited).Ok?
    ensures Sound(Delete(st, r, cited).value)
    ensures Fresh(st) ==> Fresh(Delete(st, r, cited).value)
  {
    var d := Doomed(st.g, r);
    ErasedFresh(st, d);
    RestampedKeeps(Erased(st, d), Bordering(st.g, d), cited);
    AcyclicShrinks(Scheduling(Delete(st, r, cited).value.g), Scheduling(st.g));
  }

  // ---------------------------------------------------------------- create

  /** h keeps every edge of g and adds only placed ones. */
  ghost predicate Extends(g: Graph, h: Graph) {
    h.rows == g.rows && forall pair :: pair in g.edges ==> pair in h.edges && h.edges[pair] == g.edges[pair]
  }

  lemma {:induction false} CreateEdgesExtends(g: Graph, es: seq<EdgeReq>)
    requires CreateEdges(g, es).Ok?
    ensures Extends(g, CreateEdges(g, es).value)
    decreases |es|
  {
    if es != [] { CreateEdgesExtends(CreateEdge(g, es[0]).value, es[1..]); }
  }

  lemma {:induction false} CreateEdgesSplits(g: Graph, es: seq<EdgeReq>, fs: seq<EdgeReq>)
    ensures CreateEdges(g, es + fs) ==
            match CreateEdges(g, es) { case Refused(why) => Refused(why) case Ok(h) => CreateEdges(h, fs) }
    decreases |es|
  {
    if es == [] {
      assert es + fs == fs;
    } else {
      assert (es + fs)[0] == es[0] && (es + fs)[1..] == es[1..] + fs;
      match CreateEdge(g, es[0]) {
        case Refused(_) =>
        case Ok(h) => CreateEdgesSplits(h, es[1..], fs);
      }
    }
  }

  lemma {:induction false} CreateEdgesStep(g: Graph, fs: seq<EdgeReq>, i: nat, h: Graph)
    requires i < |fs| && CreateEdges(g, fs[..i]) == Ok(h)
    ensures CreateEdges(g, fs[..i + 1]) == CreateEdge(h, fs[i])
    ensures CreateEdge(h, fs[i]).Refused? ==> CreateEdges(g, fs) == CreateEdge(h, fs[i])
  {
    var e := fs[i];
    assert fs[..i + 1] == fs[..i] + [e] && fs == fs[..i + 1] + fs[i + 1..];
    CreateEdgesSplits(g, fs[..i], [e]);
    CreateEdgesSplits(g, fs[..i + 1], fs[i + 1..]);
    assert [e][1..] == [];
    match CreateEdge(h, e) { case Refused(_) => case Ok(m) => assert CreateEdges(m, []) == Ok(m); }
  }

  lemma {:induction false} FramesTrans(g: Graph, m: Graph, h: Graph, a: set<Id>)
    requires Frames(g, m, a) && Frames(m, h, a)
    ensures Frames(g, h, a)
  {
  }

  lemma {:induction false} FramesSelf(g: Graph, a: set<Id>)
    requires Covered(Down(g), a, a)
    ensures Frames(g, g, a)
  {
    ClosedDown(g, a);
  }

  lemma {:induction false} ExtendsDown(g: Graph, h: Graph, a: set<Id>)
    requires Extends(g, h) && Covered(Down(h), a, a)
    ensures Covered(Down(g), a, a)
    ensures forall s, t :: Joined(g, s, t) ==> Joined(h, s, t) && h.edges[(s, t)] == g.edges[(s, t)]
  {
    forall u, v | (u, v) in Down(g) && u in a ensures v in a {
      assert ChildOf(g, (v, u).0, (v, u).1);
      assert ChildOf(h, (v, u).0, (v, u).1);
      assert (u, v) in Down(h);
    }
  }

  /** One new edge, framed by what the finished graph says it affects. */
  lemma {:induction false} NewEdgeFrames(g: Graph, e: EdgeReq, h: Graph, a: set<Id>)
    requires WellFormed(g) && Placed(g, e) && (e.source, e.target) !in g.edges
    requires Extends(Put(g, e), h) && NewSeeds(g, h) <= a && Covered(Down(h), a, a)
    ensures WellFormed(Put(g, e)) && Frames(g, Put(g, e), a)
  {
    var m := Put(g, e);
    var pair := (e.source, e.target);
    ExtendsDown(m, h, a);
    assert h.edges[pair] == m.edges[pair] == Edge(e.kind, e.gate);
    forall x | x in EdgeSeeds(m, e.source, e.target, e.kind) ensures x in a {
      assert x in EdgeSeeds(h, pair.0, pair.1, h.edges[pair].kind);
      assert x in NewSeeds(g, h);
    }
    EdgeFrames(g, m, e.source, e.target, e.kind, a);
  }

  lemma {:induction false} CreateEdgesFrames(g: Graph, es: seq<EdgeReq>, a: set<Id>)
    requires WellFormed(g) && CreateEdges(g, es).Ok?
    requires NewSeeds(g, CreateEdges(g, es).value) <= a && Covered(Down(CreateEdges(g, es).value), a, a)
    ensures WellFormed(CreateEdges(g, es).value) && Frames(g, CreateEdges(g, es).value, a)
    ensures Acyclic(Scheduling(g)) ==> Acyclic(Scheduling(CreateEdges(g, es).value))
    decreases |es|
  {
    if es == [] {
      FramesSelf(g, a);
    } else {
      var e, h := es[0], CreateEdges(g, es).value;
      var m := CreateEdge(g, e).value;
      CreateEdgesExtends(m, es[1..]);
      if m != g {
        NewEdgeFrames(g, e, h, a);
        NewSeedsShrink(g, m, h);
        StepAcyclic(g, e);
        CreateEdgesFrames(m, es[1..], a);
        FramesTrans(g, m, h, a);
      } else {
        CreateEdgesFrames(g, es[1..], a);
      }
    }
  }

  lemma {:induction false} NewSeedsShrink(g: Graph, m: Graph, h: Graph)
    requires Extends(g, m)
    ensures NewSeeds(m, h) <= NewSeeds(g, h)
  {
  }

  lemma {:induction false} StepAcyclic(g: Graph, e: EdgeReq)
    requires (e.source, e.target) !in g.edges && !CycleConflict(g, e)
    ensures Acyclic(Scheduling(g)) ==> Acyclic(Scheduling(Put(g, e)))
  {
    PutGrows(g, e);
    if Acyclic(Scheduling(g)) && IsScheduling(e.kind) { ProbeDecides(Scheduling(g), e.source, e.target); }
  }

  lemma {:induction false} CreateKeeps(cfg: Config, st: State, r: CreateReq)
    requires Tidy(st) && Create(cfg, st, r).Ok?
    ensures Tidy(Create(cfg, st, r).value)
    ensures Acyclic(Scheduling(st.g)) ==> Acyclic(Scheduling(Create(cfg, st, r).value.g))
    ensures Sound(st) && Fresh(st) ==> Fresh(Create(cfg, st, r).value)
  {
    var g := SetRow(st.g, r.id, r.row);
    var h := CreateEdges(g, ParentChildFirst(r.edges)).value;
    var a := {r.id} + Descend(h, NewSeeds(g, h));
    CreateFrames(st.g, r.id, r.row);
    CreateCovers(st.g, r, h);
    CreateEdgesFrames(g, ParentChildFirst(r.edges), a);
    FirstFrames(st.g, g, r.id, a);
    FramesTrans(st.g, g, h, a);
    RoundsWithin(h, a, st.blocked);
    RowKeepsScheduling(st.g, r.id, r.row);
    if Sound(st) && Fresh(st) {
      HierarchyWithinScheduling(h);
      RoundsFresh(st.g, h, a, st.blocked);
    }
  }

  lemma {:induction false} FirstFrames(g: Graph, h: Graph, id: Id, a: set<Id>)
    requires Frames(g, h, {id}) && id in a && Covered(Down(h), a, a)
    ensures Frames(g, h, a)
  {
    ClosedDown(h, a);
  }

  lemma {:induction false} NewChild(g: Graph, m: Graph, h: Graph, c: Id, p: Id)
    requires WellFormed(g) && m.edges == g.edges && p !in g.rows && ChildOf(h, c, p)
    ensures c in NewSeeds(m, h)
  {
    assert (c, p) !in g.edges;
    assert c in EdgeSeeds(h, (c, p).0, (c, p).1, h.edges[(c, p)].kind);
  }

  /** The new row has no children but those its own create gave it. */
  lemma {:induction false} CreateDown(g: Graph, m: Graph, h: Graph, id: Id)
    requires WellFormed(g) && m.edges == g.edges && id !in g.rows
    ensures var a := {id} + Descend(h, NewSeeds(m, h));
            NewSeeds(m, h) <= a && Covered(Down(h), a, a)
  {
    var reach := Descend(h, NewSeeds(m, h));
    ReachSetExact(Down(h), NewSeeds(m, h));
    forall u, v | (u, v) in Down(h) && u in {id} + reach ensures v in {id} + reach {
      assert ChildOf(h, v, u);
      if u == id { NewChild(g, m, h, v, u); }
    }
  }

  lemma {:induction false} CreateCovers(g: Graph, r: CreateReq, h: Graph)
    requires WellFormed(g) && r.id !in g.rows
    requires CreateEdges(SetRow(g, r.id, r.row), ParentChildFirst(r.edges)) == Ok(h)
    ensures var m := SetRow(g, r.id, r.row);
            var a := {r.id} + Descend(h, NewSeeds(m, h));
            NewSeeds(m, h) <= a && Covered(Down(h), a, a) && Covered(Down(m), a, a)
  {
    var m := SetRow(g, r.id, r.row);
    CreateDown(g, m, h, r.id);
    CreateEdgesExtends(m, ParentChildFirst(r.edges));
    ExtendsDown(m, h, {r.id} + Descend(h, NewSeeds(m, h)));
  }
}
