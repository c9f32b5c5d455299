/** The store: rows, edges and the is_blocked column, changed in place by the verbs. */
module Store {

  import opened Digraph
  import opened IssueGraph
  import opened Affected
  import opened Edits
  import opened Flags
  import opened Settlement
  import opened Results
  import opened Verbs
  import opened Runs
  import opened Identity
  import opened Histories

  /** The call did what the specification says, and a refusal changed nothing. */
  ghost predicate Did(before: State, spec: Outcome<State>, refusal: Option<Refusal>, after: State) {
    match spec
    case Ok(st) => refusal == None && after == st
    case Refused(why) => refusal == Some(why) && after == before
  }

  class IssueStore {
    var rows: map<Id, Row>
    var edges: map<(Id, Id), Edge>
    var blocked: set<Id>

    function G(): Graph
      reads this
    {
      Graph(rows, edges)
    }

    function View(): State
      reads this
    {
      State(Graph(rows, edges), blocked)
    }

    /** What the schema enforces between any two statements. That the scheduling graph of a
        committed store is acyclic is a matter of the verbs' gates. */
    ghost predicate Valid()
      reads this
    {
      Tidy(View())
    }

    constructor ()
      ensures Valid() && View() == State(Graph(map[], map[]), {})
    {
      rows, edges, blocked := map[], map[], {};
    }

    // -------------------------------------------------------------- settlement

    /** Recompute the flags of the given batches to a fixpoint: each round marks and then
        unmarks batch by batch, and rounds repeat until one changes nothing. A column seen
        before means that none ever will; only there the loop remembers, and gives up where
        the program would go on for ever. */
    method Settle(batches: seq<set<Id>>) returns (ended: bool)
      requires Valid()
      modifies this`blocked
      ensures Valid() && (ended <==> Ends(G(), old(blocked), batches))
      ensures ended ==> exists n: nat :: QuietAfter(G(), old(blocked), batches, n) &&
                                         blocked == Sweeps(G(), old(blocked), batches, n)
      ensures Acyclic(Hierarchy(G())) ==> ended && blocked == Settled(G(), Union(batches), old(blocked))
    {
      ghost var g, b := G(), blocked;
      ghost var n: nat := 0;
      var seen: set<set<Id>> := {};
      ended := false;
      while !ended && blocked !in seen
        invariant G() == g && blocked == Sweeps(g, b, batches, n) && blocked <= rows.Keys
        invariant Tried(g, b, batches, n, seen) && (ended ==> QuietAfter(g, b, batches, n))
        decreases !ended, Columns(rows.Keys) - seen
      {
        var before := blocked;
        SweepWithin(g, before, batches);
        var changed := Round(batches);
        RoundTried(g, b, batches, n, seen, changed);
        if changed {
          seen, n := seen + {before}, n + 1;
        } else {
          ended := true;
        }
      }
      Answered(g, b, batches, n, seen, ended);
    }

    /** One round over the batches, in order; changed says whether any statement wrote. */
    method Round(batches: seq<set<Id>>) returns (changed: bool)
      modifies this`blocked
      ensures blocked == Sweep(G(), old(blocked), batches) && changed == Stirs(G(), old(blocked), batches)
    {
      ghost var b0 := blocked;
      changed := false;
      var i := 0;
      assert batches[0..] == batches;
      while i < |batches|
        invariant 0 <= i <= |batches| && G() == old(G())
        invariant Sweep(G(), blocked, batches[i..]) == Sweep(G(), b0, batches)
        invariant (changed || Stirs(G(), blocked, batches[i..])) == Stirs(G(), b0, batches)
      {
        assert batches[i..][1..] == batches[i + 1..];
        var marked := MarkStep(G(), blocked, batches[i]);
        var kept := UnmarkStep(G(), marked, batches[i]);
        changed := changed || marked != blocked || kept != marked;
        blocked := kept;
        i := i + 1;
      }
    }

    /** Mark only: flags are set and never cleared. */
    method Mark(batches: seq<set<Id>>)
      requires Tidy(View())
      modifies this`blocked
      ensures Tidy(View()) && blocked == Marked(G(), Union(batches), old(blocked))
    {
      ghost var g, a, seed := G(), Union(batches), blocked;
      ghost var t := Marked(g, a, seed);
      SeedMarked(g, a, seed);
      var changed := true;
      while changed
        invariant G() == g && seed <= blocked <= t
        invariant !changed ==> blocked == t
        decreases changed, t - blocked
      {
        changed := MarkRound(batches, seed);
        if !changed { StillIsMarked(g, a, seed, blocked); }
      }
    }

    method MarkRound(batches: seq<set<Id>>, ghost seed: set<Id>) returns (changed: bool)
      requires blocked <= Marked(G(), Union(batches), seed)
      modifies this`blocked
      ensures old(blocked) <= blocked <= Marked(G(), Union(batches), seed)
      ensures changed ==> old(blocked) < blocked
      ensures !changed ==> blocked == old(blocked)
      ensures !changed ==> forall x :: x in rows && x in Union(batches) && Wants(G(), blocked, x) ==> x in blocked
    {
      ghost var g, a := G(), Union(batches);
      changed := false;
      var i := 0;
      while i < |batches|
        invariant 0 <= i <= |batches| && G() == g
        invariant old(blocked) <= blocked <= Marked(g, a, seed)
        invariant changed ==> old(blocked) < blocked
        invariant !changed ==> blocked == old(blocked)
        invariant !changed ==> forall x :: x in rows && x in Union(batches[..i]) && Wants(g, blocked, x) ==>
                  x in blocked
      {
        UnionSnoc(batches, i);
        UnionHolds(batches, i);
        MarkStays(g, a, seed, blocked, batches[i]);
        var marked := MarkStep(G(), blocked, batches[i]);
        changed := changed || marked != blocked;
        blocked := marked;
        i := i + 1;
      }
      assert batches[..i] == batches;
    }

    // -------------------------------------------------------------- row writes

    /** Write a row and settle everything its status can reach. */
    method WriteRow(id: Id, row: Row) returns (ended: bool)
      requires Valid() && id in rows
      modifies this`rows, this`blocked
      ensures Valid() && (ended <==> RowSettles(old(View()), id, row))
      ensures ended ==> View() == Rewritten(old(View()), id, row)
    {
      ghost var st := View();
      var a := Closure(Down(G()), StatusSeeds(G(), id));
      rows := rows[id := row];
      assert rows.Keys == st.g.rows.Keys;
      ended := SettleAffected(a);
    }

    /** The whole of a settling row write; one whose settlement has no end never commits. */
    method Rewrite(id: Id, row: Row) returns (refusal: Option<Refusal>)
      requires Valid() && id in rows
      modifies this`rows, this`blocked
      ensures Valid() && Did(old(View()), Written(old(View()), id, row), refusal, View())
    {
      var saved, flags := rows, blocked;
      var ended := WriteRow(id, row);
      if ended { return None; }
      rows, blocked := saved, flags;
      return Some(Endless);
    }

    /** Settle what a write affects, plane by plane. */
    method SettleAffected(a: set<Id>) returns (ended: bool)
      requires Valid()
      modifies this`blocked
      ensures Valid() && (ended <==> Settles(G(), a, old(blocked)))
      ensures ended ==> blocked == Rounds(G(), a, old(blocked))
      ensures Acyclic(Hierarchy(G())) ==> ended && blocked == Settled(G(), a, old(blocked))
    {
      ghost var g, b := G(), blocked;
      assert b * g.rows.Keys == b;
      ByPlaneCovers(g, a);
      ended := Settle(ByPlane(G(), a));
      if ended {
        ghost var n: nat :| QuietAfter(g, b, ByPlane(g, a), n) && blocked == Sweeps(g, b, ByPlane(g, a), n);
        RoundsAre(g, a, b, n);
      }
    }

    /** Write a row and settle nothing. */
    method TouchRow(id: Id, row: Row)
      requires Valid() && id in rows
      modifies this`rows
      ensures Valid() && View() == Unsettled(old(View()), id, row)
    {
      ghost var st := View();
      rows := rows[id := row];
      assert rows.Keys == st.g.rows.Keys;
    }

    method Close(r: CloseReq, at: Stamp) returns (refusal: Option<Refusal>)
      requires Valid()
      modifies this`rows, this`blocked
      ensures Valid() && Did(old(View()), Verbs.Close(old(View()), r, at), refusal, View())
    {
      if r.actor == "" || r.id == "" { return Some(Invalid); }
      refusal := GuardVersion(View(), r.id, r.expected);
      if refusal.Some? { return; }
      refusal := CloseRefusal(View(), r.id, r.force);
      if refusal.Some? { return; }
      if rows[r.id].status != Closed {
        refusal := Rewrite(r.id, Stamped(rows[r.id], at).(status := Closed));
      }
    }

    method Reopen(cfg: Config, id: Id, actor: string, expected: Option<int>, at: Stamp)
        returns (refusal: Option<Refusal>)
      requires Valid()
      modifies this`rows, this`blocked
      ensures Valid() && Did(old(View()), Verbs.Reopen(cfg, old(View()), id, actor, expected, at), refusal, View())
    {
      if actor == "" || id == "" { return Some(Invalid); }
      refusal := GuardVersion(View(), id, expected);
      if refusal.Some? { return; }
      if IsDone(cfg, rows[id].status) {
        refusal := Rewrite(id, Stamped(rows[id], at).(status := Open));
      }
    }

    method Update(cfg: Config, r: UpdateReq, at: Stamp) returns (refusal: Option<Refusal>)
      requires Valid()
      modifies this`rows, this`blocked
      ensures Valid() && Did(old(View()), Verbs.Update(cfg, old(View()), r, at), refusal, View())
    {
      refusal := UpdateGuard(cfg, View(), r);
      if refusal.Some? { return; }
      var row := rows[r.id];
      var next := Patched(row, r.patch);
      if next == row { return; }
      if IsLive(row.status) != IsLive(next.status) {
        refusal := Rewrite(r.id, Stamped(next, at));
      } else {
        TouchRow(r.id, Stamped(next, at));
      }
    }

    method Claim(cfg: Config, id: Id, actor: string, at: Stamp) returns (refusal: Option<Refusal>)
      requires Valid()
      modifies this`rows
      ensures Valid() && Did(old(View()), Verbs.Claim(cfg, old(View()), id, actor, at), refusal, View())
    {
      if actor == "" || id == "" { return Some(Invalid); }
      if id in rows && rows[id].plane == Wisps { return Some(NotFound([id])); }
      refusal := ClaimRow(cfg, id, actor, at);
    }

    method ClaimRow(cfg: Config, id: Id, actor: string, at: Stamp) returns (refusal: Option<Refusal>)
      requires Valid()
      modifies this`rows
      ensures Valid() && Did(old(View()), Verbs.ClaimRow(cfg, old(View()), id, actor, at), refusal, View())
    {
      if id !in rows { return Some(NotFound([id])); }
      var row := rows[id];
      if (row.assignee == "" || ActorMatches(row.assignee, actor) || row.assignee in cfg.pools) &&
          IsClaimable(cfg, row.status) {
        TouchRow(id, Stamped(row, at).(assignee := actor, status := InProgress));
        return None;
      }
      if ActorMatches(row.assignee, actor) && row.status == InProgress { return None; }
      return Some(ClaimRefusal(cfg, row, actor));
    }

    method Release(id: Id, actor: string, expected: Option<string>, force: bool, at: Stamp)
        returns (refusal: Option<Refusal>)
      requires Valid()
      modifies this`rows
      ensures Valid() && Did(old(View()), Verbs.Release(old(View()), id, actor, expected, force, at), refusal, View())
    {
      if actor == "" || id == "" || expected == Some("") || (expected.Some? && force) { return Some(Invalid); }
      if id !in rows { return Some(NotFound([id])); }
      var row := rows[id];
      if row.status != Open && row.status != InProgress { return Some(NotReleasable); }
      if expected.None? && row.assignee == "" { return Some(NotClaimed); }
      if expected.Some? && !ActorMatches(row.assignee, expected.value) { return Some(AssigneeMismatch); }
      if expected.None? && !force && !ActorMatches(row.assignee, actor) { return Some(NotOwner); }
      TouchRow(id, Stamped(row, at).(assignee := "", status := Open));
      return None;
    }

    // -------------------------------------------------------------- edges

    /** The checks one edge passes, each reachability question answered by a walk. */
    method Admit(e: EdgeReq, skip: bool) returns (refusal: Option<Refusal>)
      ensures Insert(G(), e, skip) == if refusal.Some? then Refused(refusal.value) else Ok(Put(G(), e))
    {
      if e.source !in rows { return Some(SourceNotFound); }
      if !IsExternal(e.source, e.target) && e.target !in rows { return Some(TargetNotFound); }
      refusal := HierarchyRefusal(e);
      if refusal.Some? { return; }
      if !skip {
        if e.source == e.target { return Some(SelfDependency); }
        if IsScheduling(e.kind) {
          var cycle := Reachable(Scheduling(G()), e.target, e.source);
          if cycle { return Some(Cycle); }
        }
      }
      if (e.source, e.target) in edges && edges[(e.source, e.target)].kind != e.kind { return Some(TypeConflict); }
      return None;
    }

    method HierarchyRefusal(e: EdgeReq) returns (refusal: Option<Refusal>)
      ensures refusal == if AncestorConflict(G(), e) then Some(HierarchyConflict(true))
                         else if DescendantConflict(G(), e) then Some(HierarchyConflict(false)) else None
    {
      if IsBlocking(e.kind) && !IsExternal(e.source, e.target) && e.source != e.target {
        var up := Reachable(Ancestry(G()), e.source, e.target);
        if up { return Some(HierarchyConflict(true)); }
        var down := Reachable(Ancestry(G()), e.target, e.source);
        if down { return Some(HierarchyConflict(false)); }
      }
      return None;
    }

    /** Settle or mark what a new edge affects. */
    method Spread(e: EdgeReq) returns (ended: bool)
      requires Valid()
      modifies this`blocked
      ensures Valid() && (ended <==> (e.kind == ParentChild ==> Settles(G(), EdgeSet(G(), e), old(blocked))))
      ensures ended ==> blocked == NewEdgeFlags(G(), e, old(blocked))
    {
      var a := Closure(Down(G()), EdgeSeeds(G(), e.source, e.target, e.kind));
      if e.kind == ParentChild {
        ended := SettleAffected(a);
        return;
      }
      if IsBlocking(e.kind) {
        blocked := blocked + DirectMark(G(), e);
        a := a - {e.source};
      }
      ByPlaneCovers(G(), a);
      Mark(ByPlane(G(), a));
      return true;
    }

    /** Write the edge's row and nothing else. */
    method StoreEdge(e: EdgeReq)
      requires Valid() && Placed(G(), e)
      modifies this`edges
      ensures Valid() && G() == Put(old(G()), e)
    {
      PutFrames(G(), e);
      edges := edges[(e.source, e.target) := Edge(e.kind, e.gate)];
      assert G() == Put(old(G()), e);
    }

    /** Write one admitted edge; a stored pair only has its metadata replaced. */
    method PutEdge(e: EdgeReq) returns (ended: bool)
      requires Valid() && Placed(G(), e)
      modifies this`edges, this`blocked
      ensures Valid() && (ended <==> EdgeSettles(old(G()), e, old(blocked)))
      ensures ended ==> View() == State(Put(old(G()), e), EdgeFlags(old(G()), e, old(blocked)))
    {
      var known := (e.source, e.target) in edges;
      StoreEdge(e);
      if known { return true; }
      ended := Spread(e);
    }

    /** One edge: check it, write it, settle it. */
    method InsertOne(e: EdgeReq, skip: bool) returns (refusal: Option<Refusal>)
      requires Valid() && e.source != e.target
      modifies this`edges, this`blocked
      ensures Valid() && Did(old(View()), Entered(old(View()), e, skip), refusal, View())
    {
      refusal := Admit(e, skip);
      if refusal.Some? { return; }
      var saved, flags := edges, blocked;
      var ended := PutEdge(e);
      if !ended {
        edges, blocked := saved, flags;
        refusal := Some(Endless);
      }
    }

    /** Assert every edge or none: parent-child edges first, then the rest, then the
        whole-graph gate. */
    method AddDependencies(actor: string, es: seq<EdgeReq>, skip: bool) returns (refusal: Option<Refusal>)
      requires Valid()
      modifies this
      ensures Valid() && Did(old(View()), Verbs.AddDependencies(old(View()), actor, es, skip), refusal, View())
    {
      if actor == "" || es == [] { return Some(Invalid); }
      refusal := ShapeRefusal(es);
      if refusal.Some? { return; }
      var saved, flags := edges, blocked;
      EnteredAllIs(View(), ParentChildFirst(es), skip);
      refusal := InsertEdges(ParentChildFirst(es), skip);
      if refusal.None? { refusal := FinalGate(es); }
      if refusal.Some? { edges, blocked := saved, flags; }
    }

    /** The edges in list order, up to the first that is refused. */
    method InsertEdges(fs: seq<EdgeReq>, skip: bool) returns (refusal: Option<Refusal>)
      requires Valid() && NoSelf(fs)
      modifies this`edges, this`blocked
      ensures Valid() && rows == old(rows)
      ensures refusal.None? ==> EnteredAll(old(View()), fs, skip) == Ok(View())
      ensures refusal.Some? ==> EnteredAll(old(View()), fs, skip) == Refused(refusal.value)
    {
      ghost var st := View();
      var i := 0;
      assert fs[0..] == fs;
      while i < |fs|
        invariant 0 <= i <= |fs| && Valid() && EnteredAll(View(), fs[i..], skip) == EnteredAll(st, fs, skip)
      {
        assert fs[i] in fs;
        ghost var was := View();
        refusal := InsertOne(fs[i], skip);
        EnteredNext(was, fs, i, skip, refusal, View());
        if refusal.Some? { return; }
        i := i + 1;
      }
      assert fs[i..] == [];
      return None;
    }

    method FinalGate(es: seq<EdgeReq>) returns (refusal: Option<Refusal>)
      ensures refusal == if FinalCycle(G(), es) then Some(Cycle) else None
    {
      var i := 0;
      while i < |es|
        invariant 0 <= i <= |es| && forall e :: e in es[..i] ==> !CycleConflict(G(), e)
      {
        if IsScheduling(es[i].kind) {
          var cycle := Reachable(Scheduling(G()), es[i].target, es[i].source);
          if cycle { assert es[i] in es; return Some(Cycle); }
        }
        i := i + 1;
      }
      assert es[..i] == es;
      return None;
    }

    /** Outside any other transaction, so over a committed store: no ring of parents. */
    method RemoveDependency(actor: string, s: Id, t: Id) returns (refusal: Option<Refusal>)
      requires Valid() && Acyclic(Hierarchy(G()))
      modifies this`edges, this`blocked
      ensures Valid() && Did(old(View()), Verbs.RemoveDependency(old(View()), actor, s, t), refusal, View())
    {
      if actor == "" || s == "" || t == "" { return Some(Invalid); }
      if (s, t) !in edges { return None; }
      ghost var st := View();
      var k := edges[(s, t)].kind;
      edges := edges - {(s, t)};
      assert G() == DropEdge(st.g, s, t);
      HierarchyShrinks(st.g, G());
      var a := Closure(Down(G()), EdgeSeeds(G(), s, t, k));
      var _ := SettleAffected(a);
      return None;
    }

    // -------------------------------------------------------------- create

    /** One edge of a create; set-aside and stored pairs leave the graph alone. */
    method CreateOne(e: EdgeReq) returns (refusal: Option<Refusal>)
      requires Valid()
      modifies this`edges
      ensures Valid() && Did(old(View()), OnGraph(old(View()), CreateEdge(old(G()), e)), refusal, View())
    {
      if SetAside(G(), e) { return None; }
      refusal := HierarchyRefusal(e);
      if refusal.Some? { return; }
      if e.source == e.target { return Some(SelfDependency); }
      if IsScheduling(e.kind) {
        var cycle := Reachable(Scheduling(G()), e.target, e.source);
        if cycle { return Some(Cycle); }
      }
      if e.source !in rows { return Some(SourceNotFound); }
      if (e.source, e.target) in edges { return None; }
      StoreEdge(e);
      return None;
    }

    method Create(cfg: Config, r: CreateReq) returns (refusal: Option<Refusal>)
      requires Valid()
      modifies this
      ensures Valid() && Did(old(View()), Verbs.Create(cfg, old(View()), r), refusal, View())
    {
      if !IsKnown(cfg, r.row.status) { return Some(Invalid); }
      if r.id in rows { return Some(AlreadyExists); }
      var saved := View();
      ghost var st := View();
      CreateFrames(st.g, r.id, r.row);
      rows := rows[r.id := r.row];
      var g := G();
      assert g == SetRow(st.g, r.id, r.row);
      refusal := CreateEdgeList(ParentChildFirst(r.edges));
      if refusal.None? && exists e :: e in r.edges && SetAside(g, e) { refusal := Some(NotFound([])); }
      if refusal.None? {
        var ended := SettleNew(r.id, g);
        if !ended { refusal := Some(Endless); }
      }
      if refusal.Some? { rows, edges, blocked := saved.g.rows, saved.g.edges, saved.blocked; }
    }

    /** Settle the new row and what the pairs beyond g affect. */
    method SettleNew(id: Id, g: Graph) returns (ended: bool)
      requires Valid()
      modifies this`blocked
      ensures Valid() && (ended <==> Settles(G(), {id} + Descend(G(), NewSeeds(g, G())), old(blocked)))
      ensures ended ==> blocked == Rounds(G(), {id} + Descend(G(), NewSeeds(g, G())), old(blocked))
    {
      var a := Closure(Down(G()), NewSeeds(g, G()));
      ended := SettleAffected({id} + a);
    }

    method CreateEdgeList(fs: seq<EdgeReq>) returns (refusal: Option<Refusal>)
      requires Valid()
      modifies this`edges
      ensures refusal.None? ==> Valid() && CreateEdges(old(G()), fs) == Ok(G())
      ensures refusal.Some? ==> CreateEdges(old(G()), fs) == Refused(refusal.value)
    {
      ghost var g := G();
      var i := 0;
      assert fs[..0] == [];
      while i < |fs|
        invariant 0 <= i <= |fs| && Valid() && CreateEdges(g, fs[..i]) == Ok(G())
      {
        CreateEdgesStep(g, fs, i, G());
        refusal := CreateOne(fs[i]);
        if refusal.Some? { return; }
        i := i + 1;
      }
      assert fs[..i] == fs;
      return None;
    }

    // -------------------------------------------------------------- delete

    /** The set a delete removes; a cascade over the limit is given up. */
    method Resolve(r: DeleteReq) returns (d: set<Id>)
      ensures d == Doomed(G(), r)
    {
      d := Members(r.ids);
      if r.cascade { d := Closure(Dependents(G()), d); }
    }

    /** A dry run refuses and counts exactly as the real run would, and writes nothing. Like a
        removal it runs over a committed store. */
    method Delete(r: DeleteReq, dryRun: bool, cited: map<Id, Stamp>)
        returns (refusal: Option<Refusal>, report: DeleteReport)
      requires Valid() && Acyclic(Hierarchy(G()))
      modifies this
      ensures Valid() && refusal == DeleteRefusal(old(View()), r)
      ensures refusal.None? ==>
                report == (if dryRun then Report(old(View()), r, cited).(references := 0)
                    else Report(old(View()), r, cited))
      ensures if refusal.Some? || dryRun then View() == old(View())
              else Verbs.Delete(old(View()), r, cited) == Ok(View())
    {
      report := DeleteReport(0, 0, {}, 0);
      if r.ids == [] || "" in r.ids || (r.expected.Some? && |Members(r.ids)| > 1) { return Some(Invalid), report; }
      if Missing(G(), r.ids) != [] { return Some(NotFound(Missing(G(), r.ids))), report; }
      NothingMissing(G(), r.ids);
      if r.expected.Some? && rows[r.ids[0]].version != r.expected.value { return Some(VersionMismatch), report; }
      if !r.cascade && !r.force {
        var guarded := FirstGuarded(G(), r.ids, Members(r.ids));
        if guarded.Some? {
          return Some(DependentsOutside(guarded.value, Outsiders(G(), guarded.value, Members(r.ids)))), report;
        }
      }
      var d := Resolve(r);
      if r.cascade && |d| > RUNAWAY { return Some(Runaway), report; }
      var border := Bordering(G(), d);
      var orphaned := if r.force && !r.cascade then Orphans(G(), Members(r.ids)) else {};
      report := DeleteReport(|d|, |Touching(G(), d)|, orphaned, 0);
      if !dryRun {
        Erase(d);
        Restamp(border, cited);
        report := report.(references := |border * cited.Keys|);
      }
      return None, report;
    }

    /** Rewrite the citing rows; only their stamps show here. */
    method Restamp(border: set<Id>, cited: map<Id, Stamp>)
      requires Valid()
      modifies this`rows
      ensures Valid() && View() == Restamped(old(View()), border, cited)
    {
      ghost var st := View();
      rows := map x | x in rows :: if x in border && x in cited then Stamped(rows[x], cited[x]) else rows[x];
      RestampedKeeps(st, border, cited);
    }

    method Erase(d: set<Id>)
      requires Valid() && Acyclic(Hierarchy(G()))
      modifies this
      ensures Valid() && View() == Erased(old(View()), d)
    {
      ghost var st := View();
      var a := Closure(DownAround(G(), d), DeletionSeeds(G(), d));
      var h := DropRows(G(), d);
      DropRowsWellFormed(G(), d);
      AcyclicShrinks(Hierarchy(h), Hierarchy(G()));
      SettledForgets(h, a, blocked);
      rows, edges := h.rows, h.edges;
      blocked := blocked * rows.Keys;
      assert G() == h;
      var _ := SettleAffected(a);
    }

    /** Closes left to right; a refusal is reported and skipped. */
    method CloseBatch(closes: seq<CloseReq>, ats: seq<Stamp>) returns (refusals: seq<Option<Refusal>>)
      requires Valid() && |ats| == |closes|
      modifies this`rows, this`blocked
      ensures Valid() && View() == CloseAll(old(View()), closes, ats)
      ensures |refusals| == |closes| && refusals == CloseRefusals(old(View()), closes, ats)
    {
      ghost var st := View();
      refusals := [];
      var i := 0;
      assert closes[0..] == closes && ats[0..] == ats;
      while i < |closes|
        invariant 0 <= i <= |closes| && Valid() && |refusals| == i
        invariant ClosesRemain(st, closes, ats, i, refusals, View())
      {
        ghost var was := View();
        var refusal := Close(closes[i], ats[i]);
        ClosesAdvance(st, closes, ats, i, refusals, was, refusal, View());
        refusals := refusals + [refusal];
        i := i + 1;
      }
    }
  }

  /** What is left of a batch close, from here, completes what was asked. */
  ghost predicate ClosesRemain(st: State, closes: seq<CloseReq>, ats: seq<Stamp>, i: nat,
                               refusals: seq<Option<Refusal>>, now: State)
    requires i <= |closes| == |ats|
  {
    && CloseAll(now, closes[i..], ats[i..]) == CloseAll(st, closes, ats)
    && refusals + CloseRefusals(now, closes[i..], ats[i..]) == CloseRefusals(st, closes, ats)
  }

  lemma {:induction false} ClosesAdvance(st: State, closes: seq<CloseReq>, ats: seq<Stamp>, i: nat,
                                         refusals: seq<Option<Refusal>>, was: State, refusal: Option<Refusal>,
                                             now: State)
    requires i < |closes| == |ats| && ClosesRemain(st, closes, ats, i, refusals, was)
    requires Did(was, Verbs.Close(was, closes[i], ats[i]), refusal, now)
    ensures ClosesRemain(st, closes, ats, i + 1, refusals + [refusal], now)
  {
    var rest, later := closes[i..], ats[i..];
    assert rest[1..] == closes[i + 1..] && later[1..] == ats[i + 1..];
    FirstClose(was, rest, later, refusal, now);
    MoveHead(refusals, refusal, CloseRefusals(now, rest[1..], later[1..]));
  }

  lemma {:induction false} MoveHead<T>(a: seq<T>, x: T, b: seq<T>)
    ensures a + ([x] + b) == (a + [x]) + b
  {
  }

  lemma {:induction false} FirstClose(was: State, closes: seq<CloseReq>, ats: seq<Stamp>, refusal: Option<Refusal>,
                                      now: State)
    requires closes != [] && ats != [] && Did(was, Verbs.Close(was, closes[0], ats[0]), refusal, now)
    ensures CloseAll(was, closes, ats) == CloseAll(now, closes[1..], ats[1..])
    ensures CloseRefusals(was, closes, ats) == [refusal] + CloseRefusals(now, closes[1..], ats[1..])
  {
  }

  ghost function OnGraph(st: State, out: Outcome<Graph>): Outcome<State> {
    match out case Ok(h) => Ok(st.(g := h)) case Refused(why) => Refused(why)
  }

  lemma {:induction false} NothingMissing(g: Graph, ids: seq<Id>)
    requires ids != [] && Missing(g, ids) == []
    ensures ids[0] in g.rows
  {
  }

  /** One edge on the stored state: refused, without an answer, or written and settled. */
  ghost function Entered(st: State, e: EdgeReq, skip: bool): Outcome<State> {
    match Insert(st.g, e, skip)
    case Refused(why) => Refused(why)
    case Ok(h) =>
      if EdgeSettles(st.g, e, st.blocked) then Ok(State(h, EdgeFlags(st.g, e, st.blocked))) else Refused(Endless)
  }

  ghost function EnteredAll(st: State, es: seq<EdgeReq>, skip: bool): Outcome<State>
    decreases |es|
  {
    if es == [] then Ok(st)
    else match Entered(st, es[0], skip)
      case Refused(why) => Refused(why)
      case Ok(next) => EnteredAll(next, es[1..], skip)
  }

  lemma {:induction false} EnteredNext(was: State, es: seq<EdgeReq>, i: nat, skip: bool, refusal: Option<Refusal>,
                                       now: State)
    requires i < |es| && Did(was, Entered(was, es[i], skip), refusal, now)
    ensures EnteredAll(was, es[i..], skip) ==
            if refusal.Some? then Refused(refusal.value) else EnteredAll(now, es[i + 1..], skip)
  {
    assert es[i..][0] == es[i] && es[i..][1..] == es[i + 1..];
  }

  /** Edge by edge is the graph, the flags and the endings taken apart. */
  lemma {:induction false} EnteredAllIs(st: State, es: seq<EdgeReq>, skip: bool)
    ensures EnteredAll(st, es, skip) ==
            if !FoldSettles(st.g, es, skip, st.blocked) then Refused(Endless)
            else match InsertAll(st.g, es, skip)
              case Refused(why) => Refused(why)
              case Ok(h) => Ok(State(h, FoldFlags(st.g, es, st.blocked)))
    decreases |es|
  {
    if es != [] && Entered(st, es[0], skip).Ok? { EnteredAllIs(Entered(st, es[0], skip).value, es[1..], skip); }
  }

  /** The column before each round so far, none of which was quiet. */
  ghost predicate Tried(g: Graph, b: set<Id>, batches: seq<set<Id>>, n: nat, seen: set<set<Id>>) {
    && (forall i: nat :: i < n ==> !QuietAfter(g, b, batches, i))
    && (forall c :: c in seen ==> exists i: nat :: i < n && c == Sweeps(g, b, batches, i))
  }

  /** A round that changed the column is one more that was not quiet; one that did not leaves
      the column as it was. */
  lemma {:induction false} RoundTried(g: Graph, b: set<Id>, batches: seq<set<Id>>, n: nat, seen: set<set<Id>>,
                                      changed: bool)
    requires Tried(g, b, batches, n, seen) && changed == Stirs(g, Sweeps(g, b, batches, n), batches)
    ensures changed ==> Tried(g, b, batches, n + 1, seen + {Sweeps(g, b, batches, n)})
    ensures !changed ==> QuietAfter(g, b, batches, n) &&
                         Sweep(g, Sweeps(g, b, batches, n), batches) == Sweeps(g, b, batches, n)
  {
    if !changed { QuietIsRight(g, Sweeps(g, b, batches, n), batches); }
  }

  /** Stopping at a quiet round or at a column seen before decides whether the rounds end. */
  lemma {:induction false} Answered(g: Graph, b: set<Id>, batches: seq<set<Id>>, n: nat, seen: set<set<Id>>,
                                    ended: bool)
    requires WellFormed(g) && b <= g.rows.Keys && Tried(g, b, batches, n, seen)
    requires if ended then QuietAfter(g, b, batches, n) else Sweeps(g, b, batches, n) in seen
    ensures ended <==> Ends(g, b, batches)
    ensures Acyclic(Hierarchy(g)) ==> ended && Sweeps(g, b, batches, n) == Settled(g, Union(batches), b)
  {
    if !ended { NeverQuiet(g, b, batches, n, seen); }
    if Acyclic(Hierarchy(g)) { AcyclicAnswer(g, b, batches, n); }
  }

  lemma {:induction false} NeverQuiet(g: Graph, b: set<Id>, batches: seq<set<Id>>, n: nat, seen: set<set<Id>>)
    requires Tried(g, b, batches, n, seen) && Sweeps(g, b, batches, n) in seen
    ensures !Ends(g, b, batches)
  {
    var i: nat :| i < n && Sweeps(g, b, batches, n) == Sweeps(g, b, batches, i);
    RecurringNeverEnds(g, b, batches, i, n);
  }

  lemma {:induction false} AcyclicAnswer(g: Graph, b: set<Id>, batches: seq<set<Id>>, n: nat)
    requires WellFormed(g) && Acyclic(Hierarchy(g)) && b <= g.rows.Keys
    ensures Ends(g, b, batches)
    ensures QuietAfter(g, b, batches, n) ==> Sweeps(g, b, batches, n) == Settled(g, Union(batches), b)
  {
    var m := AcyclicEnds(g, b, batches);
    if QuietAfter(g, b, batches, n) {
      if m <= n { QuietStays(g, b, batches, m, n); } else { QuietStays(g, b, batches, n, m); }
    }
  }

  function Columns(ids: set<Id>): set<set<Id>> {
    set c | c <= ids
  }

  lemma {:induction false} HierarchyShrinks(g: Graph, h: Graph)
    requires h.rows == g.rows && h.edges.Keys <= g.edges.Keys && forall e :: e in h.edges ==> h.edges[e] == g.edges[e]
    ensures Hierarchy(h) <= Hierarchy(g) && (Acyclic(Hierarchy(g)) ==> Acyclic(Hierarchy(h)))
  {
    forall e | e in Hierarchy(h) ensures e in Hierarchy(g) { assert ChildOf(g, e.0, e.1); }
    if Acyclic(Hierarchy(g)) { AcyclicShrinks(Hierarchy(h), Hierarchy(g)); }
  }
}
