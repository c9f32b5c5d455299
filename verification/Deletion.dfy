/** What a delete removes, what it leaves, and when it refuses. */
module Deletion {

  import opened Digraph
  import opened IssueGraph
  import opened Affected
  import opened Edits
  import opened Flags
  import opened Results
  import opened Verbs
  import opened Reading

  /** Whatever depends on a member is a member. */
  ghost predicate ClosedUnderDependents(g: Graph, d: set<Id>) {
    forall s, t :: (s, t) in g.edges && t in d ==> s in d
  }

  lemma {:induction false} ClosedIsCovered(g: Graph, d: set<Id>)
    ensures ClosedUnderDependents(g, d) <==> Covered(Dependents(g), d, d)
  {
    if ClosedUnderDependents(g, d) {
      forall t, s | (t, s) in Dependents(g) && t in d ensures s in d {
        assert (s, t) in g.edges;
      }
    } else if Covered(Dependents(g), d, d) {
      forall s, t | (s, t) in g.edges && t in d ensures s in d {
        assert (s, t).1 == t && (t, s) in Dependents(g);
      }
    }
  }

  /** A cascade removes exactly the least set that holds the named ids and everything
      that depends on a member, in both planes and through every edge type. */
  lemma {:induction false} CascadeIsLeastClosed(g: Graph, r: DeleteReq, d: set<Id>)
    requires r.cascade
    ensures Members(r.ids) <= Doomed(g, r) && ClosedUnderDependents(g, Doomed(g, r))
    ensures Members(r.ids) <= d && ClosedUnderDependents(g, d) ==> Doomed(g, r) <= d
  {
    ReachSetExact(Dependents(g), Members(r.ids));
    ClosedIsCovered(g, Doomed(g, r));
    ClosedIsCovered(g, d);
    if Members(r.ids) <= d && ClosedUnderDependents(g, d) { ReachSetLeast(Dependents(g), Members(r.ids), d); }
  }

  lemma {:induction false} FirstGuardedIs(g: Graph, ids: seq<Id>, named: set<Id>)
    ensures FirstGuarded(g, ids, named).None? <==> forall i :: 0 <= i < |ids| ==> Outsiders(g, ids[i], named) == {}
    ensures FirstGuarded(g, ids, named).Some? ==>
              exists i :: 0 <= i < |ids| && ids[i] == FirstGuarded(g, ids, named).value &&
                  Outsiders(g, ids[i], named) != {} &&
                          forall j :: 0 <= j < i ==> Outsiders(g, ids[j], named) == {}
  {
    if ids != [] && Outsiders(g, ids[0], named) == {} {
      FirstGuardedIs(g, ids[1..], named);
      var rest := FirstGuarded(g, ids[1..], named);
      assert forall i :: 0 < i < |ids| ==> ids[i] == ids[1..][i - 1];
      if rest.Some? {
        var i :| 0 <= i < |ids[1..]| && ids[1..][i] == rest.value && Outsiders(g, ids[1..][i], named) != {} &&
                 forall j :: 0 <= j < i ==> Outsiders(g, ids[1..][j], named) == {};
        assert ids[i + 1] == rest.value && forall j :: 0 <= j < i + 1 ==> Outsiders(g, ids[j], named) == {};
      } else {
        assert forall i :: 0 <= i < |ids[1..]| ==> ids[1..][i] == ids[i + 1];
      }
    }
  }

  /** The request passes the checks that come before any question of dependents. */
  predicate Admitted(st: State, r: DeleteReq) {
    && r.ids != [] && "" !in r.ids && (r.expected.Some? ==> |Members(r.ids)| <= 1)
    && Missing(st.g, r.ids) == [] && r.ids[0] in st.g.rows
    && (r.expected.Some? ==> st.g.rows[r.ids[0]].version == r.expected.value)
  }

  /** An admitted delete that neither cascades nor forces succeeds exactly when the named
      set is already closed under dependents; one that cascades, exactly when its closure
      is within the limit; one that forces, always. */
  lemma {:induction false} DeleteSucceeds(st: State, r: DeleteReq, cited: map<Id, Stamp>)
    requires Admitted(st, r)
    ensures Delete(st, r, cited).Ok? <==>
            if r.cascade then |Doomed(st.g, r)| <= RUNAWAY else r.force || ClosedUnderDependents(st.g, Members(r.ids))
  {
    FirstGuardedIs(st.g, r.ids, Members(r.ids));
    GuardsAgree(st.g, r.ids);
  }

  lemma {:induction false} GuardsAgree(g: Graph, ids: seq<Id>)
    ensures (forall i :: 0 <= i < |ids| ==> Outsiders(g, ids[i], Members(ids)) == {}) <==>
            ClosedUnderDependents(g, Members(ids))
  {
    if forall i :: 0 <= i < |ids| ==> Outsiders(g, ids[i], Members(ids)) == {} {
      forall s, t | (s, t) in g.edges && t in Members(ids) ensures s in Members(ids) {
        var i :| 0 <= i < |ids| && ids[i] == t;
        assert (s, t).1 == ids[i] && s !in Outsiders(g, ids[i], Members(ids));
      }
    }
  }

  /** What is orphaned is exactly the survivors that depended on a removed row: none but by force. */
  lemma {:induction false} OrphansAreDirectDependents(st: State, r: DeleteReq, cited: map<Id, Stamp>, s: Id)
    requires WellFormed(st.g) && Delete(st, r, cited).Ok?
    ensures s in Report(st, r, cited).orphaned <==>
            s in Delete(st, r, cited).value.g.rows && exists t :: t in Doomed(st.g, r) && (s, t) in st.g.edges
    ensures s in Report(st, r, cited).orphaned ==> r.force && !r.cascade
  {
    if r.force && !r.cascade {
      ForcedOrphans(st, r, cited, s);
    } else {
      UnforcedIsClosed(st, r);
      assert s in Delete(st, r, cited).value.g.rows ==> s !in Doomed(st.g, r);
    }
  }

  /** A cascade, or an unforced delete that is let through, removes every dependent. */
  lemma {:induction false} UnforcedIsClosed(st: State, r: DeleteReq)
    requires DeleteRefusal(st, r).None? && (r.cascade || !r.force)
    ensures ClosedUnderDependents(st.g, Doomed(st.g, r))
  {
    if r.cascade {
      CascadeIsLeastClosed(st.g, r, {});
    } else {
      FirstGuardedIs(st.g, r.ids, Members(r.ids));
      GuardsAgree(st.g, r.ids);
    }
  }

  lemma {:induction false} ForcedOrphans(st: State, r: DeleteReq, cited: map<Id, Stamp>, s: Id)
    requires WellFormed(st.g) && r.force && !r.cascade && Delete(st, r, cited).Ok?
    ensures s in Report(st, r, cited).orphaned <==>
            s in Delete(st, r, cited).value.g.rows && exists t :: t in Members(r.ids) && (s, t) in st.g.edges
  {
    if s in Report(st, r, cited).orphaned {
      var e :| e in st.g.edges && e.1 in Members(r.ids) && e.0 !in Members(r.ids) && e.0 == s;
      assert (s, e.1) in st.g.edges;
    }
    assert forall t :: (s, t) in st.g.edges && t in Members(r.ids) && s !in Members(r.ids) ==>
           (s, t).0 in Report(st, r, cited).orphaned;
  }

  /** The edges a survivor keeps onto a removed row. */
  function Dangling(g: Graph, d: set<Id>): set<(Id, Id)> {
    set e | e in g.edges && e.0 !in d && e.1 in d && IsExternal(e.0, e.1)
  }

  lemma {:induction false} EdgesLeft(g: Graph, d: set<Id>)
    ensures Touching(DropRows(g, d), d) == Dangling(g, d)
    ensures DropRows(g, d).edges.Keys == (g.edges.Keys - Touching(g, d)) + Dangling(g, d)
  {
  }

  lemma {:induction false} EdgesCounted(all: set<(Id, Id)>, touching: set<(Id, Id)>, dangling: set<(Id, Id)>)
    requires dangling <= touching <= all
    ensures |all| - |(all - touching) + dangling| == |touching| - |dangling|
  {
    assert all == (all - touching) + touching;
    assert (all - touching) !! dangling;
  }

  /** The row's own content, without the stamps a citation rewrite moves. */
  predicate SameContent(a: Row, b: Row) {
    a.plane == b.plane && a.title == b.title && a.status == b.status && a.assignee == b.assignee &&
        a.metadata == b.metadata
  }

  /** What a delete leaves: of the survivors' rows exactly the bordering ones that cite a
      removed id are restamped, and no other column of any moves; edges between survivors
      stay; of the edges that touched a removed row exactly the dangling ones stay. So no
      edge touches a removed row, and as many edges went as were reported, exactly when no
      survivor had an edge onto a removed row that was stored as external. */
  lemma {:induction false} WhatDeleteLeaves(st: State, r: DeleteReq, cited: map<Id, Stamp>)
    requires Delete(st, r, cited).Ok?
    ensures var h, d := Delete(st, r, cited).value.g, Doomed(st.g, r);
            && h.rows.Keys == st.g.rows.Keys - d
            && (forall x :: x in h.rows ==> SameContent(h.rows[x], st.g.rows[x]))
            && (forall x :: x in h.rows && !(x in cited && x in Bordering(st.g, d)) ==> h.rows[x] == st.g.rows[x])
            && (forall x :: x in h.rows && x in cited && x in Bordering(st.g, d) ==>
                  h.rows[x].version == cited[x].version && h.rows[x].updatedAt == cited[x].now)
            && (forall e :: e in st.g.edges && e.0 !in d && e.1 !in d ==> e in h.edges && h.edges[e] == st.g.edges[e])
            && Touching(h, d) == Dangling(st.g, d)
            && |st.g.edges.Keys| - |h.edges.Keys| == Report(st, r, cited).dependencies - |Dangling(st.g, d)|
  {
    var d := Doomed(st.g, r);
    EdgesLeft(st.g, d);
    EdgesCounted(st.g.edges.Keys, Touching(st.g, d), Dangling(st.g, d));
    RowsLeft(Erased(st, d), Bordering(st.g, d), cited);
  }

  lemma {:induction false} RowsLeft(st: State, border: set<Id>, cited: map<Id, Stamp>)
    ensures var rows := Restamped(st, border, cited).g.rows;
            && rows.Keys == st.g.rows.Keys
            && (forall x :: x in rows ==> SameContent(rows[x], st.g.rows[x]))
            && (forall x :: x in rows && !(x in cited && x in border) ==> rows[x] == st.g.rows[x])
            && (forall x :: x in rows && x in cited && x in border ==>
                  rows[x].version == cited[x].version && rows[x].updatedAt == cited[x].now)
  {
  }

  lemma {:induction false} ClosedDanglesNothing(g: Graph, d: set<Id>)
    requires ClosedUnderDependents(g, d)
    ensures Dangling(g, d) == {}
  {
    assert forall e :: e in g.edges && e.1 in d ==> (e.0, e.1) in g.edges && e.0 in d;
  }

  /** A cascade, or an unforced delete, leaves nothing dangling. */
  lemma {:induction false} ClosedLeavesNothing(st: State, r: DeleteReq, cited: map<Id, Stamp>)
    requires Delete(st, r, cited).Ok? && (r.cascade || !r.force)
    ensures Dangling(st.g, Doomed(st.g, r)) == {} && Touching(Delete(st, r, cited).value.g, Doomed(st.g, r)) == {}
  {
    UnforcedIsClosed(st, r);
    ClosedDanglesNothing(st.g, Doomed(st.g, r));
    EdgesLeft(st.g, Doomed(st.g, r));
  }

  // ---------------------------------------------------------------- delete, off the tables

  /** x is named, or, in a cascade, depends on a named row through edges of any type. */
  ghost predicate Named(g: Graph, r: DeleteReq, x: Id) {
    exists i :: 0 <= i < |r.ids| && (x == r.ids[i] || (r.cascade && Reaches(g.edges.Keys, x, r.ids[i])))
  }

  lemma {:induction false} Backwards(g: Graph, u: Id, v: Id, n: nat)
    ensures Walk(Dependents(g), u, v, n) <==> Walk(g.edges.Keys, v, u, n)
    decreases n
  {
    if n > 0 {
      if Walk(Dependents(g), u, v, n) {
        var w :| (u, w) in Dependents(g) && Walk(Dependents(g), w, v, n - 1);
        Backwards(g, w, v, n - 1);
        assert (w, u) in g.edges && Walk(g.edges.Keys, u, u, 0) && Walk(g.edges.Keys, w, u, 1);
        WalkJoin(g.edges.Keys, v, w, u, n - 1, 1);
      }
      if Walk(g.edges.Keys, v, u, n) {
        var w :| (v, w) in g.edges.Keys && Walk(g.edges.Keys, w, u, n - 1);
        Backwards(g, u, w, n - 1);
        assert (v, w).1 == w && (w, v) in Dependents(g) && Walk(Dependents(g), v, v, 0) && Walk(Dependents(g), w, v, 1);
        WalkJoin(Dependents(g), u, w, v, n - 1, 1);
      }
    }
  }

  /** A delete removes exactly the rows named, and in a cascade those that depend on one. */
  lemma {:induction false} DoomedMeans(g: Graph, r: DeleteReq, x: Id)
    ensures x in Doomed(g, r) <==> Named(g, r, x)
  {
    forall y ensures y in Members(r.ids) <==> y in r.ids { }
    if r.cascade {
      ReachSetExact(Dependents(g), Members(r.ids));
      forall y, n: nat ensures Walk(Dependents(g), y, x, n) <==> Walk(g.edges.Keys, x, y, n) { Backwards(g, y, x, n); }
      forall y ensures Reaches(Dependents(g), y, x) <==> Reaches(g.edges.Keys, x, y) { }
      if x in Doomed(g, r) {
        var y :| y in Members(r.ids) && Reaches(Dependents(g), y, x);
        var i :| 0 <= i < |r.ids| && r.ids[i] == y;
      }
      if Named(g, r, x) {
        var i :| 0 <= i < |r.ids| && (x == r.ids[i] || (r.cascade && Reaches(g.edges.Keys, x, r.ids[i])));
        ReachesSelf(g.edges.Keys, x);
        assert r.ids[i] in Members(r.ids) && Reaches(Dependents(g), r.ids[i], x);
      }
    }
  }

  /** Some row outside the request has an edge onto this one. */
  ghost predicate DependedOn(g: Graph, ids: seq<Id>, x: Id) {
    exists s :: (s, x) in g.edges && s !in ids
  }

  lemma {:induction false} OutsidersMean(g: Graph, ids: seq<Id>, x: Id, s: Id)
    ensures s in Outsiders(g, x, Members(ids)) <==> (s, x) in g.edges && s !in ids
  {
    forall y ensures y in Members(ids) <==> y in ids { }
    if (s, x) in g.edges && s !in ids { assert (s, x).1 == x && (s, x).0 == s; }
  }

  lemma {:induction false} MissingMeans(g: Graph, ids: seq<Id>, x: Id)
    ensures x in Missing(g, ids) <==> x in ids && x !in g.rows
  {
    if ids != [] {
      assert ids == [ids[0]] + ids[1..];
      MissingMeans(g, ids[1..], x);
    }
  }

  ghost predicate SomeMissing(g: Graph, ids: seq<Id>) {
    exists x :: x in ids && x !in g.rows
  }

  ghost predicate TwoNamed(ids: seq<Id>) {
    exists x, y :: x in ids && y in ids && x != y
  }

  ghost predicate SomeDependedOn(g: Graph, ids: seq<Id>) {
    exists x :: x in ids && DependedOn(g, ids, x)
  }

  ghost function Going(g: Graph, r: DeleteReq): set<Id> {
    set x | x in g.rows && Named(g, r, x)
  }

  lemma {:induction false} GuardMeans(g: Graph, ids: seq<Id>)
    ensures var guarded := FirstGuarded(g, ids, Members(ids));
            && (guarded.Some? <==> SomeDependedOn(g, ids))
            && (guarded.Some? ==>
                 guarded.value in ids && forall s :: s in Outsiders(g, guarded.value, Members(ids)) <==>
                                                                     (s, guarded.value) in g.edges && s !in ids)
  {
    FirstGuardedIs(g, ids, Members(ids));
    forall x ensures Outsiders(g, x, Members(ids)) != {} <==> DependedOn(g, ids, x) {
      forall s ensures s in Outsiders(g, x, Members(ids)) <==>
          (s, x) in g.edges && s !in ids { OutsidersMean(g, ids, x, s); }
    }
    if FirstGuarded(g, ids, Members(ids)).Some? {
      var x := FirstGuarded(g, ids, Members(ids)).value;
      forall s ensures s in Outsiders(g, x, Members(ids)) <==>
          (s, x) in g.edges && s !in ids { OutsidersMean(g, ids, x, s); }
    }
  }

  lemma {:induction false} GoingIs(st: State, r: DeleteReq)
    requires WellFormed(st.g) && !SomeMissing(st.g, r.ids)
    ensures Doomed(st.g, r) == Going(st.g, r)
  {
    NamedAreRows(st, r);
    forall x ensures x in Doomed(st.g, r) <==> Named(st.g, r, x) { DoomedMeans(st.g, r, x); }
  }

  lemma {:induction false} MissingIs(g: Graph, ids: seq<Id>)
    ensures Missing(g, ids) != [] <==> SomeMissing(g, ids)
  {
    forall x ensures x in Missing(g, ids) <==> x in ids && x !in g.rows { MissingMeans(g, ids, x); }
    if Missing(g, ids) != [] { assert Missing(g, ids)[0] in Missing(g, ids); }
  }

  /** DELETE, PLAINLY: the refusals in their order, and the rows that go. */
  lemma {:induction false} DeletePlainly(st: State, r: DeleteReq, cited: map<Id, Stamp>)
    requires Sound(st)
    ensures var out := Delete(st, r, cited);
            if r.ids == [] || "" in r.ids || (r.expected.Some? && TwoNamed(r.ids)) then out == Refused(Invalid)
            else if SomeMissing(st.g, r.ids) then
              out.Refused? && out.why.NotFound? && forall x :: x in out.why.ids <==> x in r.ids && x !in st.g.rows
            else if r.expected.Some? &&
                r.expected.value != st.g.rows[r.ids[0]].version then out == Refused(VersionMismatch)
            else if !r.cascade && !r.force && SomeDependedOn(st.g, r.ids) then
              && out.Refused? && out.why.DependentsOutside? && out.why.id in r.ids
              && forall s :: s in out.why.dependents <==> (s, out.why.id) in st.g.edges && s !in r.ids
            else if r.cascade && |Going(st.g, r)| > 10000 then out == Refused(Runaway)
            else out.Ok? && out.value.g.rows.Keys == st.g.rows.Keys - Going(st.g, r)
  {
    ManyNamed(r.ids);
    MissingIs(st.g, r.ids);
    if SomeMissing(st.g, r.ids) {
      forall x ensures x in Missing(st.g, r.ids) <==> x in r.ids && x !in st.g.rows { MissingMeans(st.g, r.ids, x); }
    } else {
      GuardMeans(st.g, r.ids);
      GoingIs(st, r);
    }
  }

  /** THE REPORT COUNTS: rows gone, edges that had an end gone, and surviving rows restamped. */
  lemma {:induction false} ReportMeans(st: State, r: DeleteReq, cited: map<Id, Stamp>)
    requires Sound(st) && Delete(st, r, cited).Ok?
    ensures var report, out, gone := Report(st, r, cited), Delete(st, r, cited).value, Going(st.g, r);
            && report.deleted == |st.g.rows.Keys| - |out.g.rows.Keys|
            && report.dependencies == |set e | e in st.g.edges && (e.0 in gone || e.1 in gone)|
            && report.references == |set x | x in out.g.rows && x in cited && Neighbour(st.g, gone, x)|
  {
    DeletePlainly(st, r, cited);
    MissingIs(st.g, r.ids);
    GoingIs(st, r);
    CountsMean(st.g, Going(st.g, r), cited.Keys, Delete(st, r, cited).value.g.rows.Keys);
  }

  lemma {:induction false} CountsMean(g: Graph, gone: set<Id>, cited: set<Id>, left: set<Id>)
    requires WellFormed(g) && gone <= g.rows.Keys && left == g.rows.Keys - gone
    ensures |gone| == |g.rows.Keys| - |left|
    ensures Touching(g, gone) == set e | e in g.edges && (e.0 in gone || e.1 in gone)
    ensures Bordering(g, gone) * cited == set x | x in left && x in cited && Neighbour(g, gone, x)
  {
    Difference(g.rows.Keys, gone);
    forall x ensures x in Bordering(g, gone) <==> x in left && Neighbour(g, gone, x) { BorderMeans(g, gone, x); }
  }

  /** An edge joins it to a removed row, either way. */
  ghost predicate Neighbour(g: Graph, gone: set<Id>, x: Id) {
    exists y :: y in gone && ((x, y) in g.edges || (y, x) in g.edges)
  }

  lemma {:induction false} BorderMeans(g: Graph, gone: set<Id>, x: Id)
    requires WellFormed(g)
    ensures x in Bordering(g, gone) <==> x in g.rows && x !in gone && Neighbour(g, gone, x)
  {
    if x in g.rows && x !in gone && Neighbour(g, gone, x) {
      var y :| y in gone && ((x, y) in g.edges || (y, x) in g.edges);
      assert (x, y).0 == x && (y, x).1 == x;
    }
    if x in Bordering(g, gone) {
      if e :| e in g.edges && e.0 in gone && e.1 !in gone && e.1 in g.rows && e.1 == x {
        assert (e.0, x) in g.edges;
      } else {
        var e :| e in g.edges && e.1 in gone && e.0 !in gone && e.0 == x;
        assert (x, e.1) in g.edges;
      }
    }
  }

  lemma {:induction false} Difference(a: set<Id>, b: set<Id>)
    requires b <= a
    ensures |a - b| == |a| - |b|
  {
    assert a == (a - b) + b;
  }

  lemma {:induction false} NamedAreRows(st: State, r: DeleteReq)
    requires WellFormed(st.g) && forall x :: x in r.ids ==> x in st.g.rows
    ensures Doomed(st.g, r) <= st.g.rows.Keys
  {
    forall y ensures y in Members(r.ids) <==> y in r.ids { }
    if r.cascade {
      forall u, v | (u, v) in Dependents(st.g) && u in st.g.rows.Keys
          ensures v in st.g.rows.Keys { assert (v, u) in st.g.edges; }
      ReachSetLeast(Dependents(st.g), Members(r.ids), st.g.rows.Keys);
    }
  }

  lemma {:induction false} ManyNamed(ids: seq<Id>)
    ensures |Members(ids)| > 1 <==> exists x, y :: x in ids && y in ids && x != y
  {
    forall y ensures y in Members(ids) <==> y in ids { }
    if x, y :| x in ids && y in ids && x != y {
      SubsetSize({x, y}, Members(ids));
    } else if ids != [] {
      forall y | y in ids ensures y == ids[0] { assert ids[0] in ids; }
      assert Members(ids) == {ids[0]} by { assert ids[0] in Members(ids); }
    }
  }
}
