/** What the items of a batch do, read off the request: which row each addresses, which guards
    it had to meet, and that it is the single verb with the item's own arguments. */
module ItemVerbs {

  import opened Digraph
  import opened IssueGraph
  import opened Edits
  import opened Flags
  import opened Identity
  import opened Results
  import opened Verbs
  import opened BatchPlan
  import opened Batch
  import opened Runs
  import opened Histories
  import opened Endings
  import opened Reading
  import opened Acceptance
  import opened RowVerbs
  import opened BatchStore

  /** The ref names this row: by its id, or by the key an earlier create bound to it. */
  ghost predicate Addresses(ran: Ran, ref: Ref, x: Id) {
    if ref.key == "" then x == ref.id else ref.key in ran.keys && ran.keys[ref.key] == x
  }

  /** A landed item met every guard it carries, on the row it addresses, as that row stood
      just before the item. */
  ghost predicate MetGuards(item: Item, row: Row) {
    match item
    case UpdateItem(_, _, expected, expectStatus, expectAssignee, _, _) =>
      && (expected.Some? ==> row.version == expected.value) && (expectStatus.Some? ==> row.status == expectStatus.value)
      && (expectAssignee.Some? ==> SameActor(row.assignee, expectAssignee.value))
    case CloseItem(_, expected, _) => expected.Some? ==> row.version == expected.value
    case _ => true
  }

  lemma {:induction false} UpdateMetGuards(cfg: Config, st: State, r: UpdateReq, at: Stamp)
    requires Update(cfg, st, r, at).Ok?
    ensures r.id in st.g.rows
    ensures var row := st.g.rows[r.id];
            && (r.expected.Some? ==> row.version == r.expected.value)
            && (r.expectStatus.Some? ==> row.status == r.expectStatus.value)
            && (r.expectAssignee.Some? ==> SameActor(row.assignee, r.expectAssignee.value))
  {
    if r.expectAssignee.Some? && r.id in st.g.rows {
      MatchIsSameActor(st.g.rows[r.id].assignee, r.expectAssignee.value);
    }
  }

  /** EVERY GUARD WAS READ. If a batch lands its first i + 1 items, the row that item i
      addresses met, in the state just before it, the version, status and assignee it
      expects. */
  lemma {:induction false} LandedMetGuards(cfg: Config, env: Env, r: BatchReq, st: State, i: nat)
    requires Supplies(env, r) && i < |r.items| && (r.items[i].UpdateItem? || r.items[i].CloseItem?)
    requires ApplyItems(cfg, env, r, st, i + 1).Ok?
    ensures ApplyItems(cfg, env, r, st, i).Ok?
    ensures var ran, done := ApplyItems(cfg, env, r, st, i).value, ApplyItems(cfg, env, r, st, i + 1).value;
            && |done.results| == |ran.results| + 1
            && var x := done.results[|ran.results|].issue;
               Addresses(ran, r.items[i].target, x) && x in ran.st.g.rows && MetGuards(r.items[i], ran.st.g.rows[x])
  {
    var ran := ApplyItems(cfg, env, r, st, i).value;
    assert ApplyItems(cfg, env, r, st, i + 1) == ApplyItem(cfg, env, r, ran, i);
    ItemMetGuards(cfg, env, r, ran, i);
  }

  lemma {:induction false} ItemMetGuards(cfg: Config, env: Env, r: BatchReq, ran: Ran, i: nat)
    requires Supplies(env, r) && i < |r.items| && (r.items[i].UpdateItem? || r.items[i].CloseItem?)
    requires ApplyItem(cfg, env, r, ran, i).Ok?
    ensures var done := ApplyItem(cfg, env, r, ran, i).value;
            && |done.results| == |ran.results| + 1
            && var x := done.results[|ran.results|].issue;
               Addresses(ran, r.items[i].target, x) && x in ran.st.g.rows && MetGuards(r.items[i], ran.st.g.rows[x])
  {
    var x := Resolve(ran.keys, r.items[i].target).value;
    if r.items[i].UpdateItem? { UpdateMetGuards(cfg, ran.st, AsUpdate(r.actor, r.items[i], x), env.at[i]); }
  }

  // ---------------------------------------------------------------- each item is its verb

  /** An update item is the update of the row it addresses, argument by argument. */
  lemma {:induction false} UpdateItemIs(cfg: Config, env: Env, r: BatchReq, ran: Ran, i: nat, x: Id, q: UpdateReq)
    requires Supplies(env, r) && i < |r.items| && r.items[i].UpdateItem? && Addresses(ran, r.items[i].target, x)
    requires q.id == x && q.actor == r.actor && q.patch == r.items[i].patch && q.expected == r.items[i].expected
    requires q.expectStatus == r.items[i].expectStatus && q.expectAssignee == r.items[i].expectAssignee
    requires q.forceTransfer == r.items[i].forceTransfer && q.forceClose == r.items[i].forceClose
    ensures var out := Update(cfg, ran.st, q, env.at[i]);
            ApplyItem(cfg, env, r, ran, i) ==
            if out.Refused? then Refused(out.why)
            else Ok(ran.(st := out.value, results := ran.results + [ItemResult(x, out.value != ran.st)]))
  {
    assert q == AsUpdate(r.actor, r.items[i], x);
  }

  lemma {:induction false} CloseItemIs(cfg: Config, env: Env, r: BatchReq, ran: Ran, i: nat, x: Id, q: CloseReq)
    requires Supplies(env, r) && i < |r.items| && r.items[i].CloseItem? && Addresses(ran, r.items[i].target, x)
    requires q.id == x && q.actor == r.actor && q.force == r.items[i].force && q.expected == r.items[i].expected
    ensures var out := Close(ran.st, q, env.at[i]);
            ApplyItem(cfg, env, r, ran, i) ==
            if out.Refused? then Refused(out.why)
            else Ok(ran.(st := out.value, results := ran.results + [ItemResult(x, out.value != ran.st)]))
  {
    assert q == CloseReq(x, r.actor, r.items[i].force, r.items[i].expected);
  }

  /** A create item creates one bare row, under its own id or the one the store gives it, and
      binds its key to that row. */
  lemma {:induction false} CreateItemIs(cfg: Config, env: Env, r: BatchReq, ran: Ran, i: nat, x: Id)
    requires Supplies(env, r) && i < |r.items| && r.items[i].CreateItem?
    requires x == if r.items[i].id == "" then env.minted[i] else r.items[i].id
    ensures var item, out := r.items[i], Create(cfg, ran.st, CreateReq(x, r.items[i].row, []));
            ApplyItem(cfg, env, r, ran, i) ==
            if out.Refused? then Refused(out.why)
            else Ok(Ran(out.value, if item.key == "" then ran.keys else ran.keys[item.key := x],
                        ran.planes[x := item.row.plane], ran.edges, ran.results + [ItemResult(x, true)]))
  {
  }

  /** AN EDGE ITEM, PLAINLY: two rows it addresses; refused when they are one, or two this batch
      made on different planes; otherwise exactly the editor's checks of that one edge. */
  lemma {:induction false} DepAddItemIs(cfg: Config, env: Env, r: BatchReq, ran: Ran, i: nat, x: Id, y: Id)
    requires Supplies(env, r) && i < |r.items| && r.items[i].DepAddItem?
    requires Addresses(ran, r.items[i].source, x) && Addresses(ran, r.items[i].target, y)
    ensures var item, out := r.items[i], ApplyItem(cfg, env, r, ran, i);
            var e := EdgeReq(x, y, item.kind, item.gate);
            if x == y then out == Refused(SelfDependency)
            else if x in ran.planes && y in ran.planes && ran.planes[x] != ran.planes[y] then out == Refused(CrossPlane)
            else if Insert(ran.st.g, e, r.skip).Refused? then out == Refused(Insert(ran.st.g, e, r.skip).why)
            else out.Ok? || out == Refused(Endless)
    ensures var item, out := r.items[i], ApplyItem(cfg, env, r, ran, i);
            out.Ok? ==>
              && out.value.edges == ran.edges + [EdgeReq(x, y, item.kind, item.gate)]
              && out.value.st.g == Graph(ran.st.g.rows, ran.st.g.edges[(x, y) := Edge(item.kind, item.gate)])
              && out.value.keys == ran.keys && out.value.planes == ran.planes
              && out.value.results == ran.results + [ItemResult(x, (x, y) !in ran.st.g.edges)]
  {
  }

  // ---------------------------------------------------------------- the batch

  /** A GUARD THAT FAILS REFUSES THE BATCH: a planned item that reaches its row and finds
      another version than it expects is refused for that, and nothing is kept. */
  lemma {:induction false} StaleGuardRefuses(cfg: Config, env: Env, r: BatchReq, st: State, i: nat, x: Id)
    requires Supplies(env, r) && WellPlanned(r.actor, r.items) && i < |r.items| && ApplyItems(cfg, env, r, st, i).Ok?
    requires r.items[i].UpdateItem? || r.items[i].CloseItem?
    requires r.items[i].UpdateItem? && r.items[i].forceTransfer ==>
             r.items[i].patch.assignee.Some? && r.items[i].expectAssignee.None?
    requires var ran := ApplyItems(cfg, env, r, st, i).value;
             && Addresses(ran, r.items[i].target, x) && x != "" && x in ran.st.g.rows
             && r.items[i].expected.Some? && r.items[i].expected.value != ran.st.g.rows[x].version
    ensures ApplyBatch(cfg, env, st, r) == Refused(VersionMismatch)
  {
    var ran := ApplyItems(cfg, env, r, st, i).value;
    StaleItemRefuses(cfg, env, r, ran, i, x);
    assert Stepper(cfg, env, r)(ran, i) == ApplyItem(cfg, env, r, ran, i);
    RefusalEnds(Stepper(cfg, env, r), Start(st), i, |r.items|, ran, VersionMismatch);
  }

  lemma {:induction false} StaleItemRefuses(cfg: Config, env: Env, r: BatchReq, ran: Ran, i: nat, x: Id)
    requires Supplies(env, r) && WellPlanned(r.actor, r.items) && i < |r.items|
    requires r.items[i].UpdateItem? || r.items[i].CloseItem?
    requires r.items[i].UpdateItem? && r.items[i].forceTransfer ==>
             r.items[i].patch.assignee.Some? && r.items[i].expectAssignee.None?
    requires Addresses(ran, r.items[i].target, x) && x != "" && x in ran.st.g.rows
    requires r.items[i].expected.Some? && r.items[i].expected.value != ran.st.g.rows[x].version
    ensures ApplyItem(cfg, env, r, ran, i) == Refused(VersionMismatch)
  {
    assert ItemPlanned(r.items, i);
  }

  lemma {:induction false} RefusalEnds(step: Step, start: Ran, i: nat, n: nat, ran: Ran, why: Refusal)
    requires Fold(step, start, i) == Ok(ran) && step(ran, i) == Refused(why) && i < n
    ensures Fold(step, start, n) == Refused(why)
  {
    RefusalStays(step, start, i + 1, n);
  }

  /** EVERY METADATA REF IS SPLICED: after an accepted batch each create's row holds, under each
      name the item gives, the id of the row its ref addresses. */
  lemma {:induction false} SpliceMeans(cfg: Config, env: Env, st: State, r: BatchReq, i: nat, name: string)
    requires Supplies(env, r) && NonEmptyIds(env) && WellPlanned(r.actor, r.items) && ApplyBatch(cfg, env, st, r).Ok?
    requires i < |r.items| && r.items[i].CreateItem? && name in r.items[i].refs
    ensures var out := ApplyBatch(cfg, env, st, r).value;
            && |out.results| == |r.items| && out.results[i].issue in out.st.g.rows
            && var row := out.st.g.rows[out.results[i].issue];
               name in row.metadata && Addresses(out, r.items[i].refs[name], row.metadata[name])
  {
    var ran, order := ApplyItems(cfg, env, r, st, |r.items|).value, SpliceOrder(r, |r.items|);
    SpliceLands(cfg, env, st, r);
    assert Splices(r, i) && i in order;
    SplicedName(cfg, env, r, ran, order, i, name);
  }

  lemma {:induction false} SplicedName(cfg: Config, env: Env, r: BatchReq, ran: Ran, order: seq<nat>, i: nat,
                                       name: string)
    requires Supplies(env, r) && Spliceable(r, ran, ran.st, order) && SpliceAll(cfg, env, r, ran, ran.st, order).Ok?
    requires i in order && name in r.items[i].refs
    ensures var out, x := SpliceAll(cfg, env, r, ran, ran.st, order).value, ran.results[i].issue;
            && x in out.g.rows && name in out.g.rows[x].metadata
            && Addresses(ran, r.items[i].refs[name], out.g.rows[x].metadata[name])
  {
    SpliceAllExact(cfg, env, r, ran, ran.st, order);
    var row := ran.st.g.rows[ran.results[i].issue];
    NameLeft(env, r, ran, i, row, name);
    assert SpliceAll(cfg, env, r, ran, ran.st, order).value.g.rows[ran.results[i].issue] ==
      SplicedRowAt(env, r, ran, i, row);
  }

  lemma {:induction false} NameLeft(env: Env, r: BatchReq, ran: Ran, i: nat, row: Row, name: string)
    requires Supplies(env, r) && Splices(r, i) && RefsBound(r, ran, i) && name in r.items[i].refs
    ensures var left := SplicedRowAt(env, r, ran, i, row);
            name in left.metadata && Addresses(ran, r.items[i].refs[name], left.metadata[name])
  {
    var p := SplicePatch(ran.keys, r.items[i].refs);
    PatchIs(row, p);
    assert name in p.put;
  }

  // ---------------------------------------------------------------- the end gate

  /** The edge lies on a walk of stored scheduling edges that comes back to it. */
  ghost predicate OnLoop(g: Graph, e: EdgeReq) {
    e.kind in SCHEDULING_KINDS && Reaches(Pairs(g, [], SCHEDULING_KINDS), e.target, e.source)
  }

  ghost predicate BlocksAncestor(g: Graph, e: EdgeReq) {
    && e.kind in BLOCKING_KINDS && Local(e.source, e.target) && e.source != e.target
    && Reaches(Pairs(g, [], {ParentChild}), e.source, e.target)
  }

  ghost predicate BlocksDescendant(g: Graph, e: EdgeReq) {
    && e.kind in BLOCKING_KINDS && Local(e.source, e.target) && e.source != e.target
    && Reaches(Pairs(g, [], {ParentChild}), e.target, e.source)
  }

  lemma {:induction false} ConflictsAre(g: Graph, e: EdgeReq)
    ensures OnLoop(g, e) <==> CycleConflict(g, e)
    ensures BlocksAncestor(g, e) <==> AncestorConflict(g, e)
    ensures BlocksDescendant(g, e) <==> DescendantConflict(g, e)
  {
    KindsAre(e.kind);
    LocalIs(e.source, e.target);
    StoredPairs(g);
  }

  /** The first of the edges that blocks across its own hierarchy. */
  ghost predicate FirstCrossing(g: Graph, es: seq<EdgeReq>, i: int) {
    && 0 <= i < |es| && (BlocksAncestor(g, es[i]) || BlocksDescendant(g, es[i]))
    && (forall e :: e in es[..i] ==> !BlocksAncestor(g, e) && !BlocksDescendant(g, e))
  }

  ghost predicate SomeLoop(g: Graph, es: seq<EdgeReq>) {
    exists e :: e in es && OnLoop(g, e)
  }

  /** THE GATE, PLAINLY. A batch whose items and splices landed is refused for a cycle if an edge
      it wrote lies on one in the finished graph, whatever else is wrong; otherwise for the
      first edge it wrote that blocks an ancestor, or a descendant; otherwise it lands. */
  lemma {:induction false} GatePlainly(cfg: Config, env: Env, st: State, r: BatchReq, ran: Ran, next: State)
    requires Supplies(env, r) && WellPlanned(r.actor, r.items) && ApplyItems(cfg, env, r, st, |r.items|) == Ok(ran)
    requires |ran.results| == |r.items|
    requires SpliceAll(cfg, env, r, ran, ran.st, SpliceOrder(r, |r.items|)) == Ok(next)
    ensures var out := ApplyBatch(cfg, env, st, r);
            if SomeLoop(next.g, ran.edges) then out == Refused(Cycle)
            else if i :| FirstCrossing(next.g, ran.edges, i) then
              out == Refused(HierarchyConflict(BlocksAncestor(next.g, ran.edges[i])))
            else out == Ok(ran.(st := next))
  {
    GateReads(next.g, ran.edges);
  }

  lemma {:induction false} GateReads(h: Graph, es: seq<EdgeReq>)
    ensures SomeLoop(h, es) ==> GateRefuses(h, es) && GateRefusal(h, es) == Cycle
    ensures forall i :: !SomeLoop(h, es) && FirstCrossing(h, es, i) ==>
              GateRefuses(h, es) && GateRefusal(h, es) == HierarchyConflict(BlocksAncestor(h, es[i]))
    ensures !SomeLoop(h, es) && (forall i :: !FirstCrossing(h, es, i)) ==> !GateRefuses(h, es)
  {
    forall e ensures OnLoop(h, e) <==> CycleConflict(h, e) { ConflictsAre(h, e); }
    forall e ensures BlocksAncestor(h, e) <==> AncestorConflict(h, e) { ConflictsAre(h, e); }
    forall e ensures BlocksDescendant(h, e) <==> DescendantConflict(h, e) { ConflictsAre(h, e); }
    forall i | FirstCrossing(h, es, i)
      ensures !Rechecked(h, es) && FirstConflict(h, es) == HierarchyConflict(BlocksAncestor(h, es[i]))
    {
      FirstConflictAt(h, es, i);
    }
    if !Rechecked(h, es) { var _ := FirstIs(h, es); }
  }

  lemma {:induction false} FirstIs(h: Graph, es: seq<EdgeReq>) returns (i: nat)
    requires exists e :: e in es && (BlocksAncestor(h, e) || BlocksDescendant(h, e))
    ensures FirstCrossing(h, es, i)
  {
    i := 0;
    assert es[..|es|] == es;
    while !(BlocksAncestor(h, es[i]) || BlocksDescendant(h, es[i]))
      invariant i < |es| && forall e :: e in es[..i] ==> !BlocksAncestor(h, e) && !BlocksDescendant(h, e)
      decreases |es| - i
    {
      assert es[..i + 1] == es[..i] + [es[i]];
      i := i + 1;
    }
  }
}
