/** The batch applied to the store in place: one transaction over the single verbs. */
module BatchStore {

  import opened Digraph
  import opened IssueGraph
  import opened Affected
  import opened Edits
  import opened Flags
  import opened Results
  import opened Verbs
  import opened BatchPlan
  import opened Batch
  import opened Store

  /** What a run accumulates beside the store itself. */
  datatype Progress = Progress(keys: map<string, Id>, planes: map<Id, Plane>, edges: seq<EdgeReq>,
                               results: seq<ItemResult>)

  ghost function AsRan(st: State, p: Progress): Ran {
    Ran(st, p.keys, p.planes, p.edges, p.results)
  }

  // ---------------------------------------------------------------- one item

  method RunEdge(store: IssueStore, e: EdgeReq, skip: bool, p: Progress) returns (refusal: Option<Refusal>, q: Progress)
    requires store.Valid()
    modifies store
    ensures store.Valid()
    ensures refusal.None? ==> ApplyEdge(AsRan(old(store.View()), p), e, skip) == Ok(AsRan(store.View(), q))
    ensures refusal.Some? ==> ApplyEdge(AsRan(old(store.View()), p), e, skip) == Refused(refusal.value)
  {
    q := p;
    if e.source == e.target { return Some(SelfDependency), q; }
    if e.source in p.planes && e.target in p.planes &&
        p.planes[e.source] != p.planes[e.target] { return Some(CrossPlane), q; }
    var isNew := (e.source, e.target) !in store.edges;
    refusal := store.InsertOne(e, skip);
    if refusal.Some? { return; }
    q := p.(edges := p.edges + [e], results := p.results + [ItemResult(e.source, isNew)]);
  }

  method RunCreate(store: IssueStore, cfg: Config, env: Env, item: Item, i: nat, p: Progress)
      returns (refusal: Option<Refusal>, q: Progress)
    requires store.Valid() && item.CreateItem? && i < |env.minted|
    modifies store
    ensures store.Valid()
    ensures refusal.None? ==> ApplyCreate(cfg, env, AsRan(old(store.View()), p), item, i) == Ok(AsRan(store.View(), q))
    ensures refusal.Some? ==> ApplyCreate(cfg, env, AsRan(old(store.View()), p), item, i) == Refused(refusal.value)
  {
    q := p;
    var id := NewId(env, item, i);
    refusal := store.Create(cfg, CreateReq(id, item.row, []));
    if refusal.Some? { return; }
    q := Progress(if item.key == "" then p.keys else p.keys[item.key := id], p.planes[id := item.row.plane],
                  p.edges, p.results + [ItemResult(id, true)]);
  }

  method RunUpdate(store: IssueStore, cfg: Config, actor: string, item: Item, i: nat, at: Stamp, p: Progress)
      returns (refusal: Option<Refusal>, q: Progress)
    requires store.Valid() && item.UpdateItem?
    modifies store
    ensures store.Valid()
    ensures refusal.None? ==>
            ApplyUpdate(cfg, AsRan(old(store.View()), p), actor, item, i, at) == Ok(AsRan(store.View(), q))
    ensures refusal.Some? ==>
            ApplyUpdate(cfg, AsRan(old(store.View()), p), actor, item, i, at) == Refused(refusal.value)
  {
    q := p;
    var id := Batch.Resolve(p.keys, item.target);
    if id.None? { return Some(RefError(i, item.target.key, false)), q; }
    var before := store.View();
    refusal := store.Update(cfg, AsUpdate(actor, item, id.value), at);
    if refusal.None? { q := p.(results := p.results + [ItemResult(id.value, store.View() != before)]); }
  }

  method RunClose(store: IssueStore, actor: string, item: Item, i: nat, at: Stamp, p: Progress)
      returns (refusal: Option<Refusal>, q: Progress)
    requires store.Valid() && item.CloseItem?
    modifies store
    ensures store.Valid()
    ensures refusal.None? ==> ApplyClose(AsRan(old(store.View()), p), actor, item, i, at) == Ok(AsRan(store.View(), q))
    ensures refusal.Some? ==> ApplyClose(AsRan(old(store.View()), p), actor, item, i, at) == Refused(refusal.value)
  {
    q := p;
    var id := Batch.Resolve(p.keys, item.target);
    if id.None? { return Some(RefError(i, item.target.key, false)), q; }
    var before := store.View();
    refusal := store.Close(CloseReq(id.value, actor, item.force, item.expected), at);
    if refusal.None? { q := p.(results := p.results + [ItemResult(id.value, store.View() != before)]); }
  }

  method RunItem(store: IssueStore, cfg: Config, env: Env, r: BatchReq, i: nat, p: Progress)
      returns (refusal: Option<Refusal>, q: Progress)
    requires store.Valid() && Supplies(env, r) && i < |r.items|
    modifies store
    ensures store.Valid()
    ensures refusal.None? ==> ApplyItem(cfg, env, r, AsRan(old(store.View()), p), i) == Ok(AsRan(store.View(), q))
    ensures refusal.Some? ==> ApplyItem(cfg, env, r, AsRan(old(store.View()), p), i) == Refused(refusal.value)
  {
    match r.items[i]
    case CreateItem(_, _, _, _) => refusal, q := RunCreate(store, cfg, env, r.items[i], i, p);
    case UpdateItem(_, _, _, _, _, _, _) => refusal, q := RunUpdate(store, cfg, r.actor, r.items[i], i, env.at[i], p);
    case CloseItem(_, _, _) => refusal, q := RunClose(store, r.actor, r.items[i], i, env.at[i], p);
    case DepAddItem(s, t, kind, gate) =>
      q := p;
      var source, target := Batch.Resolve(p.keys, s), Batch.Resolve(p.keys, t);
      if source.None? { return Some(RefError(i, s.key, false)), q; }
      if target.None? { return Some(RefError(i, t.key, false)), q; }
      refusal, q := RunEdge(store, EdgeReq(source.value, target.value, kind, gate), r.skip, p);
  }

  // ---------------------------------------------------------------- the request

  /** One item is one step of the fold. */
  method RunStep(store: IssueStore, cfg: Config, env: Env, r: BatchReq, i: nat, p: Progress, ghost step: Step)
      returns (refusal: Option<Refusal>, q: Progress)
    requires store.Valid() && Supplies(env, r) && IsStep(step, cfg, env, r) && i < |r.items|
    modifies store
    ensures store.Valid()
    ensures step(AsRan(old(store.View()), p), i) ==
            if refusal.Some? then Refused(refusal.value) else Ok(AsRan(store.View(), q))
  {
    ghost var was := AsRan(store.View(), p);
    refusal, q := RunItem(store, cfg, env, r, i, p);
    assert step(was, i) == ApplyItem(cfg, env, r, was, i);
  }

  /** The items in order; done counts those that landed. */
  method RunItems(store: IssueStore, cfg: Config, env: Env, r: BatchReq, ghost step: Step)
      returns (refusal: Option<Refusal>, p: Progress, done: nat)
    requires store.Valid() && Supplies(env, r) && IsStep(step, cfg, env, r)
    modifies store
    ensures refusal.None? ==>
              done == |r.items| && store.Valid() &&
                  Fold(step, Start(old(store.View())), done) == Ok(AsRan(store.View(), p))
    ensures refusal.Some? ==> done < |r.items| && Fold(step, Start(old(store.View())), done).Ok?
    ensures refusal.Some? ==> Fold(step, Start(old(store.View())), done + 1) == Refused(refusal.value)
  {
    ghost var st := store.View();
    p := Progress(map[], map[], [], []);
    done := 0;
    var i := 0;
    while i < |r.items|
      invariant 0 <= i <= |r.items| && store.Valid() && Fold(step, Start(st), i) == Ok(AsRan(store.View(), p))
    {
      done := i;
      refusal, p := RunStep(store, cfg, env, r, i, p, step);
      if refusal.Some? { return; }
      i := i + 1;
    }
    done := i;
    refusal := None;
  }

  lemma {:induction false} RefusalStays(step: Step, start: Ran, i: nat, n: nat)
    requires i <= n && Fold(step, start, i).Refused?
    ensures Fold(step, start, n) == Fold(step, start, i)
    decreases n
  {
    if i < n { RefusalStays(step, start, i, n - 1); }
  }

  /** One splice in place. */
  method RunSplice(store: IssueStore, cfg: Config, env: Env, r: BatchReq, p: Progress, ghost ran: Ran, j: nat)
      returns (refusal: Option<Refusal>)
    requires store.Valid() && Supplies(env, r) && |p.results| == |r.items| && Splices(r, j)
    requires ran.results == p.results && ran.keys == p.keys
    modifies store
    ensures store.Valid() &&
            Did(old(store.View()), SpliceOne(cfg, env, r, ran, old(store.View()), j), refusal, store.View())
  {
    var patch := SplicePatch(p.keys, r.items[j].refs);
    refusal := store.Update(cfg, UpdateReq(p.results[j].issue, r.actor, patch, None, None, None, false, false),
        env.splicedAt[j]);
  }

  method RunSplices(store: IssueStore, cfg: Config, env: Env, r: BatchReq, p: Progress, ghost ran: Ran)
      returns (refusal: Option<Refusal>)
    requires store.Valid() && Supplies(env, r) && |p.results| == |r.items| && ran == AsRan(store.View(), p)
    modifies store
    ensures store.Valid()
    ensures refusal.None? ==>
            SpliceAll(cfg, env, r, ran, old(store.View()), SpliceOrder(r, |r.items|)) == Ok(store.View())
    ensures refusal.Some? ==>
            SpliceAll(cfg, env, r, ran, old(store.View()), SpliceOrder(r, |r.items|)) == Refused(refusal.value)
  {
    var order := SpliceOrder(r, |r.items|);
    ghost var st := store.View();
    var i := 0;
    while i < |order|
      invariant 0 <= i <= |order| && store.Valid()
      invariant forall j :: j in order[i..] ==> Splices(r, j)
      invariant SpliceAll(cfg, env, r, ran, st, order) == SpliceAll(cfg, env, r, ran, store.View(), order[i..])
    {
      var j := order[i];
      assert j in order && order[i..][1..] == order[i + 1..] && order[i..][0] == j;
      refusal := RunSplice(store, cfg, env, r, p, ran, j);
      if refusal.Some? { return; }
      i := i + 1;
    }
    refusal := None;
  }

  method EndGate(store: IssueStore, es: seq<EdgeReq>) returns (refusal: Option<Refusal>)
    ensures refusal == if GateRefuses(store.G(), es) then Some(GateRefusal(store.G(), es)) else None
  {
    refusal := store.FinalGate(es);
    if refusal.Some? { return; }
    var i := 0;
    while i < |es|
      invariant 0 <= i <= |es| && refusal.None? && Rechecked(store.G(), es[..i])
    {
      refusal := store.HierarchyRefusal(es[i]);
      if refusal.Some? {
        FirstConflictAt(store.G(), es, i);
        return;
      }
      i := i + 1;
    }
    assert es[..i] == es;
  }

  /** The second half of the transaction: the splices and the gate. */
  method Finish(store: IssueStore, cfg: Config, env: Env, r: BatchReq, p: Progress, ghost st: State)
      returns (refusal: Option<Refusal>)
    requires store.Valid() && Supplies(env, r) && WellPlanned(r.actor, r.items) && |p.results| == |r.items|
    requires ApplyItems(cfg, env, r, st, |r.items|) == Ok(AsRan(store.View(), p))
    modifies store
    ensures refusal.None? ==> store.Valid() && ApplyBatch(cfg, env, st, r) == Ok(AsRan(store.View(), p))
    ensures refusal.Some? ==> ApplyBatch(cfg, env, st, r) == Refused(refusal.value)
  {
    refusal := RunSplices(store, cfg, env, r, p, AsRan(store.View(), p));
    if refusal.None? { refusal := EndGate(store, p.edges); }
  }

  lemma {:induction false} RefusedItems(cfg: Config, env: Env, r: BatchReq, st: State, done: nat)
    requires Supplies(env, r) && WellPlanned(r.actor, r.items) && done < |r.items|
    requires Fold(Stepper(cfg, env, r), Start(st), done + 1).Refused?
    ensures ApplyBatch(cfg, env, st, r) == Refused(Fold(Stepper(cfg, env, r), Start(st), done + 1).why)
  {
    RefusalStays(Stepper(cfg, env, r), Start(st), done + 1, |r.items|);
  }

  /** The transaction's body for a planned request; a refusal leaves what was written so far.
      landed counts the items that were applied. */
  method RunPlanned(store: IssueStore, cfg: Config, env: Env, r: BatchReq)
      returns (refusal: Option<Refusal>, p: Progress, landed: nat)
    requires store.Valid() && Supplies(env, r) && NonEmptyIds(env) && WellPlanned(r.actor, r.items)
    modifies store
    ensures refusal.None? ==> store.Valid() && ApplyBatch(cfg, env, old(store.View()), r) == Ok(AsRan(store.View(), p))
    ensures refusal.Some? ==> ApplyBatch(cfg, env, old(store.View()), r) == Refused(refusal.value)
    ensures landed <= |r.items| && ApplyItems(cfg, env, r, old(store.View()), landed).Ok?
    ensures landed < |r.items| ==>
            refusal.Some? && ApplyItems(cfg, env, r, old(store.View()), landed + 1).Refused?
  {
    ghost var st, step := store.View(), Stepper(cfg, env, r);
    StepperSteps(cfg, env, r);
    refusal, p, landed := RunItems(store, cfg, env, r, step);
    if refusal.None? {
      ResultPerItem(step, cfg, env, r, st, |r.items|);
      refusal := Finish(store, cfg, env, r, p, st);
    } else {
      RefusedItems(cfg, env, r, st, landed);
    }
  }

  /** ALL OR NOTHING. The planner, the items in declared order, the splices, the gate: any
      refusal, at any item or at the gate, leaves the store exactly as it was; an accepted
      request leaves exactly the specified state, with one result per item. The refusal is
      the specified one, and landed names the item it fell on. */
  method ApplyBatchInTx(store: IssueStore, cfg: Config, env: Env, r: BatchReq)
      returns (refusal: Option<Refusal>, p: Progress, landed: nat)
    requires store.Valid() && Supplies(env, r) && NonEmptyIds(env)
    modifies store
    ensures store.Valid()
    ensures refusal.None? <==> WellPlanned(r.actor, r.items) && ApplyBatch(cfg, env, old(store.View()), r).Ok?
    ensures refusal.None? ==> ApplyBatch(cfg, env, old(store.View()), r) == Ok(AsRan(store.View(), p))
    ensures refusal.Some? ==> store.View() == old(store.View())
    ensures refusal.Some? && !WellPlanned(r.actor, r.items) ==> Diagnoses(r.actor, r.items, refusal.value)
    ensures refusal.Some? && WellPlanned(r.actor, r.items) ==>
              ApplyBatch(cfg, env, old(store.View()), r) == Refused(refusal.value)
    ensures WellPlanned(r.actor, r.items) && landed < |r.items| ==>
              ApplyItems(cfg, env, r, old(store.View()), landed).Ok? &&
                  ApplyItems(cfg, env, r, old(store.View()), landed + 1).Refused?
  {
    p, landed := Progress(map[], map[], [], []), 0;
    var plan := PlanApplyBatch(r.actor, r.items);
    if plan.Refused? { return Some(plan.why), p, landed; }
    var rows, edges, blocked := store.rows, store.edges, store.blocked;
    refusal, p, landed := RunPlanned(store, cfg, env, r);
    if refusal.Some? { store.rows, store.edges, store.blocked := rows, edges, blocked; }
  }
}
