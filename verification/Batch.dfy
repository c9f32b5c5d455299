/** Applying a planned batch: the items in declaration order against the state as
    already modified, the metadata splice once every id exists, and the end gate. */
module Batch {

  import opened Digraph
  import opened IssueGraph
  import opened Affected
  import opened Edits
  import opened Flags
  import opened Results
  import opened Verbs
  import opened BatchPlan
  import opened Runs

  /** What the store supplies: ids for creates that name none, and stamps. */
  datatype Env = Env(minted: seq<Id>, at: seq<Stamp>, splicedAt: seq<Stamp>)

  datatype BatchReq = BatchReq(actor: string, items: seq<Item>, skip: bool)

  datatype ItemResult = ItemResult(issue: Id, changed: bool)

  /** A request part-way through: keys bound so far, the planes of the rows it created,
      the edges it wrote, one result per item done. */
  datatype Ran = Ran(st: State, keys: map<string, Id>, planes: map<Id, Plane>, edges: seq<EdgeReq>,
                     results: seq<ItemResult>)

  ghost predicate Supplies(env: Env, r: BatchReq) {
    |env.minted| == |env.at| == |env.splicedAt| == |r.items|
  }

  function Resolve(keys: map<string, Id>, r: Ref): Option<Id> {
    if r.key == "" then Some(r.id) else if r.key in keys then Some(keys[r.key]) else None
  }

  function NewId(env: Env, item: Item, i: nat): Id
    requires item.CreateItem? && i < |env.minted|
  {
    if item.id == "" then env.minted[i] else item.id
  }

  // ---------------------------------------------------------------- one item

  ghost function ApplyCreate(cfg: Config, env: Env, ran: Ran, item: Item, i: nat): Outcome<Ran>
    requires item.CreateItem? && i < |env.minted|
  {
    var id := NewId(env, item, i);
    match Create(cfg, ran.st, CreateReq(id, item.row, []))
    case Refused(why) => Refused(why)
    case Ok(st) =>
      Ok(Ran(st, if item.key == "" then ran.keys else ran.keys[item.key := id],
             ran.planes[id := item.row.plane], ran.edges, ran.results + [ItemResult(id, true)]))
  }

  ghost function Wrote(ran: Ran, id: Id, out: Outcome<State>): Outcome<Ran> {
    match out
    case Refused(why) => Refused(why)
    case Ok(st) => Ok(ran.(st := st, results := ran.results + [ItemResult(id, st != ran.st)]))
  }

  ghost function ApplyEdge(ran: Ran, e: EdgeReq, skip: bool): Outcome<Ran> {
    if e.source == e.target then Refused(SelfDependency)
    else if e.source in ran.planes && e.target in ran.planes &&
        ran.planes[e.source] != ran.planes[e.target] then Refused(CrossPlane)
    else
      match Insert(ran.st.g, e, skip)
      case Refused(why) => Refused(why)
      case Ok(h) =>
        if !EdgeSettles(ran.st.g, e, ran.st.blocked) then Refused(Endless)
        else
          Ok(ran.(st := State(h, EdgeFlags(ran.st.g, e, ran.st.blocked)), edges := ran.edges + [e],
                  results := ran.results + [ItemResult(e.source, (e.source, e.target) !in ran.st.g.edges)]))
  }

  function AsUpdate(actor: string, item: Item, id: Id): UpdateReq
    requires item.UpdateItem?
  {
    UpdateReq(id, actor, item.patch, item.expected, item.expectStatus, item.expectAssignee, item.forceTransfer,
        item.forceClose)
  }

  ghost function ApplyUpdate(cfg: Config, ran: Ran, actor: string, item: Item, i: nat, at: Stamp): Outcome<Ran>
    requires item.UpdateItem?
  {
    var id := Resolve(ran.keys, item.target);
    if id.None? then Refused(RefError(i, item.target.key, false))
    else Wrote(ran, id.value, Update(cfg, ran.st, AsUpdate(actor, item, id.value), at))
  }

  ghost function ApplyClose(ran: Ran, actor: string, item: Item, i: nat, at: Stamp): Outcome<Ran>
    requires item.CloseItem?
  {
    var id := Resolve(ran.keys, item.target);
    if id.None? then Refused(RefError(i, item.target.key, false))
    else Wrote(ran, id.value, Close(ran.st, CloseReq(id.value, actor, item.force, item.expected), at))
  }

  ghost function ApplyDepAdd(ran: Ran, item: Item, i: nat, skip: bool): Outcome<Ran>
    requires item.DepAddItem?
  {
    var source, target := Resolve(ran.keys, item.source), Resolve(ran.keys, item.target);
    if source.None? then Refused(RefError(i, item.source.key, false))
    else if target.None? then Refused(RefError(i, item.target.key, false))
    else ApplyEdge(ran, EdgeReq(source.value, target.value, item.kind, item.gate), skip)
  }

  ghost function ApplyItem(cfg: Config, env: Env, r: BatchReq, ran: Ran, i: nat): Outcome<Ran>
    requires Supplies(env, r) && i < |r.items|
  {
    match r.items[i]
    case CreateItem(_, _, _, _) => ApplyCreate(cfg, env, ran, r.items[i], i)
    case UpdateItem(_, _, _, _, _, _, _) => ApplyUpdate(cfg, ran, r.actor, r.items[i], i, env.at[i])
    case CloseItem(_, _, _) => ApplyClose(ran, r.actor, r.items[i], i, env.at[i])
    case DepAddItem(_, _, _, _) => ApplyDepAdd(ran, r.items[i], i, r.skip)
  }

  type Step = (Ran, nat) -> Outcome<Ran>

  /** n steps in order, stopping at the first refusal. */
  ghost function Fold(step: Step, start: Ran, n: nat): Outcome<Ran> {
    if n == 0 then Ok(start)
    else
      match Fold(step, start, n - 1)
      case Refused(why) => Refused(why)
      case Ok(ran) => step(ran, n - 1)
  }

  function Start(st: State): Ran {
    Ran(st, map[], map[], [], [])
  }

  ghost function Stepper(cfg: Config, env: Env, r: BatchReq): Step
    requires Supplies(env, r)
  {
    (ran: Ran, i: nat) => if i < |r.items| then ApplyItem(cfg, env, r, ran, i) else Refused(Invalid)
  }

  ghost predicate IsStep(step: Step, cfg: Config, env: Env, r: BatchReq)
    requires Supplies(env, r)
  {
    forall ran: Ran, i: nat {:trigger ApplyItem(cfg, env, r, ran, i)} :: i < |r.items| ==>
        step(ran, i) == ApplyItem(cfg, env, r, ran, i)
  }

  /** The first n items, in declaration order, against the state as already modified. */
  ghost function ApplyItems(cfg: Config, env: Env, r: BatchReq, st: State, n: nat): Outcome<Ran>
    requires Supplies(env, r)
  {
    Fold(Stepper(cfg, env, r), Start(st), n)
  }

  lemma {:induction false} StepperSteps(cfg: Config, env: Env, r: BatchReq)
    requires Supplies(env, r)
    ensures IsStep(Stepper(cfg, env, r), cfg, env, r)
  {
  }

  // ---------------------------------------------------------------- the splice and the gate

  function Resolved(keys: map<string, Id>, refs: map<string, Ref>): map<string, string> {
    map name | name in refs && Resolve(keys, refs[name]).Some? :: Resolve(keys, refs[name]).value
  }

  function SplicePatch(keys: map<string, Id>, refs: map<string, Ref>): Patch {
    Patch(None, None, None, Resolved(keys, refs), {})
  }

  function SpliceReq(ran: Ran, r: BatchReq, i: nat): UpdateReq
    requires i < |r.items| && i < |ran.results| && r.items[i].CreateItem?
  {
    UpdateReq(ran.results[i].issue, r.actor, SplicePatch(ran.keys, r.items[i].refs), None, None, None, false, false)
  }

  predicate Splices(r: BatchReq, i: nat) {
    i < |r.items| && r.items[i].CreateItem? && r.items[i].refs != map[]
  }

  /** The splice of one create, through the same update a single verb runs. */
  ghost function SpliceOne(cfg: Config, env: Env, r: BatchReq, ran: Ran, st: State, i: nat): Outcome<State>
    requires Supplies(env, r) && Splices(r, i) && |ran.results| == |r.items|
  {
    Update(cfg, st, SpliceReq(ran, r, i), env.splicedAt[i])
  }

  /** The splices of the listed items, in list order. */
  ghost function SpliceAll(cfg: Config, env: Env, r: BatchReq, ran: Ran, st: State, order: seq<nat>): Outcome<State>
    requires Supplies(env, r) && |ran.results| == |r.items|
    requires forall i :: i in order ==> Splices(r, i)
    decreases |order|
  {
    if order == [] then Ok(st)
    else
      assert order[0] in order;
      match SpliceOne(cfg, env, r, ran, st, order[0])
      case Refused(why) => Refused(why)
      case Ok(next) => SpliceAll(cfg, env, r, ran, next, order[1..])
  }

  function SpliceOrder(r: BatchReq, n: nat): (order: seq<nat>)
    requires n <= |r.items|
    ensures forall i: nat :: i in order <==> i < n && Splices(r, i)
  {
    if n == 0 then [] else SpliceOrder(r, n - 1) + (if Splices(r, n - 1) then [n - 1] else [])
  }

  ghost predicate GateRefuses(h: Graph, es: seq<EdgeReq>) {
    FinalCycle(h, es) || !Rechecked(h, es)
  }

  ghost function GateRefusal(h: Graph, es: seq<EdgeReq>): Refusal
    requires GateRefuses(h, es)
  {
    if FinalCycle(h, es) then Cycle else FirstConflict(h, es)
  }

  ghost function ApplyBatch(cfg: Config, env: Env, st: State, r: BatchReq): Outcome<Ran>
    requires Supplies(env, r)
    requires WellPlanned(r.actor, r.items)
  {
    match ApplyItems(cfg, env, r, st, |r.items|)
    case Refused(why) => Refused(why)
    case Ok(ran) =>
      StepperSteps(cfg, env, r);
      ResultPerItem(Stepper(cfg, env, r), cfg, env, r, st, |r.items|);
      match SpliceAll(cfg, env, r, ran, ran.st, SpliceOrder(r, |r.items|))
      case Refused(why) => Refused(why)
      case Ok(next) =>
        if GateRefuses(next.g, ran.edges) then Refused(GateRefusal(next.g, ran.edges))
        else Ok(ran.(st := next))
  }

  lemma {:induction false} ResultPerItem(step: Step, cfg: Config, env: Env, r: BatchReq, st: State, n: nat)
    requires Supplies(env, r) && IsStep(step, cfg, env, r) && n <= |r.items| && Fold(step, Start(st), n).Ok?
    ensures |Fold(step, Start(st), n).value.results| == n
  {
    if n > 0 {
      ResultPerItem(step, cfg, env, r, st, n - 1);
      ItemsStep(step, cfg, env, r, st, n);
    }
  }

  /** What one item does to everything but the contents of the rows. */
  ghost predicate Shape(env: Env, item: Item, i: nat, ran: Ran, next: Ran)
    requires i < |env.minted|
  {
    && |next.results| == |ran.results| + 1 && next.results[..|ran.results|] == ran.results
    && (item.CreateItem? ==>
         var id := NewId(env, item, i);
         && id !in ran.st.g.rows && next.st.g.rows.Keys == ran.st.g.rows.Keys + {id}
         && next.results[|ran.results|].issue == id && next.planes == ran.planes[id := item.row.plane]
         && next.keys == (if item.key == "" then ran.keys else ran.keys[item.key := id]))
    && (!item.CreateItem? ==>
         next.st.g.rows.Keys == ran.st.g.rows.Keys && next.keys == ran.keys && next.planes == ran.planes)
    && (!item.DepAddItem? ==> next.edges == ran.edges && next.st.g.edges == ran.st.g.edges)
    && ((item.UpdateItem? || item.CloseItem?) ==>
         Resolve(ran.keys, item.target) == Some(next.results[|ran.results|].issue))
    && (item.DepAddItem? ==>
         var s, t := Resolve(ran.keys, item.source), Resolve(ran.keys, item.target);
         s.Some? && t.Some? && next.edges == ran.edges + [EdgeReq(s.value, t.value, item.kind, item.gate)])
    && Scheduling(ran.st.g) <= Scheduling(next.st.g)
  }

  lemma {:induction false} CreateShape(cfg: Config, env: Env, ran: Ran, item: Item, i: nat)
    requires item.CreateItem? && i < |env.minted| && ApplyCreate(cfg, env, ran, item, i).Ok?
    ensures Shape(env, item, i, ran, ApplyCreate(cfg, env, ran, item, i).value)
  {
    var id := NewId(env, item, i);
    assert ParentChildFirst([]) == [];
    assert CreateEdges(SetRow(ran.st.g, id, item.row), []) == Ok(SetRow(ran.st.g, id, item.row));
  }

  lemma {:induction false} UpdateShape(cfg: Config, env: Env, ran: Ran, actor: string, item: Item, i: nat, at: Stamp)
    requires item.UpdateItem? && i < |env.minted| && ApplyUpdate(cfg, ran, actor, item, i, at).Ok?
    ensures Shape(env, item, i, ran, ApplyUpdate(cfg, ran, actor, item, i, at).value)
  {
  }

  lemma {:induction false} CloseShape(env: Env, ran: Ran, actor: string, item: Item, i: nat, at: Stamp)
    requires item.CloseItem? && i < |env.minted| && ApplyClose(ran, actor, item, i, at).Ok?
    ensures Shape(env, item, i, ran, ApplyClose(ran, actor, item, i, at).value)
  {
  }

  lemma {:induction false} StepShape(cfg: Config, env: Env, r: BatchReq, ran: Ran, i: nat)
    requires Supplies(env, r) && i < |r.items| && ApplyItem(cfg, env, r, ran, i).Ok?
    ensures Shape(env, r.items[i], i, ran, ApplyItem(cfg, env, r, ran, i).value)
  {
    match r.items[i]
    case CreateItem(_, _, _, _) => CreateShape(cfg, env, ran, r.items[i], i);
    case UpdateItem(_, _, _, _, _, _, _) => UpdateShape(cfg, env, ran, r.actor, r.items[i], i, env.at[i]);
    case CloseItem(_, _, _) => CloseShape(env, ran, r.actor, r.items[i], i, env.at[i]);
    case DepAddItem(_, _, _, _) => DepAddShape(env, ran, r.items[i], i, r.skip);
  }

  lemma {:induction false} DepAddShape(env: Env, ran: Ran, item: Item, i: nat, skip: bool)
    requires item.DepAddItem? && i < |env.minted| && ApplyDepAdd(ran, item, i, skip).Ok?
    ensures Shape(env, item, i, ran, ApplyDepAdd(ran, item, i, skip).value)
  {
    PutGrows(ran.st.g, EdgeReq(Resolve(ran.keys, item.source).value, Resolve(ran.keys, item.target).value, item.kind,
        item.gate));
  }

  // ---------------------------------------------------------------- binding

  predicate Created(r: BatchReq, j: nat) {
    j < |r.items| && r.items[j].CreateItem?
  }

  /** Each create made a row that was not there, and distinct creates distinct rows. */
  ghost predicate RowsMade(r: BatchReq, st: State, n: nat, ran: Ran)
    requires n == |ran.results|
  {
    && st.g.rows.Keys <= ran.st.g.rows.Keys
    && (forall j :: 0 <= j < n && Created(r, j) ==>
         ran.results[j].issue in ran.st.g.rows && ran.results[j].issue !in st.g.rows)
    && (forall i, j :: 0 <= i < j < n && Created(r, i) && Created(r, j) ==>
         ran.results[i].issue != ran.results[j].issue)
  }

  /** No row came about but by a create. */
  ghost predicate RowsOnlyMade(r: BatchReq, st: State, n: nat, ran: Ran)
    requires n == |ran.results|
  {
    forall x :: x in ran.st.g.rows && x !in st.g.rows ==> MadeBefore(r, n, ran, x)
  }

  ghost predicate MadeBefore(r: BatchReq, n: nat, ran: Ran, x: Id)
    requires n <= |ran.results|
  {
    exists j :: 0 <= j < n && Created(r, j) && ran.results[j].issue == x
  }

  /** Exactly the declared keys are bound, each to the row its create made. */
  ghost predicate KeysBound(r: BatchReq, n: nat, ran: Ran)
    requires n == |ran.results| && n <= |r.items|
  {
    && (forall k :: k in ran.keys <==> DeclaredBefore(r.items, n, k))
    && (forall j :: 0 <= j < n && Created(r, j) && r.items[j].key != "" ==>
         r.items[j].key in ran.keys && ran.keys[r.items[j].key] == ran.results[j].issue)
  }

  /** Each result names the row its item addressed. */
  ghost predicate ResultsNamed(env: Env, r: BatchReq, n: nat, ran: Ran)
    requires n == |ran.results| && n <= |r.items| && Supplies(env, r)
  {
    forall j :: 0 <= j < n ==>
      && (Created(r, j) ==> ran.results[j].issue == NewId(env, r.items[j], j))
      && (Writes(r, j) ==> Resolve(ran.keys, r.items[j].target) == Some(ran.results[j].issue))
  }

  predicate Writes(r: BatchReq, j: nat) {
    j < |r.items| && (r.items[j].UpdateItem? || r.items[j].CloseItem?)
  }

  ghost predicate Bound(env: Env, r: BatchReq, st: State, n: nat, ran: Ran)
    requires Supplies(env, r)
  {
    && n == |ran.results| && n <= |r.items| && RowsMade(r, st, n, ran) && RowsOnlyMade(r, st, n, ran)
    && KeysBound(r, n, ran) && ResultsNamed(env, r, n, ran)
  }

  lemma {:induction false} ItemsBind(step: Step, cfg: Config, env: Env, r: BatchReq, st: State, n: nat)
    requires Supplies(env, r) && DistinctKeys(r.items) && IsStep(step, cfg, env, r)
    requires n <= |r.items| && Fold(step, Start(st), n).Ok?
    ensures Bound(env, r, st, n, Fold(step, Start(st), n).value)
  {
    if n == 0 {
      BoundAtStart(env, r, st);
    } else {
      ItemsBind(step, cfg, env, r, st, n - 1);
      ItemsStep(step, cfg, env, r, st, n);
      BindStep(env, r, st, Fold(step, Start(st), n - 1).value, n - 1, Fold(step, Start(st), n).value);
    }
  }

  lemma {:induction false} BoundAtStart(env: Env, r: BatchReq, st: State)
    requires Supplies(env, r)
    ensures Bound(env, r, st, 0, Start(st))
  {
  }

  lemma {:induction false} ItemsStep(step: Step, cfg: Config, env: Env, r: BatchReq, st: State, n: nat)
    requires Supplies(env, r) && IsStep(step, cfg, env, r) && 0 < n <= |r.items| && Fold(step, Start(st), n).Ok?
    ensures Fold(step, Start(st), n - 1).Ok?
    ensures Shape(env, r.items[n - 1], n - 1, Fold(step, Start(st), n - 1).value, Fold(step, Start(st), n).value)
  {
    StepShape(cfg, env, r, Fold(step, Start(st), n - 1).value, n - 1);
  }

  lemma {:induction false} BindStep(env: Env, r: BatchReq, st: State, ran: Ran, i: nat, next: Ran)
    requires Supplies(env, r) && DistinctKeys(r.items) && i < |r.items|
    requires Bound(env, r, st, i, ran) && Shape(env, r.items[i], i, ran, next)
    ensures Bound(env, r, st, i + 1, next)
  {
    forall j | 0 <= j < i ensures next.results[j] == ran.results[j] {
      assert next.results[..i][j] == ran.results[j];
    }
    assert RowsMove(r.items[i], i, ran, next);
    RowsStep(r, st, ran, i, next);
    RowsOnlyStep(r, st, ran, i, next);
    assert KeysMove(r.items[i], i, ran, next);
    KeysStep(r, ran, i, next);
    NamesKept(env, r, ran, i, next);
  }

  lemma {:induction false} NamesKept(env: Env, r: BatchReq, ran: Ran, i: nat, next: Ran)
    requires Supplies(env, r) && i == |ran.results| && i < |r.items| && ResultsNamed(env, r, i, ran)
    requires Shape(env, r.items[i], i, ran, next) && KeysBound(r, i, ran) && DistinctKeys(r.items)
    requires forall j :: 0 <= j < i ==> next.results[j] == ran.results[j]
    ensures ResultsNamed(env, r, i + 1, next)
  {
    forall k | k in ran.keys ensures k in next.keys && next.keys[k] == ran.keys[k] {
      var l :| 0 <= l < i && Declares(r.items[l], k);
      if r.items[i].CreateItem? { assert !Declares(r.items[i], r.items[l].key); }
    }
  }

  /** What a step does to the set of rows. */
  ghost predicate RowsMove(item: Item, i: nat, ran: Ran, next: Ran) {
    && i == |ran.results| && |next.results| == i + 1
    && (forall j :: 0 <= j < i ==> next.results[j] == ran.results[j])
    && next.st.g.rows.Keys == ran.st.g.rows.Keys + (if item.CreateItem? then {next.results[i].issue} else {})
    && (item.CreateItem? ==> next.results[i].issue !in ran.st.g.rows)
  }

  lemma {:induction false} RowsStep(r: BatchReq, st: State, ran: Ran, i: nat, next: Ran)
    requires i < |r.items| && RowsMove(r.items[i], i, ran, next) && RowsMade(r, st, i, ran)
    ensures RowsMade(r, st, i + 1, next)
  {
  }

  lemma {:induction false} RowsOnlyStep(r: BatchReq, st: State, ran: Ran, i: nat, next: Ran)
    requires i < |r.items| && RowsMove(r.items[i], i, ran, next) && RowsOnlyMade(r, st, i, ran)
    ensures RowsOnlyMade(r, st, i + 1, next)
  {
    forall x | x in next.st.g.rows && x !in st.g.rows ensures MadeBefore(r, i + 1, next, x) {
      if x in ran.st.g.rows {
        MadeEarlier(r, i, ran, next, x);
      } else {
        assert Created(r, i) && next.results[i].issue == x;
      }
    }
  }

  lemma {:induction false} MadeEarlier(r: BatchReq, i: nat, ran: Ran, next: Ran, x: Id)
    requires i == |ran.results| < |next.results| && MadeBefore(r, i, ran, x)
    requires forall j :: 0 <= j < i ==> next.results[j] == ran.results[j]
    ensures MadeBefore(r, i + 1, next, x)
  {
    var j :| 0 <= j < i && Created(r, j) && ran.results[j].issue == x;
    assert next.results[j].issue == x;
  }

  lemma {:induction false} DeclaredStep(items: seq<Item>, i: nat, k: string)
    requires i < |items|
    ensures DeclaredBefore(items, i + 1, k) <==> DeclaredBefore(items, i, k) || Declares(items[i], k)
  {
  }

  /** What a step does to the key table. */
  ghost predicate KeysMove(item: Item, i: nat, ran: Ran, next: Ran) {
    && i == |ran.results| && |next.results| == i + 1
    && (forall j :: 0 <= j < i ==> next.results[j] == ran.results[j])
    && next.keys == (if item.CreateItem? && item.key != "" then ran.keys[item.key := next.results[i].issue]
       else ran.keys)
  }

  lemma {:induction false} KeysStep(r: BatchReq, ran: Ran, i: nat, next: Ran)
    requires i < |r.items| && KeysMove(r.items[i], i, ran, next) && KeysBound(r, i, ran) && DistinctKeys(r.items)
    ensures KeysBound(r, i + 1, next)
  {
    forall k ensures k in next.keys <==> DeclaredBefore(r.items, i + 1, k) {
      DeclaredStep(r.items, i, k);
    }
    forall j | 0 <= j < i + 1 && Created(r, j) && r.items[j].key != ""
      ensures r.items[j].key in next.keys && next.keys[r.items[j].key] == next.results[j].issue
    {
      if j < i && r.items[i].CreateItem? { assert !Declares(r.items[i], r.items[j].key); }
    }
  }

  /** A planned target ref resolves when its item runs, to a row an earlier create of
      this request made or to the id it names; a planned item is never refused for a ref. */
  lemma {:induction false} RefsResolve(cfg: Config, env: Env, r: BatchReq, st: State, i: nat)
    requires Supplies(env, r) && WellPlanned(r.actor, r.items)
    requires i < |r.items| && ApplyItems(cfg, env, r, st, i).Ok?
    ensures forall ref :: TargetPlanned(r.items, i, ref) ==>
              var ran := ApplyItems(cfg, env, r, st, i).value;
              && Resolve(ran.keys, ref).Some?
              && (ref.key == "" ==> Resolve(ran.keys, ref).value == ref.id)
              && (ref.key != "" ==> exists j :: 0 <= j < i && j < |ran.results| && Declares(r.items[j], ref.key) &&
                                                Resolve(ran.keys, ref).value == ran.results[j].issue)
    ensures ApplyItem(cfg, env, r, ApplyItems(cfg, env, r, st, i).value, i).Refused? ==>
            !ApplyItem(cfg, env, r, ApplyItems(cfg, env, r, st, i).value, i).why.RefError?
  {
    StepperSteps(cfg, env, r);
    ItemsBind(Stepper(cfg, env, r), cfg, env, r, st, i);
    var ran := ApplyItems(cfg, env, r, st, i).value;
    forall ref | TargetPlanned(r.items, i, ref) && ref.key != ""
      ensures exists j :: && 0 <= j < i && Declares(r.items[j], ref.key)
                          && ref.key in ran.keys && ran.keys[ref.key] == ran.results[j].issue
    {
      var j :| 0 <= j < i && Declares(r.items[j], ref.key);
      assert Created(r, j);
    }
    assert ItemPlanned(r.items, i);
    NoRefErrors(cfg, ran, r, env, i);
  }

  lemma {:induction false} NoRefInCreate(cfg: Config, st: State, id: Id, row: Row)
    ensures Create(cfg, st, CreateReq(id, row, [])).Refused? ==> !Create(cfg, st, CreateReq(id, row, [])).why.RefError?
  {
    assert ParentChildFirst([]) == [];
  }

  lemma {:induction false} NoRefErrors(cfg: Config, ran: Ran, r: BatchReq, env: Env, i: nat)
    requires Supplies(env, r) && i < |r.items| && ItemPlanned(r.items, i)
    requires forall ref :: TargetPlanned(r.items, i, ref) ==> Resolve(ran.keys, ref).Some?
    ensures ApplyItem(cfg, env, r, ran, i).Refused? ==> !ApplyItem(cfg, env, r, ran, i).why.RefError?
  {
    match r.items[i]
    case CreateItem(_, _, _, _) => NoRefInCreate(cfg, ran.st, NewId(env, r.items[i], i), r.items[i].row);
    case UpdateItem(t, _, _, _, _, _, _) =>
      assert TargetPlanned(r.items, i, t);
      NoRefInUpdate(cfg, ran.st, AsUpdate(r.actor, r.items[i], Resolve(ran.keys, t).value), env.at[i]);
    case CloseItem(t, expected, force) =>
      assert TargetPlanned(r.items, i, t);
      NoRefInClose(ran.st, CloseReq(Resolve(ran.keys, t).value, r.actor, force, expected), env.at[i]);
    case DepAddItem(s, t, _, _) => assert TargetPlanned(r.items, i, s) && TargetPlanned(r.items, i, t);
  }

  lemma {:induction false} NoRefInUpdate(cfg: Config, st: State, r: UpdateReq, at: Stamp)
    ensures Update(cfg, st, r, at).Refused? ==> !Update(cfg, st, r, at).why.RefError?
  {
  }

  lemma {:induction false} NoRefInClose(st: State, r: CloseReq, at: Stamp)
    ensures Close(st, r, at).Refused? ==> !Close(st, r, at).why.RefError?
  {
  }

  /** Every planned metadata ref, forward ones included, names a row by the time the splice runs. */
  lemma {:induction false} ValueRefsResolve(cfg: Config, env: Env, r: BatchReq, st: State, i: nat, name: string)
    requires Supplies(env, r) && WellPlanned(r.actor, r.items) && ApplyItems(cfg, env, r, st, |r.items|).Ok?
    requires Splices(r, i) && name in r.items[i].refs
    ensures var ran, ref := ApplyItems(cfg, env, r, st, |r.items|).value, r.items[i].refs[name];
            && Resolve(ran.keys, ref).Some?
            && (ref.key != "" ==>
                 exists j :: 0 <= j < |r.items| && j < |ran.results| && Declares(r.items[j], ref.key) &&
                                              Resolve(ran.keys, ref).value == ran.results[j].issue)
  {
    StepperSteps(cfg, env, r);
    ItemsBind(Stepper(cfg, env, r), cfg, env, r, st, |r.items|);
    assert ItemPlanned(r.items, i) && ValueRefPlanned(r.items, name, r.items[i].refs[name]);
    var key := r.items[i].refs[name].key;
    if key != "" {
      var j :| 0 <= j < |r.items| && Declares(r.items[j], key);
      assert Created(r, j);
    }
  }

  // ---------------------------------------------------------------- the version rule

  /** The item carries a version guard. */
  predicate Guards(r: BatchReq, i: nat) {
    Writes(r, i) && r.items[i].expected.Some?
  }

  /** Item j wrote the row x. */
  predicate WroteRow(r: BatchReq, ran: Ran, j: nat, x: Id) {
    j < |ran.results| && (Created(r, j) || Writes(r, j)) && ran.results[j].issue == x
  }

  /** A version guard that passed the plan is on an id, and whenever that id has a row as the
      item comes up, no earlier item wrote that row if and only if the row was there before
      the request. The plan sees every way two items can meet on a row, by key or by id,
      but one: an id the store itself gave an earlier create. */
  lemma {:induction false} GuardReadsUntouchedRow(cfg: Config, env: Env, r: BatchReq, st: State, i: nat)
    requires Supplies(env, r) && WellPlanned(r.actor, r.items)
    requires Guards(r, i) && ApplyItems(cfg, env, r, st, i).Ok?
    ensures r.items[i].target.key == ""
    ensures var ran, x := ApplyItems(cfg, env, r, st, i).value, r.items[i].target.id;
            x in ran.st.g.rows ==> ((forall j :: 0 <= j < i ==> !WroteRow(r, ran, j, x)) <==> x in st.g.rows)
  {
    StepperSteps(cfg, env, r);
    ItemsBind(Stepper(cfg, env, r), cfg, env, r, st, i);
    assert ItemPlanned(r.items, i);
    var ran, x := ApplyItems(cfg, env, r, st, i).value, r.items[i].target.id;
    if x in st.g.rows {
      forall j | 0 <= j < i && Created(r, j) ensures ran.results[j].issue != x { }
      forall j | 0 <= j < i ensures !WroteRow(r, ran, j, x) { MetByAddress(env, r, st, ran, i, j); }
    } else if x in ran.st.g.rows {
      assert MadeBefore(r, i, ran, x);
      var j :| 0 <= j < i && Created(r, j) && ran.results[j].issue == x;
      assert WroteRow(r, ran, j, x);
    }
  }

  lemma {:induction false} MetByAddress(env: Env, r: BatchReq, st: State, ran: Ran, i: nat, j: nat)
    requires Supplies(env, r) && j < i < |r.items| && Bound(env, r, st, i, ran) && Guards(r, i)
    requires r.items[i].target.key == "" && ItemPlanned(r.items, i) && ItemPlanned(r.items, j)
    requires forall l :: 0 <= l < i && Created(r, l) ==> ran.results[l].issue != r.items[i].target.id
    ensures !WroteRow(r, ran, j, r.items[i].target.id)
  {
    var t := r.items[i].target;
    assert !Touches(r.items[j], t);
    if Writes(r, j) {
      var u := r.items[j].target;
      assert u.key != "" ==> exists l :: 0 <= l < j && Declares(r.items[l], u.key) && Created(r, l);
      assert u.key == "" ==> u.id == ran.results[j].issue && u != t;
    }
  }

  // ---------------------------------------------------------------- what a batch keeps

  predicate Named(es: seq<EdgeReq>, pair: (Id, Id)) {
    exists e :: e in es && IsScheduling(e.kind) && (e.source, e.target) == pair
  }

  /** Every scheduling edge beyond those of g was named by es. */
  ghost predicate GrewBy(g: Graph, es: seq<EdgeReq>, h: Graph) {
    Scheduling(g) <= Scheduling(h) && forall pair :: pair in Scheduling(h) && pair !in Scheduling(g) ==> Named(es, pair)
  }

  lemma {:induction false} GrewStep(g: Graph, es: seq<EdgeReq>, h: Graph, e: EdgeReq)
    requires GrewBy(g, es, h)
    requires (e.source, e.target) in h.edges ==> h.edges[(e.source, e.target)].kind == e.kind
    ensures GrewBy(g, es + [e], Put(h, e))
  {
    PutGrows(h, e);
    forall pair | pair in Scheduling(Put(h, e)) && pair !in Scheduling(g) ensures Named(es + [e], pair) {
      if pair in Scheduling(h) {
        var f :| f in es && IsScheduling(f.kind) && (f.source, f.target) == pair;
        assert f in es + [e];
      } else {
        assert e in es + [e];
      }
    }
  }

  /** The item cannot leave the column stale: it rewrites no deciding gate and moves no
      deciding row between closed and pinned. */
  ghost predicate ItemSafe(r: BatchReq, ran: Ran, i: nat)
    requires i < |r.items|
  {
    match r.items[i]
    case CreateItem(_, _, _, _) => true
    case UpdateItem(t, _, _, _, _, _, _) =>
      var id := Resolve(ran.keys, t);
      id.Some? ==> !Disturbs(ran.st, AsUpdate(r.actor, r.items[i], id.value))
    case CloseItem(_, _, _) => true
    case DepAddItem(s, t, kind, gate) =>
      var source, target := Resolve(ran.keys, s), Resolve(ran.keys, t);
      source.Some? && target.Some? && (source.value, target.value) in ran.st.g.edges ==>
        ReAddSafe(ran.st.g, ran.st.blocked, EdgeReq(source.value, target.value, kind, gate))
  }

  /** What an item in progress has kept since st; quiet says no item so far was unsafe. */
  ghost predicate Kept(st: State, ran: Ran, quiet: bool) {
    Tidy(ran.st) && GrewBy(st.g, ran.edges, ran.st.g) &&
        (Fresh(st) && Acyclic(Scheduling(ran.st.g)) && quiet ==> Fresh(ran.st))
  }

  /** A write that leaves the scheduling graph alone. */
  lemma {:induction false} RowStepKeeps(st: State, ran: Ran, next: Ran, quiet: bool, safe: bool)
    requires Kept(st, ran, quiet) && next.edges == ran.edges
    requires Tidy(next.st) && Scheduling(next.st.g) == Scheduling(ran.st.g)
    requires Fresh(ran.st) && Acyclic(Scheduling(ran.st.g)) && safe ==> Fresh(next.st)
    ensures Kept(st, next, quiet && safe)
  {
  }

  lemma {:induction false} CreateStepKeeps(cfg: Config, env: Env, ran: Ran, item: Item, i: nat, st: State, quiet: bool)
    requires item.CreateItem? && i < |env.minted| && Kept(st, ran, quiet) && ApplyCreate(cfg, env, ran, item, i).Ok?
    ensures Kept(st, ApplyCreate(cfg, env, ran, item, i).value, quiet)
  {
    CreateKeeps(cfg, ran.st, CreateReq(NewId(env, item, i), item.row, []));
    CreateShape(cfg, env, ran, item, i);
    RowStepKeeps(st, ran, ApplyCreate(cfg, env, ran, item, i).value, quiet, true);
  }

  lemma {:induction false} UpdateStepKeeps(cfg: Config, ran: Ran, actor: string, item: Item, i: nat, at: Stamp,
                                           st: State, quiet: bool)
    requires item.UpdateItem? && Kept(st, ran, quiet) && ApplyUpdate(cfg, ran, actor, item, i, at).Ok?
    ensures var id := Resolve(ran.keys, item.target);
            id.Some? && Kept(st, ApplyUpdate(cfg, ran, actor, item, i, at).value,
                             quiet && !Disturbs(ran.st, AsUpdate(actor, item, id.value)))
  {
    var q := AsUpdate(actor, item, Resolve(ran.keys, item.target).value);
    UpdateKeepsTidy(cfg, ran.st, q, at);
    if Fresh(ran.st) && Acyclic(Scheduling(ran.st.g)) { UpdateKeeps(cfg, ran.st, q, at); }
    RowStepKeeps(st, ran, ApplyUpdate(cfg, ran, actor, item, i, at).value, quiet, !Disturbs(ran.st, q));
  }

  lemma {:induction false} CloseStepKeeps(ran: Ran, actor: string, item: Item, i: nat, at: Stamp, st: State,
                                          quiet: bool)
    requires item.CloseItem? && Kept(st, ran, quiet) && ApplyClose(ran, actor, item, i, at).Ok?
    ensures Kept(st, ApplyClose(ran, actor, item, i, at).value, quiet)
  {
    CloseKeeps(ran.st, CloseReq(Resolve(ran.keys, item.target).value, actor, item.force, item.expected), at);
    RowStepKeeps(st, ran, ApplyClose(ran, actor, item, i, at).value, quiet, true);
  }

  lemma {:induction false} EdgeWriteTidy(st: State, e: EdgeReq)
    requires Tidy(st) && Placed(st.g, e)
    ensures Tidy(State(Put(st.g, e), EdgeFlags(st.g, e, st.blocked)))
  {
    PutFrames(st.g, e);
    EdgeFlagsRows(st.g, e, st.blocked);
  }

  lemma {:induction false} EdgeStepKeeps(ran: Ran, e: EdgeReq, skip: bool, st: State, quiet: bool)
    requires Kept(st, ran, quiet) && ApplyEdge(ran, e, skip).Ok?
    ensures Kept(st, ApplyEdge(ran, e, skip).value,
                 quiet && ((e.source, e.target) in ran.st.g.edges ==> ReAddSafe(ran.st.g, ran.st.blocked, e)))
  {
    EdgeWriteTidy(ran.st, e);
    EdgeWriteKeeps(ran, e, st, quiet, ApplyEdge(ran, e, skip).value);
  }

  lemma {:induction false} EdgeWriteKeeps(ran: Ran, e: EdgeReq, st: State, quiet: bool, next: Ran)
    requires Kept(st, ran, quiet) && Placed(ran.st.g, e)
    requires next.st == State(Put(ran.st.g, e), EdgeFlags(ran.st.g, e, ran.st.blocked)) &&
             next.edges == ran.edges + [e] && Tidy(next.st)
    ensures Kept(st, next, quiet && ((e.source, e.target) in ran.st.g.edges ==> ReAddSafe(ran.st.g, ran.st.blocked, e)))
  {
    GrewStep(st.g, ran.edges, ran.st.g, e);
    PutGrows(ran.st.g, e);
    if Fresh(st) && Acyclic(Scheduling(next.st.g)) && quiet &&
        ((e.source, e.target) in ran.st.g.edges ==> ReAddSafe(ran.st.g, ran.st.blocked, e)) {
      AcyclicShrinks(Scheduling(ran.st.g), Scheduling(next.st.g));
      HierarchyWithinScheduling(next.st.g);
      EdgeFlagsFresh(ran.st, e);
    }
  }

  lemma {:induction false} ItemKeeps(cfg: Config, env: Env, r: BatchReq, st: State, ran: Ran, i: nat, quiet: bool)
    requires Supplies(env, r) && i < |r.items| && ApplyItem(cfg, env, r, ran, i).Ok? && Kept(st, ran, quiet)
    ensures Kept(st, ApplyItem(cfg, env, r, ran, i).value, quiet && ItemSafe(r, ran, i))
  {
    match r.items[i]
    case CreateItem(_, _, _, _) => CreateStepKeeps(cfg, env, ran, r.items[i], i, st, quiet);
    case UpdateItem(_, _, _, _, _, _, _) => UpdateStepKeeps(cfg, ran, r.actor, r.items[i], i, env.at[i], st, quiet);
    case CloseItem(_, _, _) => CloseStepKeeps(ran, r.actor, r.items[i], i, env.at[i], st, quiet);
    case DepAddItem(s, t, kind, gate) =>
      EdgeStepKeeps(ran, EdgeReq(Resolve(ran.keys, s).value, Resolve(ran.keys, t).value, kind, gate), r.skip, st,
          quiet);
  }

  /** Every item is safe when its turn comes. */
  ghost predicate SafeBy(step: Step, r: BatchReq, st: State, n: nat)
    requires n <= |r.items|
  {
    n == 0 || (SafeBy(step, r, st, n - 1) &&
        (Fold(step, Start(st), n - 1).Ok? ==> ItemSafe(r, Fold(step, Start(st), n - 1).value, n - 1)))
  }

  ghost predicate ItemsSafe(cfg: Config, env: Env, r: BatchReq, st: State)
    requires Supplies(env, r)
  {
    SafeBy(Stepper(cfg, env, r), r, st, |r.items|)
  }

  lemma {:induction false} ItemsKeep(step: Step, cfg: Config, env: Env, r: BatchReq, st: State, n: nat)
    requires Supplies(env, r) && IsStep(step, cfg, env, r) && n <= |r.items| && Fold(step, Start(st), n).Ok? && Tidy(st)
    ensures Kept(st, Fold(step, Start(st), n).value, SafeBy(step, r, st, n))
  {
    if n == 0 {
      KeptAtStart(st);
    } else {
      ItemsKeep(step, cfg, env, r, st, n - 1);
      ItemsKeepStep(step, cfg, env, r, st, Fold(step, Start(st), n - 1).value, n - 1, SafeBy(step, r, st, n - 1),
          SafeBy(step, r, st, n));
    }
  }

  lemma {:induction false} KeptAtStart(st: State)
    requires Tidy(st)
    ensures Kept(st, Start(st), true)
  {
  }

  lemma {:induction false} ItemsKeepStep(step: Step, cfg: Config, env: Env, r: BatchReq, st: State, ran: Ran, i: nat,
                                         quiet: bool, quiet': bool)
    requires Supplies(env, r) && IsStep(step, cfg, env, r) && i < |r.items| && step(ran, i).Ok? && Kept(st, ran, quiet)
    requires quiet' ==> quiet && ItemSafe(r, ran, i)
    ensures Kept(st, step(ran, i).value, quiet')
  {
    StepKept(step, cfg, env, r, st, ran, i, quiet);
    KeptWeakens(st, step(ran, i).value, quiet && ItemSafe(r, ran, i), quiet');
  }

  lemma {:induction false} StepKept(step: Step, cfg: Config, env: Env, r: BatchReq, st: State, ran: Ran, i: nat,
                                    quiet: bool)
    requires Supplies(env, r) && IsStep(step, cfg, env, r) && i < |r.items| && step(ran, i).Ok? && Kept(st, ran, quiet)
    ensures Kept(st, step(ran, i).value, quiet && ItemSafe(r, ran, i))
  {
    ItemKeeps(cfg, env, r, st, ran, i, quiet);
  }

  lemma {:induction false} KeptWeakens(st: State, ran: Ran, quiet: bool, quiet': bool)
    requires Kept(st, ran, quiet) && (quiet' ==> quiet)
    ensures Kept(st, ran, quiet')
  {
  }

  lemma {:induction false} ItemsTidy(step: Step, cfg: Config, env: Env, r: BatchReq, st: State, n: nat)
    requires Supplies(env, r) && IsStep(step, cfg, env, r) && n <= |r.items| && Fold(step, Start(st), n).Ok? && Tidy(st)
    ensures Tidy(Fold(step, Start(st), n).value.st)
  {
    ItemsKeep(step, cfg, env, r, st, n);
  }

  // ---------------------------------------------------------------- the splice

  /** What one splice leaves of a row; a splice that changes nothing leaves its stamp too. */
  function SplicedRow(row: Row, p: Patch, at: Stamp): Row {
    if Patched(row, p) == row then row else Stamped(Patched(row, p), at)
  }

  function SplicedRowAt(env: Env, r: BatchReq, ran: Ran, i: nat, row: Row): Row
    requires i < |r.items| && i < |env.splicedAt| && r.items[i].CreateItem?
  {
    SplicedRow(row, SplicePatch(ran.keys, r.items[i].refs), env.splicedAt[i])
  }

  /** Every ref of the create has a name the metadata plane accepts. */
  predicate ValidRefs(r: BatchReq, i: nat)
    requires Splices(r, i)
  {
    forall name :: name in r.items[i].refs ==> ValidKey(name)
  }

  predicate RefsBound(r: BatchReq, ran: Ran, i: nat)
    requires Splices(r, i)
  {
    forall name :: name in r.items[i].refs ==> Resolve(ran.keys, r.items[i].refs[name]).Some?
  }

  lemma {:induction false} SpliceOneWrites(cfg: Config, env: Env, r: BatchReq, ran: Ran, st: State, i: nat)
    requires Supplies(env, r) && Splices(r, i) && |ran.results| == |r.items| && r.actor != "" && RefsBound(r, ran, i)
    requires ran.results[i].issue in st.g.rows && ran.results[i].issue != ""
    ensures var id := ran.results[i].issue;
            SpliceOne(cfg, env, r, ran, st, i) ==
            if ValidRefs(r, i) then Ok(Unsettled(st, id, SplicedRowAt(env, r, ran, i, st.g.rows[id])))
                else Refused(Invalid)
  {
    var id := ran.results[i].issue;
    var patch := SplicePatch(ran.keys, r.items[i].refs);
    assert patch.put.Keys == r.items[i].refs.Keys;
    assert BadKeys(patch) <==> !ValidRefs(r, i) by {
      if !ValidRefs(r, i) {
        var name :| name in r.items[i].refs && !ValidKey(name);
        assert name in patch.put.Keys + patch.unset;
      }
    }
    assert st.g.rows[id := st.g.rows[id]] == st.g.rows;
  }

  predicate NoRepeats(order: seq<nat>) {
    forall i, j :: 0 <= i < j < |order| ==> order[i] != order[j]
  }

  ghost predicate Spliceable(r: BatchReq, ran: Ran, st: State, order: seq<nat>) {
    && |ran.results| == |r.items| && r.actor != "" && NoRepeats(order)
    && (forall i :: i in order ==> Splices(r, i) && ran.results[i].issue in st.g.rows && ran.results[i].issue != "")
    && (forall i :: i in order ==> RefsBound(r, ran, i))
    && (forall i, j :: i in order && j in order && i != j ==> ran.results[i].issue != ran.results[j].issue)
  }

  /** Exactly the listed creates' rows are spliced; nothing else moves. */
  ghost predicate SplicedTo(env: Env, r: BatchReq, ran: Ran, st: State, order: seq<nat>, out: State)
    requires Supplies(env, r) && Spliceable(r, ran, st, order)
  {
    && out.blocked == st.blocked && out.g.edges == st.g.edges && out.g.rows.Keys == st.g.rows.Keys
    && (forall i :: i in order ==>
         out.g.rows[ran.results[i].issue] == SplicedRowAt(env, r, ran, i, st.g.rows[ran.results[i].issue]))
    && (forall x :: x in st.g.rows && (forall i :: i in order ==> ran.results[i].issue != x) ==>
         out.g.rows[x] == st.g.rows[x])
  }

  /** Every name a listed create asks to splice is a valid key. */
  ghost predicate AllValid(r: BatchReq, order: seq<nat>)
    requires forall i :: i in order ==> Splices(r, i)
  {
    forall i :: i in order ==> ValidRefs(r, i)
  }

  /** The splices land if and only if every listed name is a valid key, and then change
      exactly the metadata and stamps of the rows that asked. */
  lemma {:induction false} SpliceAllExact(cfg: Config, env: Env, r: BatchReq, ran: Ran, st: State, order: seq<nat>)
    requires Supplies(env, r) && Spliceable(r, ran, st, order)
    ensures SpliceAll(cfg, env, r, ran, st, order).Ok? <==> AllValid(r, order)
    ensures !AllValid(r, order) ==> SpliceAll(cfg, env, r, ran, st, order) == Refused(Invalid)
    ensures AllValid(r, order) ==> SplicedTo(env, r, ran, st, order, SpliceAll(cfg, env, r, ran, st, order).value)
    decreases |order|
  {
    if order != [] {
      var i, rest := order[0], order[1..];
      assert i in order && forall j :: j in rest ==> j in order && j != i;
      assert forall j :: j in order ==> j == i || j in rest;
      SpliceOneWrites(cfg, env, r, ran, st, i);
      if ValidRefs(r, i) {
        var mid := SpliceOne(cfg, env, r, ran, st, i).value;
        assert Spliceable(r, ran, mid, rest);
        SpliceAllExact(cfg, env, r, ran, mid, rest);
        if AllValid(r, rest) {
          SpliceJoin(env, r, ran, st, order, i, mid, SpliceAll(cfg, env, r, ran, mid, rest).value);
        }
      }
    }
  }

  lemma {:induction false} SpliceJoin(env: Env, r: BatchReq, ran: Ran, st: State, order: seq<nat>, i0: nat, mid: State,
                                      out: State)
    requires Supplies(env, r) && Spliceable(r, ran, st, order) && order != [] && Spliceable(r, ran, mid, order[1..])
    requires i0 == order[0] && i0 in order
    requires var id := ran.results[i0].issue;
             id in st.g.rows && mid == Unsettled(st, id, SplicedRowAt(env, r, ran, i0, st.g.rows[id]))
    requires SplicedTo(env, r, ran, mid, order[1..], out)
    ensures SplicedTo(env, r, ran, st, order, out)
  {
    forall i | i in order && i != order[0] ensures i in order[1..] { }
    forall i | i in order[1..] ensures i in order && i != order[0] { }
  }

  /** METADATA SPLICES COMMUTE: any two orders over the same items give the same outcome, the
      same state or the same refusal. */
  lemma {:induction false} SpliceOrderIrrelevant(cfg: Config, env: Env, r: BatchReq, ran: Ran, st: State,
                                                 order: seq<nat>, other: seq<nat>)
    requires Supplies(env, r) && Spliceable(r, ran, st, order) && Spliceable(r, ran, st, other)
    requires forall i :: i in order <==> i in other
    ensures SpliceAll(cfg, env, r, ran, st, order) == SpliceAll(cfg, env, r, ran, st, other)
  {
    SpliceAllExact(cfg, env, r, ran, st, order);
    SpliceAllExact(cfg, env, r, ran, st, other);
    if AllValid(r, order) {
      SplicedUnique(env, r, ran, st, order, other, SpliceAll(cfg, env, r, ran, st, order).value,
                    SpliceAll(cfg, env, r, ran, st, other).value);
    }
  }

  lemma {:induction false} SplicedUnique(env: Env, r: BatchReq, ran: Ran, st: State, order: seq<nat>, other: seq<nat>,
                                         a: State, b: State)
    requires Supplies(env, r) && Spliceable(r, ran, st, order) && Spliceable(r, ran, st, other)
    requires (forall i :: i in order <==> i in other)
    requires SplicedTo(env, r, ran, st, order, a) && SplicedTo(env, r, ran, st, other, b)
    ensures a == b
  {
    forall x | x in st.g.rows ensures a.g.rows[x] == b.g.rows[x] {
      if i :| i in order && ran.results[i].issue == x { assert i in other; }
    }
    assert a.g.rows == b.g.rows;
  }

  /** Splices change metadata and stamps only. */
  lemma {:induction false} SplicedKeeps(env: Env, r: BatchReq, ran: Ran, st: State, order: seq<nat>, out: State)
    requires Supplies(env, r) && Spliceable(r, ran, st, order) && SplicedTo(env, r, ran, st, order, out)
    requires Tidy(st)
    ensures Tidy(out) && Scheduling(out.g) == Scheduling(st.g) && Ancestry(out.g) == Ancestry(st.g)
    ensures Fresh(st) ==> Fresh(out)
  {
    forall x | x in st.g.rows ensures out.g.rows[x].status == st.g.rows[x].status {
      if i :| i in order && ran.results[i].issue == x { }
    }
    SameStatuses(st.g, out.g);
    if Fresh(st) { NothingAffected(st.g, out.g, st.blocked); }
  }

  lemma {:induction false} SpliceOrderListed(r: BatchReq, n: nat)
    requires n <= |r.items|
    ensures NoRepeats(SpliceOrder(r, n))
  {
    if n > 0 {
      SpliceOrderListed(r, n - 1);
      var order := SpliceOrder(r, n - 1);
      forall i | 0 <= i < |order| ensures order[i] < n - 1 { assert order[i] in order; }
    }
  }

  ghost predicate NonEmptyIds(env: Env) {
    forall i :: 0 <= i < |env.minted| ==> env.minted[i] != ""
  }

  lemma {:induction false} SpliceLands(cfg: Config, env: Env, st: State, r: BatchReq)
    requires Supplies(env, r) && NonEmptyIds(env) && WellPlanned(r.actor, r.items) &&
             ApplyItems(cfg, env, r, st, |r.items|).Ok?
    ensures var ran := ApplyItems(cfg, env, r, st, |r.items|).value;
            Spliceable(r, ran, ran.st, SpliceOrder(r, |r.items|)) && Bound(env, r, st, |r.items|, ran)
  {
    StepperSteps(cfg, env, r);
    ItemsBind(Stepper(cfg, env, r), cfg, env, r, st, |r.items|);
    SpliceOrderListed(r, |r.items|);
    var ran := ApplyItems(cfg, env, r, st, |r.items|).value;
    var order := SpliceOrder(r, |r.items|);
    forall i | i in order ensures Splices(r, i) && ran.results[i].issue in ran.st.g.rows && ran.results[i].issue != "" {
      assert Created(r, i);
    }
    forall i, j | i in order && j in order && i != j ensures ran.results[i].issue != ran.results[j].issue {
      assert Created(r, i) && Created(r, j);
    }
    forall i | i in order ensures RefsBound(r, ran, i) {
      forall name | name in r.items[i].refs ensures Resolve(ran.keys, r.items[i].refs[name]).Some? {
        ValueRefsResolve(cfg, env, r, st, i, name);
      }
    }
  }

  /** WHAT THE PLAN LETS THROUGH: once its items are applied, a planned batch passes the
      splice if and only if every metadata ref it carries has a valid key for a name. */
  lemma {:induction false} SplicePasses(cfg: Config, env: Env, st: State, r: BatchReq)
    requires Supplies(env, r) && NonEmptyIds(env) && WellPlanned(r.actor, r.items)
    requires ApplyItems(cfg, env, r, st, |r.items|).Ok?
    ensures var ran, order := ApplyItems(cfg, env, r, st, |r.items|).value, SpliceOrder(r, |r.items|);
            && |ran.results| == |r.items|
            && (SpliceAll(cfg, env, r, ran, ran.st, order).Ok? <==> forall i: nat :: Splices(r, i) ==> ValidRefs(r, i))
            && (!SpliceAll(cfg, env, r, ran, ran.st, order).Ok? ==> ApplyBatch(cfg, env, st, r) == Refused(Invalid))
  {
    var ran, order := ApplyItems(cfg, env, r, st, |r.items|).value, SpliceOrder(r, |r.items|);
    SpliceLands(cfg, env, st, r);
    SpliceAllExact(cfg, env, r, ran, ran.st, order);
    assert forall i: nat :: Splices(r, i) <==> i in order;
  }

  /** WHAT AN ACCEPTED BATCH LEAVES: one result per item, every key bound to the row its
      create made, an acyclic scheduling graph in which no edge the batch wrote crosses
      its own hierarchy, and, unless an item was unsafe, the column of a full recompute. */
  lemma {:induction false} BatchKeeps(cfg: Config, env: Env, st: State, r: BatchReq)
    requires Supplies(env, r) && NonEmptyIds(env) && WellPlanned(r.actor, r.items)
    requires Sound(st) && ApplyBatch(cfg, env, st, r).Ok?
    ensures Sound(ApplyBatch(cfg, env, st, r).value.st)
    ensures Bound(env, r, st, |r.items|, ApplyBatch(cfg, env, st, r).value)
    ensures Rechecked(ApplyBatch(cfg, env, st, r).value.st.g, ApplyBatch(cfg, env, st, r).value.edges)
    ensures Fresh(st) && ItemsSafe(cfg, env, r, st) ==> Fresh(ApplyBatch(cfg, env, st, r).value.st)
  {
    var ran := ApplyItems(cfg, env, r, st, |r.items|).value;
    var order := SpliceOrder(r, |r.items|);
    SpliceLands(cfg, env, st, r);
    SpliceAllExact(cfg, env, r, ran, ran.st, order);
    StepperSteps(cfg, env, r);
    ItemsKeep(Stepper(cfg, env, r), cfg, env, r, st, |r.items|);
    var out := ApplyBatch(cfg, env, st, r).value;
    SplicedKeeps(env, r, ran, ran.st, order, out.st);
    GateKeepsAcyclic(st.g, ran.edges, out.st.g);
    BoundMoves(env, r, st, ran, out);
  }

  lemma {:induction false} BoundMoves(env: Env, r: BatchReq, st: State, ran: Ran, out: Ran)
    requires Supplies(env, r) && Bound(env, r, st, |r.items|, ran)
    requires out.keys == ran.keys && out.results == ran.results && out.st.g.rows.Keys == ran.st.g.rows.Keys
    ensures Bound(env, r, st, |r.items|, out)
  {
  }

  lemma {:induction false} GateKeepsAcyclic(g: Graph, es: seq<EdgeReq>, h: Graph)
    requires Acyclic(Scheduling(g)) && GrewBy(g, es, h) && !FinalCycle(h, es)
    ensures Acyclic(Scheduling(h))
  {
    forall pair | pair in Scheduling(h) && pair !in Scheduling(g) ensures !OnCycle(Scheduling(h), pair) {
      var e :| e in es && IsScheduling(e.kind) && (e.source, e.target) == pair;
      assert !CycleConflict(h, e);
    }
    GrowthKeepsAcyclic(Scheduling(g), Scheduling(h));
  }

  // ---------------------------------------------------------------- a batch of edges

  predicate EdgesOnly(r: BatchReq) {
    forall i :: 0 <= i < |r.items| ==>
        r.items[i].DepAddItem? && r.items[i].source.key == "" && r.items[i].target.key == ""
  }

  function EdgesOf(r: BatchReq, n: nat): seq<EdgeReq>
    requires n <= |r.items| && EdgesOnly(r)
  {
    seq(n, i requires 0 <= i < n =>
          EdgeReq(r.items[i].source.id, r.items[i].target.id, r.items[i].kind, r.items[i].gate))
  }

  lemma {:induction false} EdgesOfNext(r: BatchReq, i: nat)
    requires EdgesOnly(r) && i < |r.items| && NoSelf(EdgesOf(r, i + 1))
    ensures EdgesOf(r, i + 1) == EdgesOf(r, i) + [EdgesOf(r, i + 1)[i]] && NoSelf(EdgesOf(r, i))
    ensures EdgesOf(r, i + 1)[i].source != EdgesOf(r, i + 1)[i].target
  {
    var all := EdgesOf(r, i + 1);
    assert all == EdgesOf(r, i) + [all[i]];
    assert all[i] in all && forall f :: f in EdgesOf(r, i) ==> f in all;
  }

  /** Items that landed wrote exactly the edges. */
  ghost predicate Mirrors(out: Outcome<Ran>, ins: Outcome<Graph>, es: seq<EdgeReq>) {
    out.Ok? ==> ins == Ok(out.value.st.g) && out.value.planes == map[] && out.value.edges == es
  }

  lemma {:induction false} MirrorStep(ran: Ran, es: seq<EdgeReq>, e: EdgeReq, skip: bool)
    requires e.source != e.target && ran.planes == map[] && ran.edges == es
    ensures Mirrors(ApplyEdge(ran, e, skip), Insert(ran.st.g, e, skip), es + [e])
    ensures Insert(ran.st.g, e, skip).Ok? && EdgeSettles(ran.st.g, e, ran.st.blocked) ==> ApplyEdge(ran, e, skip).Ok?
  {
  }

  /** On a request of edges the items are the insertions. */
  lemma {:induction false} EdgeItemsInsert(step: Step, cfg: Config, env: Env, st: State, r: BatchReq, n: nat)
    requires Supplies(env, r) && IsStep(step, cfg, env, r) && EdgesOnly(r) && n <= |r.items| && NoSelf(EdgesOf(r, n))
    ensures Mirrors(Fold(step, Start(st), n), InsertAll(st.g, EdgesOf(r, n), r.skip), EdgesOf(r, n))
  {
    if n > 0 {
      var es, e := EdgesOf(r, n - 1), EdgesOf(r, n)[n - 1];
      EdgesOfNext(r, n - 1);
      EdgeItemsInsert(step, cfg, env, st, r, n - 1);
      EdgeSplit(st.g, es, e, r.skip);
      if Fold(step, Start(st), n - 1).Ok? {
        EdgeItemNext(step, cfg, env, r, Fold(step, Start(st), n - 1).value, n - 1, es, e);
      }
    }
  }

  /** They land when they leave no scheduling cycle. */
  lemma {:induction false} EdgeItemsLand(step: Step, cfg: Config, env: Env, st: State, r: BatchReq, n: nat)
    requires Supplies(env, r) && IsStep(step, cfg, env, r) && EdgesOnly(r) && n <= |r.items| && NoSelf(EdgesOf(r, n))
    requires Tidy(st) && InsertAll(st.g, EdgesOf(r, n), r.skip).Ok?
    requires Acyclic(Scheduling(InsertAll(st.g, EdgesOf(r, n), r.skip).value))
    ensures Fold(step, Start(st), n).Ok?
  {
    if n > 0 {
      var es, e := EdgesOf(r, n - 1), EdgesOf(r, n)[n - 1];
      EdgesOfNext(r, n - 1);
      EdgeSplit(st.g, es, e, r.skip);
      EdgeItemsLand(step, cfg, env, st, r, n - 1);
      NextEdgeLands(step, cfg, env, st, r, n - 1, es, e);
    }
  }

  lemma {:induction false} NextEdgeLands(step: Step, cfg: Config, env: Env, st: State, r: BatchReq, i: nat,
                                         es: seq<EdgeReq>, e: EdgeReq)
    requires Supplies(env, r) && IsStep(step, cfg, env, r) && EdgesOnly(r) && i < |r.items| && es == EdgesOf(r, i)
    requires e == EdgeReq(r.items[i].source.id, r.items[i].target.id, r.items[i].kind, r.items[i].gate)
    requires NoSelf(es) && e.source != e.target && Tidy(st) && Fold(step, Start(st), i).Ok?
    requires InsertAll(st.g, es, r.skip).Ok? && Insert(InsertAll(st.g, es, r.skip).value, e, r.skip).Ok?
    requires Acyclic(Scheduling(Put(InsertAll(st.g, es, r.skip).value, e)))
    ensures Fold(step, Start(st), i + 1).Ok?
  {
    EdgeItemsInsert(step, cfg, env, st, r, i);
    ItemsTidy(step, cfg, env, r, st, i);
    EdgeItemNext(step, cfg, env, r, Fold(step, Start(st), i).value, i, es, e);
  }

  lemma {:induction false} EdgeItemNext(step: Step, cfg: Config, env: Env, r: BatchReq, ran: Ran, i: nat,
                                        es: seq<EdgeReq>, e: EdgeReq)
    requires Supplies(env, r) && IsStep(step, cfg, env, r) && EdgesOnly(r) && i < |r.items|
    requires e == EdgeReq(r.items[i].source.id, r.items[i].target.id, r.items[i].kind, r.items[i].gate)
    requires e.source != e.target && ran.planes == map[] && ran.edges == es
    ensures Mirrors(step(ran, i), Insert(ran.st.g, e, r.skip), es + [e])
    ensures Tidy(ran.st) && Insert(ran.st.g, e, r.skip).Ok? && Acyclic(Scheduling(Put(ran.st.g, e))) ==>
              step(ran, i).Ok?
  {
    MirrorStep(ran, es, e, r.skip);
    StepIsEdge(step, cfg, env, r, ran, i, e);
    if Tidy(ran.st) { EdgeLandsAcyclic(ran, e, r.skip); }
  }

  lemma {:induction false} EdgeSplit(g: Graph, es: seq<EdgeReq>, e: EdgeReq, skip: bool)
    ensures InsertAll(g, es + [e], skip) ==
            (if InsertAll(g, es, skip).Ok? then Insert(InsertAll(g, es, skip).value, e, skip)
                else InsertAll(g, es, skip))
    ensures InsertAll(g, es + [e], skip).Ok? && Acyclic(Scheduling(InsertAll(g, es + [e], skip).value)) ==>
              Acyclic(Scheduling(InsertAll(g, es, skip).value))
  {
    InsertAllSplits(g, es, [e], skip);
    if InsertAll(g, es, skip).Ok? {
      var m := InsertAll(g, es, skip).value;
      OneEdge(m, e, {}, skip);
      if Insert(m, e, skip).Ok? && Acyclic(Scheduling(Put(m, e))) {
        PutGrows(m, e);
        AcyclicShrinks(Scheduling(m), Scheduling(Put(m, e)));
      }
    }
  }

  lemma {:induction false} EdgeLandsAcyclic(ran: Ran, e: EdgeReq, skip: bool)
    requires Tidy(ran.st) && e.source != e.target
    ensures Insert(ran.st.g, e, skip).Ok? && Acyclic(Scheduling(Put(ran.st.g, e))) ==>
              EdgeSettles(ran.st.g, e, ran.st.blocked)
  {
    if Insert(ran.st.g, e, skip).Ok? && Acyclic(Scheduling(Put(ran.st.g, e))) {
      AcyclicEdgeSettles(ran.st.g, e, ran.st.blocked);
    }
  }

  lemma {:induction false} StepIsEdge(step: Step, cfg: Config, env: Env, r: BatchReq, ran: Ran, i: nat, e: EdgeReq)
    requires Supplies(env, r) && IsStep(step, cfg, env, r) && EdgesOnly(r) && i < |r.items|
    requires e == EdgeReq(r.items[i].source.id, r.items[i].target.id, r.items[i].kind, r.items[i].gate)
    ensures step(ran, i) == ApplyEdge(ran, e, r.skip)
  {
    EdgeItemIsEdge(cfg, env, r, ran, i, e);
  }

  lemma {:induction false} EdgeItemIsEdge(cfg: Config, env: Env, r: BatchReq, ran: Ran, i: nat, e: EdgeReq)
    requires Supplies(env, r) && EdgesOnly(r) && i < |r.items|
    requires e == EdgeReq(r.items[i].source.id, r.items[i].target.id, r.items[i].kind, r.items[i].gate)
    ensures ApplyItem(cfg, env, r, ran, i) == ApplyEdge(ran, e, r.skip)
  {
  }

  lemma {:induction false} PlannedEdges(r: BatchReq)
    requires WellPlanned(r.actor, r.items) && EdgesOnly(r)
    ensures NoSelf(EdgesOf(r, |r.items|)) && ShapeRefusal(EdgesOf(r, |r.items|)).None? &&
            SpliceOrder(r, |r.items|) == []
  {
    var es := EdgesOf(r, |r.items|);
    forall e | e in es ensures Spelled(e) && e.source != e.target {
      var i :| 0 <= i < |es| && es[i] == e;
      assert ItemPlanned(r.items, i);
    }
    assert |SpliceOrder(r, |r.items|)| > 0 ==> SpliceOrder(r, |r.items|)[0] in SpliceOrder(r, |r.items|);
  }

  lemma {:induction false} BatchOfEdgesInOrder(cfg: Config, env: Env, st: State, r: BatchReq)
    requires Supplies(env, r) && WellPlanned(r.actor, r.items) && EdgesOnly(r) && Sound(st)
    ensures ApplyBatch(cfg, env, st, r).Ok? <==> AddInOrder(st.g, EdgesOf(r, |r.items|), r.skip).Ok?
    ensures ApplyBatch(cfg, env, st, r).Ok? ==>
            ApplyBatch(cfg, env, st, r).value.st.g == AddInOrder(st.g, EdgesOf(r, |r.items|), r.skip).value
  {
    PlannedEdges(r);
    EdgesMirrored(cfg, env, st, r);
    StepperSteps(cfg, env, r);
    if ApplyItems(cfg, env, r, st, |r.items|).Ok? { ResultPerItem(Stepper(cfg, env, r), cfg, env, r, st, |r.items|); }
  }

  lemma {:induction false} EdgesMirrored(cfg: Config, env: Env, st: State, r: BatchReq)
    requires Supplies(env, r) && EdgesOnly(r) && Sound(st) && NoSelf(EdgesOf(r, |r.items|))
    ensures var es := EdgesOf(r, |r.items|);
            && Mirrors(ApplyItems(cfg, env, r, st, |r.items|), InsertAll(st.g, es, r.skip), es)
            && (AddInOrder(st.g, es, r.skip).Ok? ==> ApplyItems(cfg, env, r, st, |r.items|).Ok?)
  {
    var es := EdgesOf(r, |r.items|);
    StepperSteps(cfg, env, r);
    EdgeItemsInsert(Stepper(cfg, env, r), cfg, env, st, r, |r.items|);
    if AddInOrder(st.g, es, r.skip).Ok? {
      InOrderIsSafe(st.g, es, r.skip);
      EdgeItemsLand(Stepper(cfg, env, r), cfg, env, st, r, |r.items|);
    }
  }

  lemma {:induction false} InOrderIsSafe(g: Graph, es: seq<EdgeReq>, skip: bool)
    requires NoSelf(es) && WellFormed(g) && Acyclic(Scheduling(g)) && AddInOrder(g, es, skip).Ok?
    ensures Acyclic(Scheduling(AddInOrder(g, es, skip).value))
  {
    InsertAllApplies(g, es, skip);
    AdmissibleIsSafe(g, es, AddInOrder(g, es, skip).value);
  }

  /** For a request of edges between named rows, the batch in declared order with its
      end gate and the editor with its parent-child-first order accept the same
      requests, probing or not, and leave the same graph. */
  lemma {:induction false} BatchOfEdgesIsEditor(cfg: Config, env: Env, st: State, r: BatchReq, skip: bool)
    requires Supplies(env, r) && WellPlanned(r.actor, r.items) && EdgesOnly(r) && Sound(st)
    requires forall e :: e in EdgesOf(r, |r.items|) ==> e.gate == ALL_CHILDREN
    ensures ApplyBatch(cfg, env, st, r).Ok? <==> AddDependencies(st, r.actor, EdgesOf(r, |r.items|), skip).Ok?
    ensures ApplyBatch(cfg, env, st, r).Ok? ==>
            ApplyBatch(cfg, env, st, r).value.st.g == AddDependencies(st, r.actor, EdgesOf(r, |r.items|), skip).value.g
  {
    var es := EdgesOf(r, |r.items|);
    PlannedEdges(r);
    BatchOfEdgesInOrder(cfg, env, st, r);
    OrderAndProbingDoNotMatter(st.g, es, skip, r.skip);
    EditorLands(st, r.actor, es, skip);
  }

  /** The editor lands exactly the requests its graph gates pass. */
  lemma {:induction false} EditorLands(st: State, actor: string, es: seq<EdgeReq>, skip: bool)
    requires Sound(st) && actor != "" && es != [] && ShapeRefusal(es).None?
    ensures AddDependencies(st, actor, es, skip).Ok? <==> AddEdges(st.g, es, skip).Ok?
    ensures AddDependencies(st, actor, es, skip).Ok? ==>
            AddDependencies(st, actor, es, skip).value.g == AddEdges(st.g, es, skip).value
  {
    if AddEdges(st.g, es, skip).Ok? {
      AcceptedGraphIsSafe(st.g, es, skip);
      AcyclicFoldSettles(st.g, ParentChildFirst(es), skip, st.blocked);
    }
  }
}
