/** The mutating verbs as steps on the stored state: the order of their guards, what
    they write, and which rows they settle. */
module Verbs {

  import opened Digraph
  import opened IssueGraph
  import opened Affected
  import opened Edits
  import opened Flags
  import opened Settlement
  import opened Identity
  import opened Results

  datatype Category = Active | Wip | Done | Frozen

  /** The workspace's custom statuses with their categories, and the claim pools. */
  datatype Config = Config(custom: map<string, Category>, pools: set<string>)

  /** The clock reading and the version token a write is stamped with. */
  datatype Stamp = Stamp(now: int, version: int)

  predicate HasCategory(cfg: Config, s: Status, c: Category) {
    s.Custom? && s.name in cfg.custom && cfg.custom[s.name] == c
  }

  predicate IsDone(cfg: Config, s: Status) {
    s == Closed || HasCategory(cfg, s, Done)
  }

  predicate IsClaimable(cfg: Config, s: Status) {
    s == Open || HasCategory(cfg, s, Active)
  }

  predicate IsKnown(cfg: Config, s: Status) {
    s.Custom? ==> s.name in cfg.custom
  }

  function Stamped(row: Row, at: Stamp): Row {
    row.(updatedAt := at.now, version := at.version)
  }

  // ---------------------------------------------------------------- close policy

  /** A child that is not closed; a pinned one counts. */
  predicate OpenChild(g: Graph, id: Id) {
    exists c :: c in g.rows && ChildOf(g, c, id) && g.rows[c].status != Closed
  }

  /** A live row that a blocking or waiting edge of id names directly. */
  predicate LiveBlocker(g: Graph, id: Id) {
    exists t :: t in g.rows && (id, t) in g.edges && Live(g, t) &&
                (IsBlocking(g.edges[(id, t)].kind) || g.edges[(id, t)].kind == WaitsFor)
  }

  function CloseRefusal(st: State, id: Id, force: bool): Option<Refusal>
    requires id in st.g.rows
  {
    if force then None
    else if OpenChild(st.g, id) then Some(CloseOpenChildren)
    else if st.g.rows[id].status != Closed && id in st.blocked && LiveBlocker(st.g, id) then Some(CloseBlocked)
    else None
  }

  // ---------------------------------------------------------------- close and reopen

  datatype CloseReq = CloseReq(id: Id, actor: string, force: bool, expected: Option<int>)

  function GuardVersion(st: State, id: Id, expected: Option<int>): Option<Refusal> {
    if id !in st.g.rows then Some(NotFound([id]))
    else if expected.Some? && st.g.rows[id].version != expected.value then Some(VersionMismatch)
    else None
  }

  /** A row write with its settlement, if that comes to an end. */
  ghost function Written(st: State, id: Id, row: Row): Outcome<State> {
    if RowSettles(st, id, row) then Ok(Rewritten(st, id, row)) else Refused(Endless)
  }

  ghost function Close(st: State, r: CloseReq, at: Stamp): Outcome<State> {
    if r.actor == "" || r.id == "" then Refused(Invalid)
    else
      var guard := GuardVersion(st, r.id, r.expected);
      if guard.Some? then Refused(guard.value)
      else
        var policy := CloseRefusal(st, r.id, r.force);
        if policy.Some? then Refused(policy.value)
        else if st.g.rows[r.id].status == Closed then Ok(st)
        else Written(st, r.id, Stamped(st.g.rows[r.id], at).(status := Closed))
  }

  ghost function Reopen(cfg: Config, st: State, id: Id, actor: string, expected: Option<int>,
                        at: Stamp): Outcome<State> {
    if actor == "" || id == "" then Refused(Invalid)
    else
      var guard := GuardVersion(st, id, expected);
      if guard.Some? then Refused(guard.value)
      else if !IsDone(cfg, st.g.rows[id].status) then Ok(st)
      else Written(st, id, Stamped(st.g.rows[id], at).(status := Open))
  }

  // ---------------------------------------------------------------- update

  datatype Patch = Patch(title: Option<string>, status: Option<Status>, assignee: Option<string>,
                         put: map<string, string>, unset: set<string>)

  datatype UpdateReq = UpdateReq(id: Id, actor: string, patch: Patch, expected: Option<int>,
                                 expectStatus: Option<Status>, expectAssignee: Option<string>,
                                 forceTransfer: bool, forceClose: bool)

  function Or<T>(o: Option<T>, d: T): T {
    match o case Some(v) => v case None => d
  }

  function Patched(row: Row, p: Patch): Row {
    row.(title := Or(p.title, row.title), status := Or(p.status, row.status),
         assignee := Or(p.assignee, row.assignee), metadata := (row.metadata + p.put) - p.unset)
  }

  predicate IsLetter(c: char) {
    'a' <= c <= 'z' || 'A' <= c <= 'Z' || c == '_'
  }

  /** A metadata key: a letter or underscore, then letters, digits, underscores, dots and slashes. */
  predicate ValidKey(key: string) {
    key != "" && IsLetter(key[0]) && forall c :: c in key ==> IsLetter(c) || '0' <= c <= '9' || c == '.' || c == '/'
  }

  predicate BadKeys(p: Patch) {
    exists k :: k in p.put.Keys + p.unset && !ValidKey(k)
  }

  /** A live claim moves to another holder only by its holder, by naming it, by force, or out of a pool. */
  predicate MayTransfer(cfg: Config, row: Row, r: UpdateReq) {
    || r.patch.assignee.None? || ActorMatches(r.patch.assignee.value, row.assignee)
    || r.expectAssignee.Some? || r.forceTransfer
    || row.status != InProgress || row.assignee == "" || ActorMatches(row.assignee, r.actor)
    || row.assignee in cfg.pools
  }

  function UpdateGuard(cfg: Config, st: State, r: UpdateReq): Option<Refusal> {
    if r.actor == "" || r.id == "" ||
        (r.forceTransfer && (r.patch.assignee.None? || r.expectAssignee.Some?)) then Some(Invalid)
    else
      var guard := GuardVersion(st, r.id, r.expected);
      if guard.Some? then guard
      else
        var row := st.g.rows[r.id];
        if r.expectAssignee.Some? && !ActorMatches(row.assignee, r.expectAssignee.value) then Some(AssigneeMismatch)
        else if r.expectStatus.Some? && row.status != r.expectStatus.value then Some(StatusMismatch)
        else if !MayTransfer(cfg, row, r) then Some(AlreadyClaimed)
        else if BadKeys(r.patch) then Some(Invalid)
        else if Patched(row, r.patch) == row then None
        else
          var next := Patched(row, r.patch);
          if IsDone(cfg, next.status) && !IsDone(cfg, row.status) then CloseRefusal(st, r.id, r.forceClose) else None
  }

  predicate IsLive(s: Status) {
    s != Closed && s != Pinned
  }

  /** The column is settled only when the row's liveness changes. */
  ghost function Update(cfg: Config, st: State, r: UpdateReq, at: Stamp): Outcome<State> {
    var guard := UpdateGuard(cfg, st, r);
    if guard.Some? then Refused(guard.value)
    else
      var row := st.g.rows[r.id];
      var next := Patched(row, r.patch);
      if next == row then Ok(st)
      else if IsLive(row.status) != IsLive(next.status) then Written(st, r.id, Stamped(next, at))
      else Ok(Unsettled(st, r.id, Stamped(next, at)))
  }

  // ---------------------------------------------------------------- claims

  function ClaimRefusal(cfg: Config, row: Row, actor: string): Refusal {
    if row.assignee != "" && !ActorMatches(row.assignee, actor) && row.assignee !in cfg.pools then AlreadyClaimed
    else NotClaimable
  }

  /** The claim role: durable rows only. */
  function Claim(cfg: Config, st: State, id: Id, actor: string, at: Stamp): Outcome<State> {
    if actor == "" || id == "" then Refused(Invalid)
    else if id in st.g.rows && st.g.rows[id].plane == Wisps then Refused(NotFound([id]))
    else ClaimRow(cfg, st, id, actor, at)
  }

  /** The compare-and-set behind it. */
  function ClaimRow(cfg: Config, st: State, id: Id, actor: string, at: Stamp): Outcome<State> {
    if id !in st.g.rows then Refused(NotFound([id]))
    else
      var row := st.g.rows[id];
      if (row.assignee == "" || ActorMatches(row.assignee, actor) || row.assignee in cfg.pools) &&
          IsClaimable(cfg, row.status)
      then Ok(Unsettled(st, id, Stamped(row, at).(assignee := actor, status := InProgress)))
      else if ActorMatches(row.assignee, actor) && row.status == InProgress then Ok(st)
      else Refused(ClaimRefusal(cfg, row, actor))
  }

  function Release(st: State, id: Id, actor: string, expected: Option<string>, force: bool, at: Stamp): Outcome<State> {
    if actor == "" || id == "" || expected == Some("") || (expected.Some? && force) then Refused(Invalid)
    else if id !in st.g.rows then Refused(NotFound([id]))
    else
      var row := st.g.rows[id];
      if row.status != Open && row.status != InProgress then Refused(NotReleasable)
      else if expected.None? && row.assignee == "" then Refused(NotClaimed)
      else if expected.Some? && !ActorMatches(row.assignee, expected.value) then Refused(AssigneeMismatch)
      else if expected.None? && !force && !ActorMatches(row.assignee, actor) then Refused(NotOwner)
      else Ok(Unsettled(st, id, Stamped(row, at).(assignee := "", status := Open)))
  }

  // ---------------------------------------------------------------- edges

  predicate Spelled(e: EdgeReq) {
    e.source != "" && e.target != "" && IsTyped(e.kind)
  }

  predicate InShape(e: EdgeReq) {
    Spelled(e) && e.source != e.target
  }

  /** The request rules, edge by edge: the first edge that breaks one decides. */
  function ShapeRefusal(es: seq<EdgeReq>): (r: Option<Refusal>)
    ensures r.None? <==> forall e :: e in es ==> InShape(e)
    ensures r in {None, Some(Invalid), Some(SelfDependency)}
  {
    if es == [] then None
    else
      assert es[0] in es;
      if !Spelled(es[0]) then Some(Invalid)
      else if es[0].source == es[0].target then Some(SelfDependency)
      else ShapeRefusal(es[1..])
  }

  /** The first edge that breaks a rule decides the refusal, by the first rule it breaks. */
  lemma {:induction false} FirstOutOfShape(es: seq<EdgeReq>, i: nat)
    requires i < |es| && !InShape(es[i]) && forall j :: 0 <= j < i ==> InShape(es[j])
    ensures ShapeRefusal(es) == Some(if Spelled(es[i]) then SelfDependency else Invalid)
    decreases i
  {
    if i > 0 {
      assert InShape(es[0]);
      FirstOutOfShape(es[1..], i - 1);
    }
  }

  ghost function AddDependencies(st: State, actor: string, es: seq<EdgeReq>, skip: bool): Outcome<State> {
    if actor == "" || es == [] then Refused(Invalid)
    else if ShapeRefusal(es).Some? then Refused(ShapeRefusal(es).value)
    else if !FoldSettles(st.g, ParentChildFirst(es), skip, st.blocked) then Refused(Endless)
    else
      match AddEdges(st.g, es, skip)
      case Refused(why) => Refused(why)
      case Ok(h) => Ok(State(h, FoldFlags(st.g, ParentChildFirst(es), st.blocked)))
  }

  ghost function RemoveDependency(st: State, actor: string, s: Id, t: Id): Outcome<State> {
    if actor == "" || s == "" || t == "" then Refused(Invalid) else Ok(Dropped(st, s, t))
  }

  // ---------------------------------------------------------------- create

  datatype CreateReq = CreateReq(id: Id, row: Row, edges: seq<EdgeReq>)

  /** One edge of a create. A missing target is set aside, and a stored pair keeps its
      first type: neither stops the fold. */
  ghost function CreateEdge(g: Graph, e: EdgeReq): Outcome<Graph> {
    if !IsExternal(e.source, e.target) && e.target !in g.rows then Ok(g)
    else if AncestorConflict(g, e) then Refused(HierarchyConflict(true))
    else if DescendantConflict(g, e) then Refused(HierarchyConflict(false))
    else if e.source == e.target then Refused(SelfDependency)
    else if CycleConflict(g, e) then Refused(Cycle)
    else if e.source !in g.rows then Refused(SourceNotFound)
    else if (e.source, e.target) in g.edges then Ok(g)
    else Ok(Put(g, e))
  }

  ghost function CreateEdges(g: Graph, es: seq<EdgeReq>): Outcome<Graph>
    decreases |es|
  {
    if es == [] then Ok(g)
    else match CreateEdge(g, es[0])
      case Refused(why) => Refused(why)
      case Ok(h) => CreateEdges(h, es[1..])
  }

  predicate SetAside(g: Graph, e: EdgeReq) {
    !IsExternal(e.source, e.target) && e.target !in g.rows
  }

  /** What the pairs that are new in h can affect. */
  function NewSeeds(g: Graph, h: Graph): set<Id> {
    set pair, x | pair in h.edges && pair !in g.edges && x in EdgeSeeds(h, pair.0, pair.1, h.edges[pair].kind) :: x
  }

  ghost function Create(cfg: Config, st: State, r: CreateReq): Outcome<State> {
    if !IsKnown(cfg, r.row.status) then Refused(Invalid)
    else if r.id in st.g.rows then Refused(AlreadyExists)
    else
      var g := SetRow(st.g, r.id, r.row);
      match CreateEdges(g, ParentChildFirst(r.edges))
      case Refused(why) => Refused(why)
      case Ok(h) =>
        var a := {r.id} + Descend(h, NewSeeds(g, h));
        if exists e :: e in r.edges && SetAside(g, e) then Refused(NotFound([]))
        else if !Settles(h, a, st.blocked) then Refused(Endless)
        else Ok(State(h, Rounds(h, a, st.blocked)))
  }

  // ---------------------------------------------------------------- delete

  /** Under an edge's target stands its source; edges of every type and both planes count. */
  function Dependents(g: Graph): Rel {
    set e | e in g.edges :: (e.1, e.0)
  }

  function Outsiders(g: Graph, x: Id, ids: set<Id>): set<Id> {
    set e | e in g.edges && e.1 == x && e.0 !in ids :: e.0
  }

  function Members(ids: seq<Id>): set<Id> {
    set i | 0 <= i < |ids| :: ids[i]
  }

  datatype DeleteReq = DeleteReq(ids: seq<Id>, cascade: bool, force: bool, expected: Option<int>)

  const RUNAWAY: nat := 10000

  ghost function Doomed(g: Graph, r: DeleteReq): set<Id> {
    if r.cascade then ReachSet(Dependents(g), Members(r.ids)) else Members(r.ids)
  }

  function Missing(g: Graph, ids: seq<Id>): seq<Id> {
    if ids == [] then [] else (if ids[0] in g.rows then [] else [ids[0]]) + Missing(g, ids[1..])
  }

  /** The first named id, in request order, that something outside the request depends on. */
  function FirstGuarded(g: Graph, ids: seq<Id>, named: set<Id>): Option<Id> {
    if ids == [] then None
    else if Outsiders(g, ids[0], named) != {} then Some(ids[0])
    else FirstGuarded(g, ids[1..], named)
  }

  ghost function DeleteRefusal(st: State, r: DeleteReq): Option<Refusal> {
    if r.ids == [] || "" in r.ids || (r.expected.Some? && |Members(r.ids)| > 1) then Some(Invalid)
    else if Missing(st.g, r.ids) != [] then Some(NotFound(Missing(st.g, r.ids)))
    else if r.expected.Some? && st.g.rows[r.ids[0]].version != r.expected.value then Some(VersionMismatch)
    else
      var guarded := FirstGuarded(st.g, r.ids, Members(r.ids));
      if !r.cascade && !r.force && guarded.Some?
      then Some(DependentsOutside(guarded.value, Outsiders(st.g, guarded.value, Members(r.ids))))
      else if r.cascade && |Doomed(st.g, r)| > RUNAWAY then Some(Runaway)
      else None
  }

  /** The survivors joined to a removed row by an edge, in either direction. */
  function Bordering(g: Graph, d: set<Id>): set<Id> {
    (set e | e in g.edges && e.0 in d && e.1 !in d && e.1 in g.rows :: e.1) +
    (set e | e in g.edges && e.1 in d && e.0 !in d :: e.0)
  }

  /** The rewriting of citations restamps each bordering row that cites a removed id: cited
      gives those rows and the stamp of their last rewrite. */
  function Restamped(st: State, border: set<Id>, cited: map<Id, Stamp>): State {
    st.(g := st.g.(rows := map x | x in st.g.rows ::
      if x in border && x in cited then Stamped(st.g.rows[x], cited[x]) else st.g.rows[x]))
  }

  ghost function Delete(st: State, r: DeleteReq, cited: map<Id, Stamp>): Outcome<State> {
    var refusal := DeleteRefusal(st, r);
    if refusal.Some? then Refused(refusal.value)
    else Ok(Restamped(Erased(st, Doomed(st.g, r)), Bordering(st.g, Doomed(st.g, r)), cited))
  }

  /** What a delete reports: rows removed, edges that touched them, the survivors a forced
      delete leaves without something they depended on, and the citing rows rewritten. */
  datatype DeleteReport = DeleteReport(deleted: nat, dependencies: nat, orphaned: set<Id>, references: nat)

  function Touching(g: Graph, d: set<Id>): set<(Id, Id)> {
    set e | e in g.edges && (e.0 in d || e.1 in d)
  }

  function Orphans(g: Graph, ids: set<Id>): set<Id> {
    set e | e in g.edges && e.1 in ids && e.0 !in ids :: e.0
  }

  ghost function Report(st: State, r: DeleteReq, cited: map<Id, Stamp>): DeleteReport {
    DeleteReport(|Doomed(st.g, r)|, |Touching(st.g, Doomed(st.g, r))|,
                 if r.force && !r.cascade then Orphans(st.g, Members(r.ids)) else {},
                 |Bordering(st.g, Doomed(st.g, r)) * cited.Keys|)
  }
}
