/** Every run of the mutating verbs from a sound state. */
module Histories {

  import opened Digraph
  import opened IssueGraph
  import opened Edits
  import opened Flags
  import opened Results
  import opened Verbs
  import opened BatchPlan
  import opened Batch
  import opened Runs

  datatype Op =
    | DoCreate(create: CreateReq)
    | DoUpdate(update: UpdateReq, at: Stamp)
    | DoClose(close: CloseReq, at: Stamp)
    | DoCloseBatch(closes: seq<CloseReq>, ats: seq<Stamp>)
    | DoReopen(id: Id, actor: string, expected: Option<int>, at: Stamp)
    | DoClaim(id: Id, actor: string, at: Stamp)
    | DoRelease(id: Id, actor: string, holder: Option<string>, force: bool, at: Stamp)
    | DoAddDependencies(actor: string, edges: seq<EdgeReq>, skip: bool)
    | DoRemoveDependency(actor: string, source: Id, target: Id)
    | DoDelete(delete: DeleteReq, cited: map<Id, Stamp>)
    | DoApplyBatch(batch: BatchReq, env: Env)

  /** A batch close goes left to right and skips what it refuses. */
  ghost function CloseAll(st: State, closes: seq<CloseReq>, ats: seq<Stamp>): State
    decreases |closes|
  {
    if closes == [] || ats == [] then st
    else CloseAll(After(st, Close(st, closes[0], ats[0])), closes[1..], ats[1..])
  }

  /** What each item of a batch close is told, at its turn. */
  ghost function CloseRefusals(st: State, closes: seq<CloseReq>, ats: seq<Stamp>): seq<Option<Refusal>>
    decreases |closes|
  {
    if closes == [] || ats == [] then []
    else
      var out := Close(st, closes[0], ats[0]);
      [if out.Refused? then Some(out.why) else None] + CloseRefusals(After(st, out), closes[1..], ats[1..])
  }

  /** A refused request leaves the state exactly as it was. */
  ghost function After(st: State, out: Outcome<State>): State {
    match out case Ok(next) => next case Refused(_) => st
  }

  ghost predicate Planned(op: Op) {
    op.DoApplyBatch? ==>
        Supplies(op.env, op.batch) && NonEmptyIds(op.env) && WellPlanned(op.batch.actor, op.batch.items)
  }

  ghost function Step(cfg: Config, st: State, op: Op): State {
    match op
    case DoCreate(r) => After(st, Create(cfg, st, r))
    case DoUpdate(r, at) => After(st, Update(cfg, st, r, at))
    case DoClose(r, at) => After(st, Close(st, r, at))
    case DoCloseBatch(rs, ats) => CloseAll(st, rs, ats)
    case DoReopen(id, actor, expected, at) => After(st, Reopen(cfg, st, id, actor, expected, at))
    case DoClaim(id, actor, at) => After(st, Claim(cfg, st, id, actor, at))
    case DoRelease(id, actor, holder, force, at) => After(st, Release(st, id, actor, holder, force, at))
    case DoAddDependencies(actor, es, skip) => After(st, AddDependencies(st, actor, es, skip))
    case DoRemoveDependency(actor, s, t) => After(st, RemoveDependency(st, actor, s, t))
    case DoDelete(r, cited) => After(st, Delete(st, r, cited))
    case DoApplyBatch(r, env) =>
      if !Planned(op) then st
      else match ApplyBatch(cfg, env, st, r) case Ok(ran) => ran.st case Refused(_) => st
  }

  /** The step is not one of the two families that write without settling: it moves no
      row between closed and pinned while a live waiter turns on it, and it rewrites no
      gate that alone decides a verdict. */
  ghost predicate Quiet(cfg: Config, st: State, op: Op) {
    match op
    case DoUpdate(r, at) => Update(cfg, st, r, at).Ok? ==> !Disturbs(st, r)
    case DoAddDependencies(actor, es, skip) =>
      AddDependencies(st, actor, es, skip).Ok? ==> SafeReAdds(st.g, ParentChildFirst(es), st.blocked)
    case DoApplyBatch(r, env) => Planned(op) && ApplyBatch(cfg, env, st, r).Ok? ==> ItemsSafe(cfg, env, r, st)
    case _ => true
  }

  ghost function Run(cfg: Config, st: State, ops: seq<Op>): State
    decreases |ops|
  {
    if ops == [] then st else Run(cfg, Step(cfg, st, ops[0]), ops[1..])
  }

  ghost predicate QuietRun(cfg: Config, st: State, ops: seq<Op>)
    decreases |ops|
  {
    ops == [] || (Quiet(cfg, st, ops[0]) && QuietRun(cfg, Step(cfg, st, ops[0]), ops[1..]))
  }

  lemma {:induction false} CloseAllKeeps(st: State, closes: seq<CloseReq>, ats: seq<Stamp>)
    requires Sound(st)
    ensures Sound(CloseAll(st, closes, ats)) && (Fresh(st) ==> Fresh(CloseAll(st, closes, ats)))
    decreases |closes|
  {
    if closes != [] && ats != [] {
      if Close(st, closes[0], ats[0]).Ok? { CloseKeeps(st, closes[0], ats[0]); }
      CloseAllKeeps(After(st, Close(st, closes[0], ats[0])), closes[1..], ats[1..]);
    }
  }

  lemma {:induction false} RowOpKeeps(cfg: Config, st: State, op: Op)
    requires Sound(st) && (op.DoCreate? || op.DoUpdate? || op.DoClose? || op.DoReopen? || op.DoClaim? || op.DoRelease?)
    ensures Sound(Step(cfg, st, op))
    ensures Fresh(st) && Quiet(cfg, st, op) ==> Fresh(Step(cfg, st, op))
  {
    match op
    case DoCreate(r) => if Create(cfg, st, r).Ok? { CreateKeeps(cfg, st, r); }
    case DoUpdate(r, at) =>
      if Update(cfg, st, r, at).Ok? {
        UpdateKeepsTidy(cfg, st, r, at);
        if Fresh(st) { UpdateKeeps(cfg, st, r, at); }
      }
    case DoClose(r, at) => if Close(st, r, at).Ok? { CloseKeeps(st, r, at); }
    case DoReopen(id, actor, expected, at) =>
      if Reopen(cfg, st, id, actor, expected, at).Ok? { ReopenKeeps(cfg, st, id, actor, expected, at); }
    case DoClaim(id, actor, at) => if Claim(cfg, st, id, actor, at).Ok? { ClaimKeeps(cfg, st, id, actor, at); }
    case DoRelease(id, actor, holder, force, at) =>
      if Release(st, id, actor, holder, force, at).Ok? { ReleaseKeeps(st, id, actor, holder, force, at); }
  }

  lemma {:induction false} StepKeeps(cfg: Config, st: State, op: Op)
    requires Sound(st)
    ensures Sound(Step(cfg, st, op))
    ensures Fresh(st) && Quiet(cfg, st, op) ==> Fresh(Step(cfg, st, op))
  {
    match op
    case DoCloseBatch(rs, ats) => CloseAllKeeps(st, rs, ats);
    case DoAddDependencies(actor, es, skip) =>
      if AddDependencies(st, actor, es, skip).Ok? { AddDependenciesKeeps(st, actor, es, skip); }
    case DoRemoveDependency(actor, s, t) =>
      if RemoveDependency(st, actor, s, t).Ok? { RemoveDependencyKeeps(st, actor, s, t); }
    case DoDelete(r, cited) => if Delete(st, r, cited).Ok? { DeleteKeeps(st, r, cited); }
    case DoApplyBatch(r, env) => if Planned(op) && ApplyBatch(cfg, env, st, r).Ok? { BatchKeeps(cfg, env, st, r); }
    case _ => RowOpKeeps(cfg, st, op);
  }

  /** THE BLOCKED-STATE INVARIANT. From a sound state, every run of the verbs, accepted
      or refused, stays sound: both planes well formed and the scheduling graph acyclic.
      From a settled state, every quiet run leaves the stored column equal to a full
      recompute after its last step, and so after each of them. */
  lemma {:induction false} RunKeeps(cfg: Config, st: State, ops: seq<Op>)
    requires Sound(st)
    ensures Sound(Run(cfg, st, ops))
    ensures Fresh(st) && QuietRun(cfg, st, ops) ==>
            Fresh(Run(cfg, st, ops)) && Consistent(Run(cfg, st, ops).g, Run(cfg, st, ops).blocked)
    decreases |ops|
  {
    if ops == [] {
      HierarchyWithinScheduling(st.g);
      OneSolution(st.g, st.blocked);
    } else {
      StepKeeps(cfg, st, ops[0]);
      RunKeeps(cfg, Step(cfg, st, ops[0]), ops[1..]);
    }
  }

  /** Most requests are quiet on their face: only a waits-for edge can be re-added
      unsafely, and only with another gate than the stored one. */
  lemma {:induction false} QuietOnItsFace(cfg: Config, st: State, actor: string, es: seq<EdgeReq>, skip: bool)
    requires GatesKept(st.g, es)
    ensures Quiet(cfg, st, DoAddDependencies(actor, es, skip))
  {
    if AddDependencies(st, actor, es, skip).Ok? {
      InsertAllApplies(st.g, ParentChildFirst(es), skip);
      GatesKeptIsSafe(st.g, ParentChildFirst(es), st.blocked);
    }
  }

  const EMPTY := State(Graph(map[], map[]), {})

  lemma {:induction false} EmptyIsSound()
    ensures Sound(EMPTY) && Fresh(EMPTY)
  {
    forall u, n: nat | n > 0 ensures !Walk(Scheduling(EMPTY.g), u, u, n) { }
    assert Recompute(EMPTY.g) == {};
  }

  /** EVERY STORE THE VERBS BUILD: whatever run made it out of nothing, it is sound, and if
      the run was quiet its column is the one solution of the blocking predicate. */
  lemma {:induction false} BuiltFromNothing(cfg: Config, ops: seq<Op>)
    ensures Sound(Run(cfg, EMPTY, ops))
    ensures QuietRun(cfg, EMPTY, ops) ==>
            forall b :: Consistent(Run(cfg, EMPTY, ops).g, b) <==> b == Run(cfg, EMPTY, ops).blocked
  {
    EmptyIsSound();
    RunKeeps(cfg, EMPTY, ops);
    var end := Run(cfg, EMPTY, ops);
    HierarchyWithinScheduling(end.g);
    forall b ensures Consistent(end.g, b) <==> b == Recompute(end.g) { OneSolution(end.g, b); }
  }
}
