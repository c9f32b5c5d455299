/** One store, any session: its methods, called one after another, carry out the runs that the
    theorems speak of. */
module Sessions {

  import opened Digraph
  import opened IssueGraph
  import opened Edits
  import opened Flags
  import opened Results
  import opened Verbs
  import opened Batch
  import opened Store
  import opened BatchStore
  import opened Histories
  import opened Reading

  /** A stamp for each close of a batch, and an id and stamps for each item. */
  ghost predicate Supplied(op: Op) {
    && (op.DoCloseBatch? ==> |op.ats| == |op.closes|)
    && (op.DoApplyBatch? ==> Supplies(op.env, op.batch) && NonEmptyIds(op.env))
  }

  /** One call of the method the operation names. */
  method Perform(store: IssueStore, cfg: Config, op: Op)
    requires Sound(store.View()) && Supplied(op)
    modifies store
    ensures store.View() == Histories.Step(cfg, old(store.View()), op) && Sound(store.View())
  {
    ghost var before := store.View();
    HierarchyWithinScheduling(before.g);
    match op {
      case DoCreate(r) => var _ := store.Create(cfg, r);
      case DoUpdate(r, at) => var _ := store.Update(cfg, r, at);
      case DoClose(r, at) => var _ := store.Close(r, at);
      case DoCloseBatch(closes, ats) => var _ := store.CloseBatch(closes, ats);
      case DoReopen(id, actor, expected, at) => var _ := store.Reopen(cfg, id, actor, expected, at);
      case DoClaim(id, actor, at) => var _ := store.Claim(cfg, id, actor, at);
      case DoRelease(id, actor, holder, force, at) => var _ := store.Release(id, actor, holder, force, at);
      case DoAddDependencies(actor, es, skip) => var _ := store.AddDependencies(actor, es, skip);
      case DoRemoveDependency(actor, s, t) => var _ := store.RemoveDependency(actor, s, t);
      case DoDelete(r, cited) => var _, _ := store.Delete(r, false, cited);
      case DoApplyBatch(r, env) => var _, _, _ := ApplyBatchInTx(store, cfg, env, r);
    }
    StepKeeps(cfg, before, op);
  }

  lemma {:induction false} RunJoins(cfg: Config, st: State, ops: seq<Op>, i: nat)
    requires i < |ops|
    ensures Run(cfg, st, ops[..i + 1]) == Histories.Step(cfg, Run(cfg, st, ops[..i]), ops[i])
    decreases i
  {
    if i == 0 {
      assert ops[..1] == [ops[0]] && ops[..0] == [];
    } else {
      assert ops[..i + 1][1..] == ops[1..][..i] && ops[..i][1..] == ops[1..][..i - 1];
      RunJoins(cfg, Histories.Step(cfg, st, ops[0]), ops[1..], i - 1);
    }
  }

  /** EVERY SESSION IS A RUN, and so keeps what every run keeps: read off the tables, the column
      a quiet session leaves is right at every row. */
  method Session(store: IssueStore, cfg: Config, ops: seq<Op>)
    requires Sound(store.View()) && forall i :: 0 <= i < |ops| ==> Supplied(ops[i])
    modifies store
    ensures store.View() == Run(cfg, old(store.View()), ops) && Sound(store.View())
    ensures Fresh(old(store.View())) && QuietRun(cfg, old(store.View()), ops) ==>
              forall x :: x in store.blocked <==> Alive(store.G(), x) && BlockedBy(store.G(), store.blocked, x)
  {
    ghost var before := store.View();
    var i := 0;
    while i < |ops|
      invariant 0 <= i <= |ops| && Sound(store.View()) && store.View() == Run(cfg, before, ops[..i])
    {
      RunJoins(cfg, before, ops, i);
      Perform(store, cfg, ops[i]);
      i := i + 1;
    }
    assert ops[..i] == ops;
    RunKeeps(cfg, before, ops);
    if Fresh(before) && QuietRun(cfg, before, ops) {
      forall x ensures x in store.blocked <==> Alive(store.G(), x) && BlockedBy(store.G(), store.blocked, x) {
        BlockedMeans(store.View(), x);
      }
    }
  }
}
