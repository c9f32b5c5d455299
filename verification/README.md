# The beads issue graph, modelled and proved

beads keeps issues in two planes, durable issues and ephemeral wisps, over one
id space. Edges between rows block them, parent them, or make them wait for a
spawner's children. From edges and statuses follows a derived column,
`is_blocked`, which is stored on every row and repaired a little at a time
inside each mutating verb. This project models that store and the roles around
it, and proves what they promise over every input, every run and every
interleaving.

The graph and the blocked column

- `Results`, `Digraph` — an optional value; walks, reachability, acyclicity, and the frontier worklist that
  every traversal of the store runs.
- `IssueGraph` — rows, edges, gates, the blocking predicate, its full recompute
  and the incremental forms; the predicate has exactly one solution when the
  hierarchy is acyclic.
- `Reading` — the blocked column and the affected sets read off the stored tables:
  statuses, edge types and id prefixes, with no derived notion in between.
- `Affected` — the set of rows each mutation can affect, and that nothing
  outside it can change its verdict.
- `Flags` — the flags each kind of write leaves, equal to a full recompute or
  equal exactly under a stated condition.
- `Settlement`, `Store` — the mark and unmark statements, repeated in place, and
  the store as a class whose verbs are proved against the specifications.

The verbs

- `Edits` — the gates one edge passes and the two orders a request can be
  applied in.
- `Acceptance`, `Creation` — which edge requests and creates are accepted, and why
  others are not, read off the stored tables and the request.
- `Verbs`, `Runs`, `Histories` — create, update, close, reopen, claim, release,
  edge edits, delete and batches as steps on the stored state, and what every
  run of them keeps.
- `RowVerbs`, `ItemVerbs` — what close, reopen, claim, release, update and each
  batch item answer and leave, column by column.
- `Sessions` — the store's methods carry out exactly those runs.
- `Drift`, `Ledger` — how far the column can drift when a write settles nothing,
  over every run, and to the row within one request.
- `Endings`, `Rings` — when a settlement comes to an end, and exactly when on a
  ring of parents.
- `BatchPlan`, `Batch`, `BatchStore` — the static plan, the application in
  declared order, the splice, the end gate, the rollback.
- `Deletion`, `ClosePolicy`, `Claims`, `Identity` — what a delete leaves, what
  unforced closes can clear, claims under interleaving, actor spellings.

The other planes and reads

- `Journal`, `Consumer`, `Relapse` — the mutation journal, a consumer under any
  interleaving of appends, losses and polls, and what it misses when the counter
  is put back.
- `MetadataCas` — compare-and-set over one key of a blob rewritten whole, beside
  the metadata edits of the other verbs.
- `Ordering`, `CycleReport`, `TreeWalk`, `Paging` — the canonical cycle report,
  the first-visit tree walk, pages over two merged planes.
- `ClaimParser` — the claim-error message and its parser.
- `Witnesses` — concrete inputs for the promises that do not hold as written.

The model follows the storage code under `internal/storage`, which is where the
public contract files under `issueops` and `journalops` are carried out. Clocks,
version tokens, ids the store assigns and the order in which rows of an
unordered read arrive are parameters. Strings compare code unit by code unit.

## Where the code and its promises part

Each of these is a promise of the documentation that the code does not keep as
written. The code is modelled as it is; a lemma gives an input, and another
proves exactly when the promise does hold.

- Re-adding a stored waits-for edge replaces its gate and settles nothing
  (`internal/storage/issueops/dependencies.go:265-277`), so the column can be
  left stale: `Witnesses.ReAddGoesStale`, exact in `Flags.ReAddExact` and
  `Runs.AddOneExact`.
- An update between closed and pinned settles nothing
  (`internal/storage/issueops/update.go:518-520`), though an any-children gate
  asks for a closed child: `Witnesses.RepinGoesStale`, exact in
  `Flags.RestandingExact` and `Runs.UpdateKeeps`.
- With the per-edge probe off, a request that closes a ring of parents is promised
  a cycle refusal from the last gate (`issueops/dependencyeditor.go:61-71`), but
  the edge is settled first, by a loop that only a quiet round stops
  (`internal/storage/issueops/blocked_state.go:112-144`). Over a stale column no
  round need ever be quiet: `Witnesses.RingIsNeverAnswered`. From a right column
  every such request is answered (`Endings.EditorAnswers`,
  `Endings.BatchAnswers`); from any other, on a single ring, exactly under the
  condition of `Rings.RingEdgeExact`. Where parents branch, so that one edge
  closes several rings at once, the rounds are a general network of and-or gates
  and no condition short of running them is known.
- A forced delete leaves an edge onto the removed row when that edge was stored
  as external, as every cross-prefix edge is: `Witnesses.ForcedDeleteDangles`,
  exact in `Deletion.WhatDeleteLeaves`.
- The plan's rule against a version guard on a row the same batch wrote does not
  see an id that the store itself assigned: `Witnesses.MintedIdPassesThePlan`,
  exact, on the state before the request, in `Batch.GuardReadsUntouchedRow`.
- The plan is documented as the whole of a batch's request validation
  (`internal/storage/batch_apply.go:61-64`) and asks only that a metadata ref have
  a name; the splice goes through the update, which refuses names that are not
  metadata keys, so a planned batch can be refused and rolled back for its
  shape: `Witnesses.BadKeyPassesThePlan`, exact in `Batch.SplicePasses`.
- A stale journal counter is said to be healed when its number is taken
  (`internal/storage/issueops/journal.go:497-500`), and journal numbers to be in
  commit order; after a prune the stale number can be free, nothing heals it and
  the row lands below rows that consumers have passed:
  `Witnesses.StaleCounterMisorders`, exact in `Journal.InsertEventRow`; which
  entries a consumer then misses is exact in `Relapse.MissedInSilence`.

A call that is never answered is specified as one that is refused with `Endless`
and commits nothing.

The first two of these turn rows stale and nothing more: `Drift.DriftIsConfined`
says at which rows the stored flag can disagree with the predicate, read off the
stored flags, after any run of the verbs, and that it never does at another.

The refusal of a gate onto a descendant gives as its reason that such a block
could never clear (`issueops/errors.go:256-272`). No store holds such a gate
(`ClosePolicy.NoDescendantGate`); were it admitted, an unforced close of the
descendant could clear it (`ClosePolicy.DescendantGateClears`). The ancestor half
of the reason holds as stated: `ClosePolicy.ChainStaysOpen`.

## Model

| member | source | states |
|---|---|---|
| Digraph.GrowthKeepsAcyclic | internal/storage/issueops/dependency_editor.go:205-234 | growing an acyclic graph keeps it acyclic if and only if no new edge lies on a cycle of the grown graph: the whole-graph gate is sound and complete |
| Digraph.ProbeDecides | internal/storage/issueops/dependencies.go:441-480 | the per-edge probe, which looks before the edge goes in, decides exactly whether the edge would close a cycle |
| Digraph.Closure | internal/storage/issueops/blocked_state.go:655-697 | the frontier expansion, in batches of any size and order, terminates with exactly what the seeds reach |
| Digraph.Reachable | internal/storage/issueops/dependencies.go:482-511 | the recursive reachability query answers yes if and only if a walk exists |
| IssueGraph.OneSolution | issueops/blockedstate.go:15-38 | with an acyclic hierarchy a column satisfies the blocking predicate at every row of both planes if and only if it is the full recompute: one solution, and no other |
| IssueGraph.SettledIsRecompute | issueops/blockedstate.go:30-38 | settling only an affected set that frames the mutation gives the full recompute of the new graph |
| IssueGraph.MarkedIsRecompute | internal/storage/issueops/blocked_state.go:146-173 | marking alone gives the full recompute when causes only appear |
| Reading.BlockedMeans | issueops/blockedstate.go:15-28 | in a sound and settled store a row carries the flag if and only if its status is neither closed nor pinned and it has a local blocks or conditional-blocks edge onto a row of neither status, a local parent that carries the flag, or a local waits-for edge whose gate is unsatisfied: stated on the stored rows, edge types and id prefixes alone |
| Reading.BuiltColumnMeans | issueops/blockedstate.go:15-38 | the same of every store that a quiet run has built out of nothing |
| Reading.WantsMeans | internal/storage/issueops/blocked_state.go:206-249 | what the mark statement asks of one row, over any graph and any stored column, is those three clauses |
| Reading.StatusSetMeans | internal/storage/issueops/blocked_state.go:455-497 | the affected set of a status write is exactly the row, what blocks or waits on it, what waits on a parent of it, and everything below these in the stored hierarchy |
| Reading.EdgeSetMeans | internal/storage/issueops/blocked_state.go:499-533 | that of an edge write is exactly its source, for a parent-child edge what waits on the parent, and everything below; nothing for a type that derives nothing |
| Reading.DeletionSetMeans | internal/storage/issueops/blocked_state.go:594-653 | that of a deletion is exactly the survivors tied to a removed row and all below them by chains of survivors |
| Reading.CreateSetMeans | internal/storage/issueops/create.go:479-526 | that of the edges a create added is exactly what the new pairs touch and all below it |
| Affected.StatusFrames | internal/storage/issueops/blocked_state.go:455-497 | a row outside the closure of the status seeds reads the same causes and parents before and after any row write |
| Affected.EdgeFrames | internal/storage/issueops/blocked_state.go:499-533 | the same for adding, removing or rewriting one edge, with the set read off the new graph |
| Affected.DeletionFrames | internal/storage/issueops/blocked_state.go:594-653 | the same for deleting any set of rows, with the descent going around deleted rows |
| Affected.CreateFrames | internal/storage/issueops/create.go:479-526 | a new row by itself affects only itself |
| Flags.RewrittenFresh | internal/storage/issueops/close.go:318-385 | a row write followed by its settlement keeps the column equal to the full recompute |
| Flags.NewEdgeFresh | internal/storage/issueops/dependencies.go:325-355 | after any new edge, settled or marked as its type asks, the column is the full recompute |
| Flags.SourceMarked | internal/storage/issueops/dependencies.go:385-435 | the direct mark of a blocking edge's source is derived, and after it the source carries all it is owed, so it may be left out of the marking passes |
| Flags.ReAddExact | internal/storage/issueops/dependencies.go:265-277 | re-adding a stored pair keeps the column right if and only if it rewrites no gate that alone decides a live row's verdict |
| Flags.RestandingExact | internal/storage/issueops/update.go:509-520 | a move between closed and pinned, which settles nothing, keeps the column right if and only if no live waiter's verdict turns on the row |
| Flags.DroppedFresh | internal/storage/issueops/dependencies.go:924-980 | removing an edge of any type keeps the column equal to the full recompute and adds no scheduling edge |
| Flags.ErasedFresh | internal/storage/issueops/delete.go:282-345 | deleting any set of rows keeps the survivors' column equal to the full recompute, in both planes |
| Flags.FoldFresh | internal/storage/issueops/dependency_editor.go:110-150 | a list of edges, each settled as it is written, ends in the full recompute of the final graph |
| Flags.GatesKeptIsSafe | issueops/dependencyeditor.go:128-135 | a request that rewrites no stored gate meets the re-add condition at every step |
| Settlement.PassRaises | internal/storage/issueops/blocked_state.go:403-434 | one batch of mark then unmark loses no settled flag and settles the next level of the hierarchy within the batch |
| Settlement.StillIsSettled | internal/storage/issueops/blocked_state.go:124-143 | a column that a whole pass leaves alone is the settled one |
| Settlement.SettlingIsIdempotent | issueops/blockedstate.go:48-55 | settling twice is settling once, no row outside the set changes, and a consistent column is left alone whatever set is settled |
| Settlement.OneSidedEnds | internal/storage/issueops/blocked_state.go:112-144 | from a column in which the affected set only lacks flags, or only has too many, the rounds end on every graph, rings of parents included, in any batching and order |
| Settlement.AcyclicEnds | internal/storage/issueops/blocked_state.go:112-144 | with no ring of parents the rounds end from any column, at the settled one, within as many as there are rows |
| Store.IssueStore.Settle | internal/storage/issueops/blocked_state.go:112-144 | the rounds answer exactly when some round is quiet, with the column of that round; with no ring of parents they always do, for every batching and order and from any column, at exactly the settled column; only the column changes, so no row's updated_at does |
| Settlement.SweepRaises | internal/storage/issueops/blocked_state.go:124-143 | a round settles one more level of the hierarchy, and a round that changes nothing has settled them all |
| Store.IssueStore.Round | internal/storage/issueops/blocked_state.go:403-434 | one round in place is the sweep of its batches in order, and reports a change exactly when a statement wrote |
| Store.IssueStore.Mark | internal/storage/issueops/blocked_state.go:146-173 | the mark-only rounds terminate with the least column above the stored one that the predicate asks for |
| Edits.EditorAccepts | issueops/dependencyeditor.go:61-71 | the editor, probing or not, accepts exactly the requests whose finished graph has no cycle through a named edge and no named blocking edge along its own hierarchy |
| Edits.BatchAccepts | issueops/batchapplier.go:432-445 | declared order with an end gate accepts exactly the same requests |
| Edits.OrderAndProbingDoNotMatter | issueops/dependencyeditor.go:61-71 | parent-child first or declared order, probe on or off: the same requests are accepted and the same graph is left |
| Edits.AcceptedGraphIsSafe | issueops/dependencyeditor.go:147-154 | an accepted request keeps the graph well formed and acyclic, and no blocking edge it named joins an issue to its own ancestor or descendant |
| Acceptance.AcceptedExactly | internal/storage/issueops/dependencies.go:209-290 | from a sound store a request is accepted, probing or not, if and only if it has an actor and an edge, every edge is well spelled, its rows are there and each pair has one type, and no edge closes a walk of blocks, conditional-blocks and parent-child edges or blocks an issue across its own hierarchy, stored and requested edges counted alike |
| Acceptance.CycleRefusalMeans | internal/storage/issueops/dependencies.go:441-511 | a request is refused for a cycle only if a named edge of one of those three types has a walk from its target back to its source over stored or requested edges of those types |
| Acceptance.HarmlessIsAccepted | backend/conformance/audit_dependencies_readiness.go:149-156 | a well-posed request of waits-for and other edges is always accepted, whichever way they point |
| Acceptance.OneEdgePlainly | internal/storage/issueops/dependencies.go:209-290 | one edge with the probe on: which check refuses it, in their order, and otherwise exactly the one pair written |
| Acceptance.EditLeaves | internal/storage/issueops/dependencies.go:265-355 | an accepted request moves no row, stores every named pair with its type and its gate, and leaves every other pair as it was |
| Acceptance.RemovePlainly | internal/storage/issueops/dependencies.go:924-980 | a removal takes exactly the one pair, and nothing when it is not stored |
| Creation.CreatedExactly | internal/storage/issueops/execution.go:37-105 | from a sound store a create that gives no pair two types is accepted if and only if its status is known, its id is free, every edge joins two rows, and no edge closes a cycle or crosses its hierarchy, stored and requested edges counted alike |
| Creation.CreateWithOneEdge | internal/storage/issueops/create.go:859-980 | a create with one edge: which check refuses it, in their order, a missing target included; a pair stored already keeps its type and gate |
| Creation.NotFoundMeans | internal/storage/issueops/execution.go:116-123 | a create answers not-found only when an edge of it names a row of this database that is not there |
| Acceptance.CreatePlainly | internal/storage/issueops/create.go:859-980 | an accepted create adds the row as given and its edges, and moves nothing else; an unknown status or a taken id is refused |
| Verbs.ShapeRefusal | internal/storage/issueops/dependency_editor.go:28-49 | the request rules pass if and only if every edge has both endpoints and a type that fits its column and joins two different rows |
| Verbs.FirstOutOfShape | internal/storage/issueops/dependency_editor.go:28-49 | the first edge that breaks a rule decides the refusal, and the first rule it breaks names it |
| Store.IssueStore.Admit | internal/storage/issueops/dependencies.go:209-290 | the checks of one edge in their order, each answered by a walk: the refusal is exactly the one specified |
| Store.IssueStore.InsertOne | internal/storage/issueops/dependencies.go:177-355 | one edge checked, written and settled in place, on a ring of parents too; or refused, or never answered, with nothing changed, exactly as specified |
| Store.IssueStore.AddDependencies | internal/storage/issueops/dependency_editor.go:110-146 | all edges or none, probe on or off, each settled before the next: exactly the specified graph and column, or exactly the specified refusal and the store as it was; no answer exactly when a settlement on the way has no end |
| Store.IssueStore.RemoveDependency | internal/storage/issueops/dependencies.go:924-980 | removes the edge and settles, or does nothing when there is none |
| Store.IssueStore.Close | internal/storage/issueops/close.go:67-130 | version, then children, then live direct blockers; an accepted close rewrites the one row and settles; a refusal changes nothing |
| Store.IssueStore.Update | internal/storage/issueops/execution.go:125-215 | guards in their order, invalid metadata keys refused, no-ops discarded, close policy on a crossing into done, settlement only when liveness changes |
| Store.IssueStore.Reopen | internal/storage/issueops/reopen.go:30-125 | only a done row moves, to open, and is settled |
| Store.IssueStore.Create | internal/storage/issueops/execution.go:37-105 | the row and its edges land together and are settled once, or nothing does |
| Store.IssueStore.Delete | internal/storage/issueops/delete_role.go:30-170 | refusals in their order; the bordering rows that cite a removed id are restamped and counted; a dry run refuses and counts as the real run, but for the citations, and writes nothing |
| Store.IssueStore.CloseBatch | internal/storage/issueops/close_batch.go:117-156 | a left-to-right fold over the changing store: each item is told exactly the refusal its turn gives, or lands; refused items are skipped |
| RowVerbs.ClosePlainly | internal/storage/issueops/close.go:67-164 | a close of a stored row with its version guard met is refused for open children exactly when it is unforced and a stored parent-child edge onto it comes from a row that is not closed, otherwise for blockers exactly when it is unforced and the row is open, flagged and has a blocking or waits-for edge onto a row neither closed nor pinned; otherwise it lands, and only that row moves, to closed |
| RowVerbs.ForcedCloseLands | issueops/issueops.go:462-469 | with force it lands whatever its children and blockers |
| RowVerbs.ReopenPlainly | internal/storage/issueops/reopen.go:30-125 | a reopen moves exactly a finished row, to open, and no other column or row |
| RowVerbs.ClaimPlainly | internal/storage/issueops/public_claim.go:24-78 | a claim refuses a wisp as not found, takes an open or active row that is unassigned, the actor's or a pool's, keeps one it holds already, and otherwise names who or what stands in the way |
| RowVerbs.ReleasePlainly | internal/storage/issueops/release_role.go:53-148 | a release clears the assignee and reopens exactly a row that is open or in progress and held by the actor or the named holder; a forced one by a stranger lands |
| RowVerbs.UpdatePlainly | internal/storage/issueops/execution.go:125-215 | an update is refused for the first obstacle in order, version, assignee, status, handover, metadata keys, close policy on a crossing into done; otherwise title, status, assignee and each metadata key are what the patch says, unsetting last, the row is stamped exactly when something changes and no other row moves |
| ClosePolicy.CloseBatchPlainly | internal/storage/issueops/close_batch.go:117-156 | each item of a batch close is the close of its own request on the state the earlier ones left, landed or refused |
| Runs.UpdateKeeps | internal/storage/issueops/update.go:348-545 | an accepted update leaves the column right if and only if it is not the one disturbing kind |
| Runs.AddDependenciesKeeps | issueops/dependencyeditor.go:128-154 | an accepted request keeps the state sound, and the column right when every re-add is safe; the exact condition is Ledger.EditorExact |
| Runs.AddOneExact | internal/storage/issueops/dependencies.go:265-277 | for a request of one edge the column stays right if and only if the edge is new or its re-add is safe |
| Runs.CreateKeeps | internal/storage/issueops/create.go:859-980 | a create with edges keeps the planes well formed, the scheduling graph acyclic and the column right |
| Runs.DeleteKeeps | issueops/deleter.go:275-281 | a delete keeps the state sound and the survivors' column right |
| Histories.RunKeeps | issueops/blockedstate.go:15-55 | over every run of the verbs, accepted or refused, the planes stay well formed and the scheduling graph acyclic; over every quiet run the stored column equals the full recompute and satisfies the predicate |
| Histories.QuietOnItsFace | issueops/dependencyeditor.go:128-135 | an edge request that changes no stored gate is quiet |
| Histories.BuiltFromNothing | issueops/blockedstate.go:15-55 | every store a run makes out of the empty one is sound, and if the run was quiet its column is the one solution of the blocking predicate |
| Sessions.Perform | issueops/issueops.go:448-475 | one call of the store's method is one step of the runs above, whatever it answers |
| Sessions.Session | issueops/blockedstate.go:15-55 | any session on one store object is a run, keeps it sound, and if quiet leaves a column that is right at every row, read off the tables |
| Endings.ChildEnds | internal/storage/issueops/dependencies.go:325-355 | a new parent-child edge settles from a right column, even one that closes a ring of parents, and leaves the column right |
| Endings.RowEnds | internal/storage/issueops/close.go:318-385 | a row write settles from a right column on every graph, and leaves it right |
| Endings.EdgeEnds | internal/storage/issueops/dependencies.go:265-435 | every edge write from a right column settles, and all but an unsafe re-add leave the column right, on every graph |
| Endings.EditorAnswers | issueops/dependencyeditor.go:61-71 | the editor answers every request when the probe is on, and every request over a right column when it is off |
| Endings.BatchAnswers | issueops/batchapplier.go:432-445 | so does the batch, when moreover no item turns a row stale |
| Endings.EveryCallAnswers | issueops/blockedstate.go:15-55 | in a sound state every call of every verb is answered, unless it drops the probe over a stale column |
| Endings.QuietRunAnswers | issueops/blockedstate.go:15-55 | along every quiet run from a settled store every call is answered, probing or not |
| Rings.RingEndsExactly | internal/storage/issueops/blocked_state.go:112-144 | the rounds over a ring of live rows, of any length, end if and only if some row has a cause of its own, or none carries the flag, or no two neighbours lack it |
| Rings.RingHangs | internal/storage/issueops/blocked_state.go:403-434 | a causeless ring with a flag and two bare neighbours keeps the rounds going for ever, whatever else they visit |
| Rings.RingEdgeExact | internal/storage/issueops/dependencies.go:325-355 | so the edge that closes such a ring with the probe off settles if and only if that holds of the stored column and the finished ring |
| Drift.DriftIsConfined | issueops/blockedstate.go:30-55 | after any run at all, quiet or not, every row's flag is what the predicate asks, except perhaps at the rows an unsettled write turned; the column is the full recompute if and only if it is right at those |
| Ledger.EditorExact | internal/storage/issueops/dependencies.go:265-277 | a request of any number of edges leaves the column right if and only if every source it turns is turned back or set right by a later edge of the request |
| Ledger.BatchExact | internal/storage/issueops/batch_apply.go:209-392 | an accepted batch leaves the column right if and only if every row an item turns is turned back or set right by a later item |
| Ledger.EdgeExactly | internal/storage/issueops/dependencies.go:265-435 | the stale rows after one edge write are exactly those before it, less what it settles or marks with cause, turned at an unsafe source |
| Ledger.ItemExactly | internal/storage/issueops/batch_apply.go:209-392 | the same for every kind of batch item |
| Drift.TurnedIsRegated | issueops/dependencyeditor.go:128-135 | such a source can be read off the request: it names a waits-for pair whose gate is stored, or listed elsewhere in the request, as another |
| Drift.QuietTurnsNone | internal/storage/issueops/update.go:509-520 | a step is quiet if and only if it turns no row, whichever verb it is |
| Drift.RewrittenStale | internal/storage/issueops/blocked_state.go:455-497 | a settled row write repairs exactly the stale rows in its affected set and makes none stale |
| Drift.RestandingStale | internal/storage/issueops/update.go:509-520 | a move between closed and pinned turns exactly the live waiters whose verdict hangs on that row alone |
| Drift.ReAddStale | internal/storage/issueops/dependencies.go:265-277 | a re-add turns exactly its source, and only by an unsafe gate |
| Drift.NewEdgeStale | internal/storage/issueops/dependencies.go:325-435 | no new edge of any type turns a row stale, even where the column already was |
| ClosePolicy.ChainStaysOpen | issueops/errors.go:256-272 | along every run of unforced closes the whole parent chain between a row and the ancestor it is gated on stays exactly as it was |
| ClosePolicy.NoDescendantGate | issueops/errors.go:256-272 | a gate onto a descendant exists in no sound state, so in no store the verbs reach |
| ClosePolicy.DescendantGateClears | internal/storage/issueops/close.go:138-164 | counterfactual: were a gate onto a descendant admitted, the descendant would close unforced if and only if it has no open child and no live direct blocker, and the gate would be gone |
| Deletion.CascadeIsLeastClosed | internal/storage/issueops/delete.go:404-450 | a cascade removes exactly the least set that holds the named ids and is closed under dependents, through every edge type in both planes |
| Deletion.DeleteSucceeds | internal/storage/issueops/delete_role.go:95-125 | an admitted delete succeeds if and only if its closure is within the limit (cascade), the named set is already closed (unforced), or always (forced) |
| Deletion.FirstGuardedIs | internal/storage/issueops/delete_role.go:104-113 | the refusal names the first id, in request order, that something outside the request depends on |
| Deletion.OrphansAreDirectDependents | issueops/deleter.go:159-194 | after any accepted delete the orphans are exactly the survivors that depended on a removed row, and there are none but in a forced delete without cascade |
| Deletion.WhatDeleteLeaves | issueops/deleter.go:316-347 | of the survivors exactly the bordering rows that cite a removed id are restamped and no other column moves; edges between survivors stay; the edges left on removed rows are exactly the dangling ones, by which the reported count exceeds the edges removed |
| Deletion.ClosedLeavesNothing | issueops/deleter.go:98-151 | after a cascade or an unforced delete no edge touches a removed row |
| Deletion.DeletePlainly | internal/storage/issueops/delete_role.go:30-170 | the refusals in their order, each with the ids it names, and exactly which rows go: the named ones, or with cascade everything with a walk of edges onto one of them, at most ten thousand |
| Deletion.ReportMeans | issueops/deleter.go:159-194 | the report counts the rows that are gone, the edges that had an end among them, and the survivors beside them that cite one |
| BatchPlan.PlanApplyBatch | internal/storage/batch_apply.go:69-105 | accepts exactly the well-planned requests; any other is refused for its shape or its keys, or else for the first item that breaks a rule, by what is wrong with it; a key that no item declares and one declared too late are told apart |
| BatchPlan.PlanItem | internal/storage/batch_apply.go:167-280 | one item passes if and only if its refs, guards and edge are in order given what earlier items touched, and otherwise is refused by the first rule it breaks |
| BatchPlan.IndexKeys | internal/storage/batch_apply.go:113-163 | the key table exists if and only if keys are distinct, and maps each key to the create that declares it |
| BatchPlan.PlannedPlainly | internal/storage/batch_apply.go:69-300 | a request is well planned if and only if it has an actor, one to a hundred items, distinct keys, refs that name one row each by an id or by a key declared before (anywhere, for metadata refs), no version guard on a row an earlier item writes, and edges between two different refs with a type of at most 32 characters |
| Batch.RefsResolve | internal/storage/issueops/batch_apply.go:551-560 | a planned target ref resolves when its item runs, to an earlier create's row or to the id it names; a planned item is never refused for a ref |
| Batch.ValueRefsResolve | internal/storage/issueops/batch_apply.go:463-497 | every planned metadata ref, forward ones included, names a created row when the splice runs |
| Batch.ItemsBind | issueops/batchapplier.go:116-128 | one result per item; each create made a row that was not there, distinct from the others; exactly the declared keys are bound, each to its create's row |
| Batch.GuardReadsUntouchedRow | internal/storage/batch_apply.go:279-300 | when the id of a planned version guard has a row, no earlier item of the request wrote it if and only if the row was there before the request |
| ItemVerbs.LandedMetGuards | internal/storage/issueops/batch_apply.go:268-336 | if a batch lands item i, the row it addresses met, in the state just before the item, the version, status and assignee it expects, the assignee up to separator runs |
| ItemVerbs.StaleGuardRefuses | internal/storage/issueops/batch_apply.go:268-336 | a planned update or close that reaches its row at another version than it expects refuses the whole batch for that |
| ItemVerbs.UpdateItemIs | internal/storage/issueops/batch_apply.go:268-300 | an update item is the update of the row it addresses, argument by argument |
| ItemVerbs.CloseItemIs | internal/storage/issueops/batch_apply.go:301-336 | a close item is the close of the row it addresses, force and version included |
| ItemVerbs.CreateItemIs | internal/storage/issueops/batch_apply.go:239-267 | a create item creates one row, under its own id or the store's, and binds its key to it |
| ItemVerbs.DepAddItemIs | internal/storage/issueops/batch_apply.go:337-392 | an edge item is refused between one row and itself or between rows this batch made on two planes, and otherwise exactly as the editor refuses that edge |
| ItemVerbs.SpliceMeans | internal/storage/issueops/batch_apply.go:426-497 | after an accepted batch each created row holds, under each name its item gives, the id of the row the ref addresses |
| Batch.SpliceAllExact | internal/storage/issueops/batch_apply.go:426-455 | the splices land if and only if every listed name is a valid metadata key, and then change exactly the metadata and stamps of the rows that asked; otherwise the request is refused as invalid |
| Batch.SpliceOrderIrrelevant | internal/storage/issueops/batch_apply.go:463-497 | metadata splices have the same outcome in any order, refused or landed |
| Batch.SplicePasses | internal/storage/metadata.go:207-221 | once its items are applied a planned batch passes the splice if and only if every metadata ref it carries has a valid key for a name; otherwise it is refused as invalid |
| Batch.BatchKeeps | issueops/batchapplier.go:254-263 | an accepted batch leaves a sound state, every key bound, no edge it wrote across its own hierarchy, and, unless an item was unsafe, the column of a full recompute; the exact condition is Ledger.BatchExact |
| Batch.BatchOfEdgesIsEditor | backend/conformance/batch_apply_contract.go:468-581 | from a sound state, on a request of edges between named rows, the batch and the editor accept the same requests, probing or not, and leave the same graph |
| BatchStore.ApplyBatchInTx | internal/storage/issueops/batch_apply.go:60-76 | the items in place, as-modified, in declared order: an accepted request leaves exactly the specified state; any refusal at any item, at the splice or at the gate is the specified one, names the item it fell on and leaves the store exactly as it was |
| BatchStore.RunItem | internal/storage/issueops/batch_apply.go:209-392 | one item against the store is one step of the specification, landed, refused or never answered |
| ItemVerbs.GatePlainly | internal/storage/issueops/batch_apply.go:511-541 | a batch whose items and splices landed is refused for a cycle if an edge it wrote lies on a walk of scheduling edges back to itself in the finished graph, whatever else is wrong; otherwise for the first edge it wrote that blocks an ancestor or a descendant; otherwise it lands |
| BatchStore.EndGate | internal/storage/issueops/batch_apply.go:511-541 | refuses if and only if an edge the request wrote closes a cycle or crosses its own hierarchy in the finished graph, the cycle half first, and the refusal is the specified one |
| Identity.CanonicalActor | internal/storage/issueops/identity.go:29-53 | the loop computes the canonical spelling |
| Identity.MatchIsSameActor | internal/storage/issueops/identity.go:29-67 | two spellings match if and only if they have the same segments in the same order and separators at the same ends: any separator run may stand for any other, and nothing else is forgiven |
| Identity.MatchIsEquivalence | internal/storage/issueops/identity.go:55-67 | matching is reflexive, symmetric and transitive, with the transitive step stated on segments |
| Identity.OnlyThreeForgiven | internal/storage/issueops/identity.go:29-67 | spellings that match are the same once dots, underscores and hyphens are taken out |
| Identity.AnyOfThreeStands | internal/storage/issueops/identity.go:29-67 | anywhere in a name each of the three stands for each other, once or twice |
| Claims.WonOnce | issueops/claimer.go:43-66 | once a row is won no claim of any actor, read before or after, wins it again and the row does not change until another verb moves it |
| Claims.WinIsOnTheRowRead | internal/storage/issueops/claim.go:92-145 | a claim is won only on the row exactly as it was read, and is then the step of the claim verb; on a row not written since it was read the verdict is the verb's, and only a won claim changes the row |
| Claims.RunKeeps | internal/storage/issueops/claim.go:92-110 | with fresh tokens, a version read earlier is the row's only if the row was not written since |
| Claims.ClaimNext | internal/storage/issueops/claim.go:248-300 | takes the first row of the ready order that can be claimed, and nothing only if none can |
| Claims.CloseBatchThenClaim | internal/storage/issueops/close_batch.go:117-156 | the coupled claim runs on the state the closes left, only if an item landed; it wins the first row of the order that can be claimed, every earlier one being refused, and comes back empty only if none can |
| ClosePolicy.ChangedWhenLanded | issueops/batchcloser.go:60-65 | a batch close changes the store if and only if one of its items landed |
| Claims.ReleaseNeedsTheHolder | internal/storage/issueops/unclaim.go:34-110 | an unforced release lands if and only if the row is claimed, open or in progress, and the actor or the named holder is the holder up to separator runs |
| Claims.ClaimThenRelease | issueops/releaser.go:41-93 | a release under any spelling of the holder undoes the claim and leaves the row claimable by anyone; a stranger's is refused |
| Journal.PageIsContinuation | journalops/journal.go:71-113 | a page is exactly the next numbers as stored, an empty one means caught up, and head is the counter's |
| Journal.UnlimitedServesAll | internal/storage/issueops/journal_prune.go:88-146 | a read without a limit serves every retained row there is |
| Journal.TruncationIsGap | journalops/errors.go:35-56 | a truncation names a maximal gap: all before it can be served, nothing in it is retained, Floor is the next retained row or one past head, Since never falls below the caller's checkpoint |
| Journal.PrefixPrunedReads | journalops/errors.go:25-33 | under the store's own writes Since is the caller's checkpoint, Floor the lowest retained number, and a read at Floor-1 succeeds then and after any number of appends |
| Journal.BoundOf | internal/storage/issueops/journal_prune.go:326-366 | the bound a prune deletes below is exact: a row is below it if and only if the request names it, enough newer rows stand above it and no young row lies at or below it |
| Journal.PruneMeans | internal/storage/issueops/journal_prune.go:326-366 | a prune keeps every row at or past the request, every row young enough and at least as many rows as asked for, and a row below the request stays only because it or an older one is young or because too few would be left |
| Journal.OwnWritesKeepPrefix | internal/storage/issueops/journal_prune.go:35-52 | appends and prunes leave a contiguous window up to head |
| Journal.FirstSeqGap | internal/storage/issueops/journal_prune.go:229-236 | the linear pass finds the first break in the numbers |
| Journal.EventsJournal.ReadEventsPage | internal/storage/issueops/journal_prune.go:126-146 | the scan and verdict answer as specified |
| Journal.EventsJournal.Record | internal/storage/issueops/journal.go:501-528 | a record takes the next number and keeps the window contiguous |
| Journal.InsertEventRow | internal/storage/issueops/journal.go:401-528 | a missing or taken number is healed from the high-water mark; the number drawn is always free, so no row is lost, and it is the highest if and only if the counter is missing, its next number is taken or it stands at or above every row |
| Journal.EventsJournal.Prune | internal/storage/issueops/journal_prune.go:411-425 | deletes exactly the rows that go, reports their number, keeps every other row as it was and the window contiguous |
| Journal.Drain | journalops/errors.go:44-56 | for any retained set with holes, draining to Since and resuming at Floor-1 terminates, receives every retained row in order and meets every maximal gap exactly once |
| Consumer.NoSilentLoss | journalops/journal.go:71-113 | under any interleaving of appends, losses and polls the consumer has processed each number up to its checkpoint once, as committed and in order, or was handed a window that holds it and in which nothing remains; head and checkpoint never fall |
| Consumer.PollProgresses | journalops/errors.go:15-33 | a consumer that is behind makes progress at once, or the error's Since names the smaller limit with which its next poll lands exactly there |
| Relapse.MissedInSilence | internal/storage/issueops/journal.go:489-500 | under any interleaving of filings, losses, restores of the counter and polls, an entry filed at or below the consumer's checkpoint is missed in silence for good, and any other only if its row was lost and its number given out again before the consumer came to it |
| Relapse.OrdinaryRun | internal/storage/issueops/journal.go:489-528 | filing each entry under the counter's next number is the ordinary consumer's run, note for note, and nothing is then missed in silence |
| Relapse.Draw | internal/storage/issueops/journal.go:501-528 | a record is filed behind a consumer exactly when the counter's next number is free and the consumer has passed it, or when the number is healed and nothing retained reaches the consumer either |
| MetadataCas.SwapsAreRegisters | issueops/metadatacas.go:149-168 | however snapshots and commits of swaps and of other verbs' metadata edits interleave over one blob, every key holds, and every swap is told, what one atomic register of that key alone would |
| MetadataCas.AnswersMean | issueops/metadatacas.go:41-43 | every swap in the log of any interleaving happened, expecting absence, if and only if the key was absent, and expecting a value if and only if the key held one of the same canonical form; one that did not happen changed nothing and was told the stored value, one that did left the key absent or with the value asked for, as stored |
| MetadataCas.EditMeans | internal/storage/issueops/aggregate.go:188-263 | an unset key is gone, a put one holds its value as stored, any other is as it was, or gone under a replacement |
| MetadataCas.KeysAreIndependent | issueops/metadatacas.go:160-168 | what a key holds after any log of writes is what the writes that name it leave, taken alone and in order |
| MetadataCas.WholeWriteIsKeyWrite | internal/storage/issueops/metadata_cas.go:74-82 | rewriting the whole object through an idempotent normalisation is one step of every key's own register |
| MetadataCas.RetryConverges | issueops/metadatacas.go:89-106 | an uncontended swap that expects the last Current succeeds |
| MetadataCas.MetadataRow.CompareAndSetKey | internal/storage/issueops/metadata_cas.go:38-116 | one transaction is one register step of its key and none of any other; it swaps exactly when the key is absent as expected or holds a value of the expected canonical form, leaves the whole blob as it was when it does not, and Current is read from the row |
| CycleReport.ReportIsExact | issueops/cycledetector.go:76-94 | the report is empty if and only if the graph is acyclic, every reported cycle is genuine, its members distinct and its lowest first, the list is sorted, and no cycle goes unmentioned: without the arcs of the reported ones the graph is acyclic |
| CycleReport.DetectIsCanonical | internal/storage/issueops/cycle_report.go:34-81 | rows in any order and any number of times give the same report, with all of the above over the set of edges |
| CycleReport.ReportReadsBlocks | internal/storage/issueops/cycle_report.go:134-152 | over any store, sound or not, the report is empty if and only if no walk over stored blocks and conditional-blocks edges of both planes comes back to its start, and every arc of a reported cycle is such an edge |
| CycleReport.SoundStoreReportsNothing | internal/storage/issueops/cycle_report.go:134-152 | the report over the blocking edges of any store a run has built from a sound one is empty |
| CycleReport.RotationIsCanonical | internal/storage/issueops/cycle_report.go:83-100 | every rotation of a cycle turns to the same list, a cycle that starts at its lowest member |
| Ordering.BelowMeans | internal/storage/issueops/cycle_report.go:83-100 | an id is lower than another exactly when it is the smaller, or ends, where they first differ |
| Ordering.ListMeans | internal/storage/issueops/cycle_report.go:34-81 | a cycle is listed before another exactly when it has the lower id, or ends, where they first differ |
| TreeWalk.WalkIsTree | issueops/treewalker.go:147-179 | on every graph and for every bound the walk terminates in a pre-order tree whose every parent link is an edge, with contiguous subtrees, each node at most once and reachable, every depth below the bound |
| TreeWalk.WalkIsComplete | issueops/treewalker.go:75-114 | with a bound no smaller than their number exactly the reachable nodes are listed |
| TreeWalk.PruneTree | internal/storage/issueops/tree_walk.go:61-102 | the two passes keep exactly the nodes some matching node's parent chain reaches, in walk order |
| TreeWalk.PruneIsExact | issueops/treewalker.go:75-114 | a node survives if and only if the listed parent links lead to it from a matching node, and a survivor's parent survives |
| TreeWalk.MergeBoth | internal/storage/issueops/tree_walk.go:104-229 | each half of a walk both ways is pruned by itself, the root is put back when only the up half survives, and is taken from the down half alone |
| TreeWalk.BothIsRooted | issueops/treewalker.go:147-179 | a walk both ways is empty if and only if nothing matches in either direction, and otherwise lists the root exactly once, every other node of the pruned halves, and for every node its parent |
| TreeWalk.BothInOrder | internal/storage/issueops/tree_walk.go:104-131 | it lists what is left of the up half, without the root, before the down half, each in walk order |
| TreeWalk.TreeIsWalk | issueops/treewalker.go:147-179 | every bounded walk lists its root first and each other node after the one it hangs from, which is what the merge relies on |
| Paging.MergedPageIsOneOrder | issueops/reader.go:276-288 | two ordered legs each cut to n, merged and cut again, are the first n rows of one table |
| Paging.WalkPages | issueops/reader.go:397-402 | the keyset walk concatenates to the whole answer, dropping and repeating nothing |
| Paging.PageIsSlice | internal/storage/issueops/search.go:162-267 | a page taken after a row, with the position applied to both legs, is the slice of the whole order that follows it |
| Paging.OffsetPageIsSlice | internal/workapi/page.go:117-151 | with the bound widened by the rows skipped and one more, both legs cut, merged and cut, an offset page is the slice of the one ordered table, for every total order, and reports more if and only if rows remain |
| Paging.NewestFirst | issueops/reader.go:397-402 | the first row of an answer is the newest, the lowest id among equals |
| Paging.SliceMeans | internal/workapi/page.go:117-151 | a slice holds the rows from its offset on, at most n of them, and all of them when n is zero |
| ClaimParser.TailIsExact | claim.go:62-88 | a token is recovered if and only if the message ends in the marker and that token, wherever else the marker occurs |
| ClaimParser.ParsesBack | claim.go:39-62 | the two refusals that carry a token parse back to exactly that token, under any prepended context |
| ClaimParser.AssignedHasNoToken | internal/storage/issueops/claim.go:178-187 | the refusal of an open row assigned to another carries no token: it parses as a conflict with an empty holder whatever it contains |
| Witnesses.ReAddGoesStale | internal/storage/issueops/dependencies.go:265-277 | a concrete re-add that leaves a settled column stale |
| Witnesses.RepinGoesStale | internal/storage/issueops/update.go:509-520 | a concrete update that leaves a settled column stale |
| Witnesses.ForcedDeleteDangles | internal/storage/issueops/delete.go:306-333 | a concrete forced delete that leaves an edge onto the removed row |
| Witnesses.MintedIdPassesThePlan | internal/storage/batch_apply.go:279-300 | a concrete batch whose version guard reads a row the batch itself created |
| Witnesses.BadKeyPassesThePlan | internal/storage/batch_apply.go:198-220 | a concrete batch that passes the plan, applies its item and is refused at the splice for the name of its metadata ref |
| Witnesses.RingIsNeverAnswered | internal/storage/issueops/blocked_state.go:112-144 | two requests from a sound and settled store, the second of which is never answered |
| Witnesses.StaleCounterMisorders | internal/storage/issueops/journal.go:489-500 | a concrete restored counter whose next row lands below a retained one |

## Left out

- Runs.AddDependenciesKeeps: its freshness condition is sufficient, not necessary, because a later edge of the request can settle a row an earlier re-add left stale; Ledger.EditorExact gives the exact one.
- Batch.BatchKeeps: its freshness condition is sufficient, not necessary, for the same reason; Ledger.BatchExact gives the exact one.
- Store.IssueStore.Settle: a plane's ids go in one statement, where the program sends them in chunks of its query batch size; on a ring of parents under a stale column the chunks can decide whether the rounds end. The method remembers the columns it has seen, and so gives up where the program does not return.
- Store.IssueStore.AddDependencies: over a stale column, a request without the probe that closes a ring of parents may never return; the method then answers Endless and rolls back, where the program hangs inside its transaction.
- Store.IssueStore.InsertOne: the same.
- BatchStore.RunItem: the same.
- BatchStore.ApplyBatchInTx: the same.
- Rings.RingEdgeExact: a ring whose rows have further parents, children below it or members in both planes; of these only that they hang (Rings.RingHangs) or that a right column ends (Endings.ChildEnds) is stated.
- BatchPlan.PlanItem: the spelling of gate metadata, which is given decoded, and so its refusal when malformed.
- Store.IssueStore.Update: labels, the parent patch, the persistence move between planes, the combined claim flag, whole-metadata replacement and merge, and the other scalar columns are not modelled; a parent patch is a removal and an insertion, both of which are.
- Store.IssueStore.Delete: the text of the citations, so which bordering rows cite a removed id is given; the label and event counts; the trimming of ids.
- Store.IssueStore.Create: id generation, prefix validation, label inheritance and child counters; a pair named twice keeps its first type, as the insert does.
- Claims.ClaimNext: how the ready order is computed, and leases.
- MetadataCas.SwapsAreRegisters: JSON encoding itself is an abstract canonical form and an abstract normalisation, both idempotent; schema validation of the merged object.
- TreeWalk.MergeBoth: the defensive row cap and the root probe.
- Paging.WalkPages: keyset positions over other keys than created_at and id, an id present in both planes at once, and the row cap.
- Rows: text, priority, labels, comments, timestamps other than updated_at, and history entries.
- Merge repair of the column after a pull, and the full repair command.
- Counters, statistics, settings, memory, bootstrap and version-marker roles, hooks, commit messages, rendering and the HTTP front door.
- SQL collation, transaction isolation and retries below the level of one atomic verb, except where a module models them.
