/** Edge edits on the graph: the gates one edge passes, the two orders a set of
    edges can be applied in, and the proof that order and per-edge probing never
    change which requests are accepted or what graph they leave. */
module Edits {

  import opened Digraph
  import opened IssueGraph
  import opened Affected

  datatype Refusal =
    | Invalid
    | NotFound(ids: seq<Id>)
    | AlreadyExists
    | VersionMismatch
    | StatusMismatch
    | AssigneeMismatch
    | AlreadyClaimed
    | NotClaimable
    | NotReleasable
    | NotClaimed
    | NotOwner
    | CloseOpenChildren
    | CloseBlocked
    | SelfDependency
    | SourceNotFound
    | TargetNotFound
    | HierarchyConflict(blockerIsAncestor: bool)
    | Cycle
    | TypeConflict
    | DependentsOutside(id: Id, dependents: set<Id>)
    | Runaway
    | CrossPlane
    | RefError(index: nat, key: string, later: bool)
    /** No answer at all: the rounds of a settlement never come to an end, and nothing commits. */
    | Endless

  datatype Outcome<+T> = Ok(value: T) | Refused(why: Refusal)

  datatype EdgeReq = EdgeReq(source: Id, target: Id, kind: Kind, gate: Gate)

  const MAX_TYPE_LENGTH: nat := 32

  /** There is a type, and it fits its column; which types there are is the workspace's affair. */
  predicate IsTyped(k: Kind) {
    k.Other? ==> 0 < |k.name| <= MAX_TYPE_LENGTH
  }

  predicate IsBlocking(k: Kind) {
    k == Blocks || k == ConditionalBlocks
  }

  predicate IsScheduling(k: Kind) {
    IsBlocking(k) || k == ParentChild
  }

  /** The graph the cycle gates walk; external targets are nodes of it too. */
  function Scheduling(g: Graph): Rel {
    set e | e in g.edges && IsScheduling(g.edges[e].kind)
  }

  /** child -> parent, as the hierarchy gate walks it. */
  function Ancestry(g: Graph): Rel {
    set e | e in g.edges && g.edges[e].kind == ParentChild
  }

  // ---------------------------------------------------------------- one edge

  ghost predicate AncestorConflict(g: Graph, e: EdgeReq) {
    IsBlocking(e.kind) && !IsExternal(e.source, e.target) && e.source != e.target &&
    Reaches(Ancestry(g), e.source, e.target)
  }

  ghost predicate DescendantConflict(g: Graph, e: EdgeReq) {
    IsBlocking(e.kind) && !IsExternal(e.source, e.target) && e.source != e.target &&
    Reaches(Ancestry(g), e.target, e.source)
  }

  ghost predicate CycleConflict(g: Graph, e: EdgeReq) {
    IsScheduling(e.kind) && Reaches(Scheduling(g), e.target, e.source)
  }

  function Put(g: Graph, e: EdgeReq): Graph {
    SetEdge(g, e.source, e.target, Edge(e.kind, e.gate))
  }

  /** One edge, in the order the checks run; skip drops the per-edge cycle probe and
      the self-dependency test that rides with it. */
  ghost function Insert(g: Graph, e: EdgeReq, skip: bool): Outcome<Graph> {
    if e.source !in g.rows then Refused(SourceNotFound)
    else if !IsExternal(e.source, e.target) && e.target !in g.rows then Refused(TargetNotFound)
    else if AncestorConflict(g, e) then Refused(HierarchyConflict(true))
    else if DescendantConflict(g, e) then Refused(HierarchyConflict(false))
    else if !skip && e.source == e.target then Refused(SelfDependency)
    else if !skip && CycleConflict(g, e) then Refused(Cycle)
    else if (e.source, e.target) in g.edges && g.edges[(e.source, e.target)].kind != e.kind then Refused(TypeConflict)
    else Ok(Put(g, e))
  }

  /** Edges in list order, stopping at the first refusal. */
  ghost function InsertAll(g: Graph, es: seq<EdgeReq>, skip: bool): Outcome<Graph>
    decreases |es|
  {
    if es == [] then Ok(g)
    else match Insert(g, es[0], skip)
      case Refused(why) => Refused(why)
      case Ok(h) => InsertAll(h, es[1..], skip)
  }

  // ---------------------------------------------------------------- a set of edges

  predicate IsParentChild(e: EdgeReq) {
    e.kind == ParentChild
  }

  function Only(es: seq<EdgeReq>, parents: bool): (r: seq<EdgeReq>)
    ensures forall e :: e in r <==> e in es && IsParentChild(e) == parents
  {
    if es == [] then []
    else (if IsParentChild(es[0]) == parents then [es[0]] else []) + Only(es[1..], parents)
  }

  /** The editor's order: the whole planned hierarchy before any other edge. */
  function ParentChildFirst(es: seq<EdgeReq>): (r: seq<EdgeReq>)
    ensures forall e :: e in r <==> e in es
  {
    Only(es, true) + Only(es, false)
  }

  /** The whole-graph gate over the edges one request named. */
  ghost predicate FinalCycle(g: Graph, es: seq<EdgeReq>) {
    exists e :: e in es && CycleConflict(g, e)
  }

  /** The editor: parent-child first, per-edge checks, then the whole-graph gate. */
  ghost function AddEdges(g: Graph, es: seq<EdgeReq>, skip: bool): Outcome<Graph> {
    match InsertAll(g, ParentChildFirst(es), skip)
    case Refused(why) => Refused(why)
    case Ok(h) => if FinalCycle(h, es) then Refused(Cycle) else Ok(h)
  }

  ghost predicate Rechecked(g: Graph, es: seq<EdgeReq>) {
    forall e :: e in es ==> !AncestorConflict(g, e) && !DescendantConflict(g, e)
  }

  /** The first listed edge that crosses its own hierarchy names the refusal. */
  ghost function FirstConflict(h: Graph, es: seq<EdgeReq>): Refusal
    requires !Rechecked(h, es)
    decreases |es|
  {
    if AncestorConflict(h, es[0]) then HierarchyConflict(true)
    else if DescendantConflict(h, es[0]) then HierarchyConflict(false)
    else
      assert es == [es[0]] + es[1..];
      FirstConflict(h, es[1..])
  }

  lemma {:induction false} FirstConflictAt(h: Graph, es: seq<EdgeReq>, i: nat)
    requires i < |es| && Rechecked(h, es[..i]) && (AncestorConflict(h, es[i]) || DescendantConflict(h, es[i]))
    ensures !Rechecked(h, es) && FirstConflict(h, es) == HierarchyConflict(AncestorConflict(h, es[i]))
    decreases i
  {
    assert es[i] in es;
    if i > 0 {
      assert es[0] in es[..i] && es[1..][..i - 1] == es[1..i] && es[1..][i - 1] == es[i];
      assert forall e :: e in es[1..i] ==> e in es[..i];
      FirstConflictAt(h, es[1..], i - 1);
    }
  }

  /** The batch: declared order, then the end gate's two halves. */
  ghost function AddInOrder(g: Graph, es: seq<EdgeReq>, skip: bool): Outcome<Graph> {
    match InsertAll(g, es, skip)
    case Refused(why) => Refused(why)
    case Ok(h) =>
      if FinalCycle(h, es) then Refused(Cycle)
      else if !Rechecked(h, es) then Refused(FirstConflict(h, es))
      else Ok(h)
  }

  // ---------------------------------------------------------------- what a request asks for

  predicate Names(es: seq<EdgeReq>, pair: (Id, Id)) {
    exists e :: e in es && (e.source, e.target) == pair
  }

  /** Endpoints are there, and each pair keeps one type. */
  ghost predicate Wellposed(g: Graph, es: seq<EdgeReq>) {
    && (forall e :: e in es ==> e.source in g.rows && (IsExternal(e.source, e.target) || e.target in g.rows))
    && (forall e :: e in es && (e.source, e.target) in g.edges ==> g.edges[(e.source, e.target)].kind == e.kind)
    && (forall e, f :: e in es && f in es && e.source == f.source && e.target == f.target ==> e.kind == f.kind)
  }

  /** h is g plus exactly the requested edges. */
  ghost predicate Applied(g: Graph, es: seq<EdgeReq>, h: Graph) {
    && h.rows == g.rows
    && (forall pair :: pair in h.edges <==> pair in g.edges || Names(es, pair))
    && (forall pair :: pair in g.edges && !Names(es, pair) ==> pair in h.edges && h.edges[pair] == g.edges[pair])
    && (forall e :: e in es ==> (e.source, e.target) in h.edges && h.edges[(e.source, e.target)].kind == e.kind)
  }

  /** Acceptance as a statement about the final graph alone. */
  ghost predicate Admissible(g: Graph, es: seq<EdgeReq>, h: Graph) {
    Wellposed(g, es) && Applied(g, es, h) && !FinalCycle(h, es) && Rechecked(h, es)
  }

  lemma {:induction false} PutGrows(g: Graph, e: EdgeReq)
    requires (e.source, e.target) in g.edges ==> g.edges[(e.source, e.target)].kind == e.kind
    ensures Scheduling(g) <= Scheduling(Put(g, e)) && Ancestry(g) <= Ancestry(Put(g, e))
    ensures e.kind != ParentChild ==> Ancestry(Put(g, e)) == Ancestry(g)
    ensures IsScheduling(e.kind) ==> Scheduling(Put(g, e)) == Scheduling(g) + {(e.source, e.target)}
    ensures !IsScheduling(e.kind) ==> Scheduling(Put(g, e)) == Scheduling(g)
  {
  }

  /** Conflicts persist: a probe that would refuse now would refuse in any larger graph. */
  lemma {:induction false} ConflictsPersist(g: Graph, h: Graph, e: EdgeReq)
    requires Scheduling(g) <= Scheduling(h) && Ancestry(g) <= Ancestry(h)
    ensures AncestorConflict(g, e) ==> AncestorConflict(h, e)
    ensures DescendantConflict(g, e) ==> DescendantConflict(h, e)
    ensures CycleConflict(g, e) ==> CycleConflict(h, e)
  {
    if AncestorConflict(g, e) { ReachesGrows(Ancestry(g), Ancestry(h), e.source, e.target); }
    if DescendantConflict(g, e) { ReachesGrows(Ancestry(g), Ancestry(h), e.target, e.source); }
    if CycleConflict(g, e) { ReachesGrows(Scheduling(g), Scheduling(h), e.target, e.source); }
  }

  lemma {:induction false} NamesStep(e: EdgeReq, rest: seq<EdgeReq>, pair: (Id, Id))
    ensures Names([e] + rest, pair) <==> pair == (e.source, e.target) || Names(rest, pair)
  {
    if pair == (e.source, e.target) {
      assert e in [e] + rest;
    } else if Names(rest, pair) {
      var f :| f in rest && (f.source, f.target) == pair;
      assert f in [e] + rest;
    }
  }

  lemma {:induction false} AppliedStep(g: Graph, e: EdgeReq, rest: seq<EdgeReq>, h: Graph)
    requires Wellposed(Put(g, e), rest) && Applied(Put(g, e), rest, h)
    ensures Applied(g, [e] + rest, h)
  {
    forall pair ensures Names([e] + rest, pair) <==> pair == (e.source, e.target) || Names(rest, pair) {
      NamesStep(e, rest, pair);
    }
    var mid := Put(g, e);
    assert (e.source, e.target) in mid.edges;
    if Names(rest, (e.source, e.target)) {
      var f :| f in rest && (f.source, f.target) == (e.source, e.target);
    }
  }

  lemma {:induction false} WellposedStep(g: Graph, e: EdgeReq, rest: seq<EdgeReq>)
    requires Wellposed(Put(g, e), rest)
    requires e.source in g.rows && (IsExternal(e.source, e.target) || e.target in g.rows)
    requires (e.source, e.target) in g.edges ==> g.edges[(e.source, e.target)].kind == e.kind
    ensures Wellposed(g, [e] + rest)
  {
  }

  /** A fold that lands was well posed and applied exactly the request. */
  lemma {:induction false} InsertAllApplies(g: Graph, es: seq<EdgeReq>, skip: bool)
    requires InsertAll(g, es, skip).Ok?
    ensures Wellposed(g, es) && Applied(g, es, InsertAll(g, es, skip).value)
    ensures Scheduling(g) <= Scheduling(InsertAll(g, es, skip).value)
    ensures Ancestry(g) <= Ancestry(InsertAll(g, es, skip).value)
    decreases |es|
  {
    if es != [] {
      var e, rest := es[0], es[1..];
      assert es == [e] + rest;
      PutGrows(g, e);
      InsertAllApplies(Put(g, e), rest, skip);
      AppliedStep(g, e, rest, InsertAll(g, es, skip).value);
      WellposedStep(g, e, rest);
    }
  }

  /** A fold over an admissible request lands, whatever its order. */
  lemma {:induction false} AdmissibleLands(g: Graph, es: seq<EdgeReq>, skip: bool, h: Graph)
    requires Wellposed(g, es)
    requires Scheduling(g) <= Scheduling(h) && Ancestry(g) <= Ancestry(h)
    requires forall e :: e in es ==> (e.source, e.target) in h.edges && h.edges[(e.source, e.target)].kind == e.kind
    requires forall e :: e in es ==> e.source != e.target && !CycleConflict(h, e)
    requires Rechecked(h, es)
    ensures InsertAll(g, es, skip).Ok?
    decreases |es|
  {
    if es != [] {
      var e, rest := es[0], es[1..];
      assert es == [e] + rest && e in es;
      ConflictsPersist(g, h, e);
      PutGrows(g, e);
      var mid := Put(g, e);
      assert Scheduling(mid) <= Scheduling(h) by { assert (e.source, e.target) in h.edges; }
      assert Ancestry(mid) <= Ancestry(h);
      assert Wellposed(mid, rest);
      AdmissibleLands(mid, rest, skip, h);
    }
  }

  /** Applying the same edges in another order gives the same graph. */
  lemma {:induction false} AppliedUnique(g: Graph, es: seq<EdgeReq>, fs: seq<EdgeReq>, h: Graph, k: Graph)
    requires forall e :: e in es <==> e in fs
    requires forall e :: e in es ==> e.gate == ALL_CHILDREN
    requires Applied(g, es, h) && Applied(g, fs, k) && AllGates(es, h) && AllGates(fs, k)
    ensures h == k
  {
    forall pair ensures Names(es, pair) <==> Names(fs, pair) { }
    assert h.edges.Keys == k.edges.Keys;
    forall pair | pair in h.edges ensures h.edges[pair] == k.edges[pair] {
      if Names(es, pair) {
        var e :| e in es && (e.source, e.target) == pair;
        assert e in fs;
      }
    }
  }

  ghost predicate AllGates(es: seq<EdgeReq>, h: Graph) {
    forall e :: e in es && (e.source, e.target) in h.edges ==> h.edges[(e.source, e.target)].gate == ALL_CHILDREN
  }

  lemma {:induction false} InsertAllGates(g: Graph, es: seq<EdgeReq>, skip: bool)
    requires InsertAll(g, es, skip).Ok? && forall e :: e in es ==> e.gate == ALL_CHILDREN
    ensures AllGates(es, InsertAll(g, es, skip).value)
    decreases |es|
  {
    if es != [] {
      var e, rest := es[0], es[1..];
      assert es == [e] + rest && e in es;
      var mid := Insert(g, e, skip).value;
      InsertAllGates(mid, rest, skip);
      InsertAllApplies(mid, rest, skip);
      var h := InsertAll(mid, rest, skip).value;
      if !Names(rest, (e.source, e.target)) {
        assert (e.source, e.target) in mid.edges;
      } else {
        var f :| f in rest && (f.source, f.target) == (e.source, e.target);
        assert AllGates(rest, h) && f in rest;
      }
    }
  }

  /** After the parent-child phase nothing changes the hierarchy, so each blocking
      edge was checked against the one the whole request produced. */
  lemma {:induction false} LaterPhaseRechecks(g: Graph, es: seq<EdgeReq>, skip: bool)
    requires InsertAll(g, es, skip).Ok? && forall e :: e in es ==> !IsParentChild(e)
    ensures Ancestry(InsertAll(g, es, skip).value) == Ancestry(g)
    ensures Rechecked(g, es)
    decreases |es|
  {
    if es != [] {
      var e, rest := es[0], es[1..];
      assert es == [e] + rest && e in es;
      PutGrows(g, e);
      LaterPhaseRechecks(Put(g, e), rest, skip);
      forall f | f in es ensures !AncestorConflict(g, f) && !DescendantConflict(g, f) {
        if f in rest { assert Ancestry(Put(g, e)) == Ancestry(g); }
      }
    }
  }

  lemma {:induction false} InsertAllSplits(g: Graph, es: seq<EdgeReq>, fs: seq<EdgeReq>, skip: bool)
    ensures InsertAll(g, es + fs, skip) ==
            match InsertAll(g, es, skip) { case Refused(why) => Refused(why) case Ok(h) => InsertAll(h, fs, skip) }
    decreases |es|
  {
    if es == [] {
      assert es + fs == fs;
    } else {
      assert (es + fs)[0] == es[0] && (es + fs)[1..] == es[1..] + fs;
      match Insert(g, es[0], skip) {
        case Refused(_) =>
        case Ok(h) => InsertAllSplits(h, es[1..], fs, skip);
      }
    }
  }

  ghost predicate NoSelf(es: seq<EdgeReq>) {
    forall e :: e in es ==> e.source != e.target
  }

  lemma {:induction false} EditorRechecks(g: Graph, es: seq<EdgeReq>, skip: bool)
    requires InsertAll(g, ParentChildFirst(es), skip).Ok?
    ensures Rechecked(InsertAll(g, ParentChildFirst(es), skip).value, es)
  {
    var h := InsertAll(g, ParentChildFirst(es), skip).value;
    InsertAllSplits(g, Only(es, true), Only(es, false), skip);
    var mid := InsertAll(g, Only(es, true), skip).value;
    LaterPhaseRechecks(mid, Only(es, false), skip);
    assert Ancestry(mid) == Ancestry(h);
    forall e | e in es ensures !AncestorConflict(h, e) && !DescendantConflict(h, e) {
      if !IsParentChild(e) { assert e in Only(es, false); }
    }
  }

  lemma {:induction false} RelationsDecide(h: Graph, k: Graph, es: seq<EdgeReq>)
    requires Scheduling(h) == Scheduling(k) && Ancestry(h) == Ancestry(k)
    ensures FinalCycle(h, es) == FinalCycle(k, es) && Rechecked(h, es) == Rechecked(k, es)
  {
  }

  lemma {:induction false} EditorAcceptsOnly(g: Graph, es: seq<EdgeReq>, skip: bool, h: Graph)
    requires Applied(g, es, h) && AddEdges(g, es, skip).Ok?
    ensures Admissible(g, es, h)
  {
    var fs := ParentChildFirst(es);
    var k := InsertAll(g, fs, skip).value;
    InsertAllApplies(g, fs, skip);
    WellposedReorders(g, fs, es);
    SameRelations(g, es, fs, h, k);
    EditorRechecks(g, es, skip);
    RelationsDecide(h, k, es);
  }

  lemma {:induction false} WellposedReorders(g: Graph, es: seq<EdgeReq>, fs: seq<EdgeReq>)
    requires (forall e :: e in es <==> e in fs) && Wellposed(g, es)
    ensures Wellposed(g, fs)
  {
  }

  lemma {:induction false} AdmissibleFolds(g: Graph, es: seq<EdgeReq>, fs: seq<EdgeReq>, skip: bool, h: Graph)
    requires (forall e :: e in es <==> e in fs) && NoSelf(es) && Admissible(g, es, h)
    ensures InsertAll(g, fs, skip).Ok?
    ensures !FinalCycle(InsertAll(g, fs, skip).value, es) && Rechecked(InsertAll(g, fs, skip).value, es)
  {
    AppliedGrows(g, es, h);
    AdmissibleLands(g, fs, skip, h);
    InsertAllApplies(g, fs, skip);
    SameRelations(g, es, fs, h, InsertAll(g, fs, skip).value);
    RelationsDecide(h, InsertAll(g, fs, skip).value, es);
  }

  /** The editor accepts exactly the admissible requests, probing or not. */
  lemma {:induction false} EditorAccepts(g: Graph, es: seq<EdgeReq>, skip: bool, h: Graph)
    requires NoSelf(es) && Applied(g, es, h)
    ensures AddEdges(g, es, skip).Ok? <==> Admissible(g, es, h)
  {
    if AddEdges(g, es, skip).Ok? {
      EditorAcceptsOnly(g, es, skip, h);
    } else if Admissible(g, es, h) {
      AdmissibleFolds(g, es, ParentChildFirst(es), skip, h);
    }
  }

  /** The batch accepts exactly the same requests. */
  lemma {:induction false} BatchAccepts(g: Graph, es: seq<EdgeReq>, skip: bool, h: Graph)
    requires NoSelf(es) && Applied(g, es, h)
    ensures AddInOrder(g, es, skip).Ok? <==> Admissible(g, es, h)
  {
    if AddInOrder(g, es, skip).Ok? {
      InsertAllApplies(g, es, skip);
      SameRelations(g, es, es, h, InsertAll(g, es, skip).value);
      RelationsDecide(h, InsertAll(g, es, skip).value, es);
    } else if Admissible(g, es, h) {
      AdmissibleFolds(g, es, es, skip, h);
    }
  }

  lemma {:induction false} AppliedGrows(g: Graph, es: seq<EdgeReq>, h: Graph)
    requires Wellposed(g, es) && Applied(g, es, h)
    ensures Scheduling(g) <= Scheduling(h) && Ancestry(g) <= Ancestry(h)
  {
    forall pair | pair in g.edges ensures pair in h.edges && h.edges[pair].kind == g.edges[pair].kind {
      if Names(es, pair) {
        var e :| e in es && (e.source, e.target) == pair;
      }
    }
  }

  /** Two graphs that applied the same edges have the same scheduling and hierarchy relations. */
  lemma {:induction false} SameRelations(g: Graph, es: seq<EdgeReq>, fs: seq<EdgeReq>, h: Graph, k: Graph)
    requires forall e :: e in es <==> e in fs
    requires Applied(g, es, h) && Applied(g, fs, k)
    ensures Scheduling(h) == Scheduling(k) && Ancestry(h) == Ancestry(k)
  {
    forall pair ensures Names(es, pair) <==> Names(fs, pair) { }
    forall pair | pair in h.edges ensures pair in k.edges && h.edges[pair].kind == k.edges[pair].kind {
      if Names(es, pair) {
        var e :| e in es && (e.source, e.target) == pair;
        assert e in fs;
      }
    }
    assert h.edges.Keys == k.edges.Keys;
  }

  /** ORDER AND PROBING DO NOT MATTER. For any request the editor can spell, applying
      parent-child edges first with per-edge checks, applying them in declared order
      with an end gate, and either of the two with the probe skipped accept the same
      requests and leave the same graph. */
  lemma {:induction false} OrderAndProbingDoNotMatter(g: Graph, es: seq<EdgeReq>, skip: bool, skip': bool)
    requires NoSelf(es) && forall e :: e in es ==> e.gate == ALL_CHILDREN
    ensures AddEdges(g, es, skip).Ok? <==> AddInOrder(g, es, skip').Ok?
    ensures AddEdges(g, es, skip).Ok? ==> AddEdges(g, es, skip) == AddInOrder(g, es, skip')
    ensures AddEdges(g, es, skip).Ok? <==> AddEdges(g, es, skip').Ok?
  {
    if AddEdges(g, es, skip).Ok? {
      EditorCarries(g, es, skip, skip');
      SameGraph(g, es, skip, skip');
    } else if AddEdges(g, es, skip').Ok? {
      EditorCarries(g, es, skip', skip);
    } else if AddInOrder(g, es, skip').Ok? {
      BatchCarries(g, es, skip', skip);
    }
  }

  lemma {:induction false} EditorCarries(g: Graph, es: seq<EdgeReq>, skip: bool, skip': bool)
    requires NoSelf(es) && AddEdges(g, es, skip).Ok?
    ensures AddEdges(g, es, skip').Ok? && AddInOrder(g, es, skip').Ok?
  {
    InsertAllApplies(g, ParentChildFirst(es), skip);
    SameVerdict(g, es, skip, skip', AddEdges(g, es, skip).value);
  }

  lemma {:induction false} BatchCarries(g: Graph, es: seq<EdgeReq>, skip: bool, skip': bool)
    requires NoSelf(es) && AddInOrder(g, es, skip).Ok?
    ensures AddEdges(g, es, skip').Ok?
  {
    InsertAllApplies(g, es, skip);
    SameVerdict(g, es, skip', skip, AddInOrder(g, es, skip).value);
  }

  lemma {:induction false} SameVerdict(g: Graph, es: seq<EdgeReq>, skip: bool, skip': bool, h: Graph)
    requires NoSelf(es) && (Applied(g, es, h) || Applied(g, ParentChildFirst(es), h))
    ensures AddEdges(g, es, skip).Ok? == AddEdges(g, es, skip').Ok? == AddInOrder(g, es, skip').Ok?
  {
    if !Applied(g, es, h) { AppliedReorders(g, ParentChildFirst(es), es, h); }
    EditorAccepts(g, es, skip, h);
    EditorAccepts(g, es, skip', h);
    BatchAccepts(g, es, skip', h);
  }

  lemma {:induction false} SameGraph(g: Graph, es: seq<EdgeReq>, skip: bool, skip': bool)
    requires NoSelf(es) && forall e :: e in es ==> e.gate == ALL_CHILDREN
    requires AddEdges(g, es, skip).Ok? && AddInOrder(g, es, skip').Ok?
    ensures AddEdges(g, es, skip) == AddInOrder(g, es, skip')
  {
    var fs := ParentChildFirst(es);
    InsertAllApplies(g, fs, skip);
    InsertAllApplies(g, es, skip');
    InsertAllGates(g, fs, skip);
    InsertAllGates(g, es, skip');
    AppliedUnique(g, fs, es, AddEdges(g, es, skip).value, AddInOrder(g, es, skip').value);
  }

  lemma {:induction false} AppliedReorders(g: Graph, es: seq<EdgeReq>, fs: seq<EdgeReq>, h: Graph)
    requires (forall e :: e in es <==> e in fs) && Applied(g, es, h)
    ensures Applied(g, fs, h)
  {
    forall pair ensures Names(es, pair) <==> Names(fs, pair) { }
  }

  /** No blocking edge the request named joins an issue to its own ancestor or
      descendant in the hierarchy the request left, and an acyclic scheduling graph
      stays acyclic. */
  lemma {:induction false} AcceptedGraphIsSafe(g: Graph, es: seq<EdgeReq>, skip: bool)
    requires NoSelf(es) && WellFormed(g) && AddEdges(g, es, skip).Ok?
    ensures Rechecked(AddEdges(g, es, skip).value, es)
    ensures WellFormed(AddEdges(g, es, skip).value)
    ensures Acyclic(Scheduling(g)) ==> Acyclic(Scheduling(AddEdges(g, es, skip).value))
  {
    var fs := ParentChildFirst(es);
    var h := AddEdges(g, es, skip).value;
    InsertAllApplies(g, fs, skip);
    AppliedReorders(g, fs, es, h);
    EditorAccepts(g, es, skip, h);
    AdmissibleIsSafe(g, es, h);
  }

  lemma {:induction false} AdmissibleIsSafe(g: Graph, es: seq<EdgeReq>, h: Graph)
    requires NoSelf(es) && WellFormed(g) && Admissible(g, es, h)
    ensures WellFormed(h)
    ensures Acyclic(Scheduling(g)) ==> Acyclic(Scheduling(h))
  {
    forall s, t | (s, t) in h.edges ensures s in h.rows && s != t && (IsExternal(s, t) || t in h.rows) {
      if (s, t) !in g.edges {
        var e :| e in es && (e.source, e.target) == (s, t);
      }
    }
    if Acyclic(Scheduling(g)) {
      AppliedGrows(g, es, h);
      forall p | p in Scheduling(h) && p !in Scheduling(g) ensures !OnCycle(Scheduling(h), p) {
        assert Names(es, p);
        var e :| e in es && (e.source, e.target) == p;
        assert !CycleConflict(h, e);
      }
      GrowthKeepsAcyclic(Scheduling(g), Scheduling(h));
    }
  }
}
