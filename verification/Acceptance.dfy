/** Which edge requests are accepted, and what they leave, read off the stored tables and the
    request: edge types, ids and prefixes as spelled, walks over stored and requested edges. */
module Acceptance {

  import opened Digraph
  import opened IssueGraph
  import opened Affected
  import opened Edits
  import opened Flags
  import opened Results
  import opened Verbs
  import opened Batch
  import opened Runs
  import opened Endings
  import opened Reading

  const SCHEDULING_KINDS: set<Kind> := {Blocks, ConditionalBlocks, ParentChild}
  const BLOCKING_KINDS: set<Kind> := {Blocks, ConditionalBlocks}

  /** The stored and the requested pairs of these types. */
  function Pairs(g: Graph, es: seq<EdgeReq>, kinds: set<Kind>): Rel {
    (set p | p in g.edges && g.edges[p].kind in kinds) +
    (set i | 0 <= i < |es| && es[i].kind in kinds :: (es[i].source, es[i].target))
  }

  /** A named edge that would let work wait on itself. */
  ghost predicate ClosesCycle(g: Graph, es: seq<EdgeReq>, e: EdgeReq) {
    e in es && e.kind in SCHEDULING_KINDS && Reaches(Pairs(g, es, SCHEDULING_KINDS), e.target, e.source)
  }

  /** A named edge that blocks an issue on its own ancestor or descendant. */
  ghost predicate CrossesHierarchy(g: Graph, es: seq<EdgeReq>, e: EdgeReq) {
    && e in es && e.kind in BLOCKING_KINDS && Local(e.source, e.target)
    && (Reaches(Pairs(g, es, {ParentChild}), e.source, e.target) ||
         Reaches(Pairs(g, es, {ParentChild}), e.target, e.source))
  }

  /** Both ends and a type are spelled, and they are two rows. */
  ghost predicate WellSpelled(e: EdgeReq) {
    && e.source != "" && e.target != "" && e.source != e.target
    && (e.kind.Other? ==> 1 <= |e.kind.name| <= 32)
  }

  /** The rows it names are there, and no pair is given two types. */
  ghost predicate Stands(g: Graph, es: seq<EdgeReq>, e: EdgeReq) {
    && e.source in g.rows && (Local(e.source, e.target) ==> e.target in g.rows)
    && ((e.source, e.target) in g.edges ==> g.edges[(e.source, e.target)].kind == e.kind)
    && (forall f :: f in es && f.source == e.source && f.target == e.target ==> f.kind == e.kind)
  }

  // ---------------------------------------------------------------- the vocabulary

  lemma {:induction false} KindsAre(k: Kind)
    ensures IsScheduling(k) <==> k in SCHEDULING_KINDS
    ensures IsBlocking(k) <==> k in BLOCKING_KINDS
  {
  }

  lemma {:induction false} SpelledIs(e: EdgeReq)
    ensures WellSpelled(e) <==> InShape(e)
  {
  }

  lemma {:induction false} StandsIs(g: Graph, es: seq<EdgeReq>)
    ensures (forall e :: e in es ==> Stands(g, es, e)) <==> Wellposed(g, es)
  {
    forall e | e in es ensures Local(e.source, e.target) <==> !IsExternal(e.source, e.target) {
      LocalIs(e.source, e.target);
    }
    if Wellposed(g, es) {
      forall e | e in es ensures Stands(g, es, e) { }
    } else if forall e :: e in es ==> Stands(g, es, e) {
      forall e, f | e in es && f in es && e.source == f.source && e.target == f.target ensures e.kind == f.kind {
        assert Stands(g, es, e);
      }
    }
  }

  lemma {:induction false} PairsAre(g: Graph, es: seq<EdgeReq>, h: Graph)
    requires Wellposed(g, es) && Applied(g, es, h)
    ensures Scheduling(h) == Pairs(g, es, SCHEDULING_KINDS) && Ancestry(h) == Pairs(g, es, {ParentChild})
  {
    forall k ensures IsScheduling(k) <==> k in SCHEDULING_KINDS { KindsAre(k); }
    forall p ensures p in Pairs(g, es, SCHEDULING_KINDS) <==>
        p in Scheduling(h) { PairIs(g, es, h, p, SCHEDULING_KINDS); }
    forall p ensures p in Pairs(g, es, {ParentChild}) <==> p in Ancestry(h) { PairIs(g, es, h, p, {ParentChild}); }
  }

  lemma {:induction false} PairIs(g: Graph, es: seq<EdgeReq>, h: Graph, p: (Id, Id), kinds: set<Kind>)
    requires Wellposed(g, es) && Applied(g, es, h)
    ensures p in Pairs(g, es, kinds) <==> p in h.edges && h.edges[p].kind in kinds
  {
    forall i | 0 <= i < |es| && (es[i].source, es[i].target) == p
      ensures Names(es, p) && p in h.edges && h.edges[p].kind == es[i].kind
    {
      assert es[i] in es;
    }
    if Names(es, p) {
      var e :| e in es && (e.source, e.target) == p;
      var i :| 0 <= i < |es| && es[i] == e;
    }
  }

  // ---------------------------------------------------------------- acceptance

  ghost function PutAll(g: Graph, es: seq<EdgeReq>): Graph
    decreases |es|
  {
    if es == [] then g else PutAll(Put(g, es[0]), es[1..])
  }

  lemma {:induction false} PutAllApplies(g: Graph, es: seq<EdgeReq>)
    requires Wellposed(g, es)
    ensures Applied(g, es, PutAll(g, es))
    decreases |es|
  {
    if es != [] {
      var e, rest := es[0], es[1..];
      assert es == [e] + rest && e in es;
      assert Wellposed(Put(g, e), rest);
      PutAllApplies(Put(g, e), rest);
      AppliedStep(g, e, rest, PutAll(g, es));
    }
  }

  lemma {:induction false} AdmissiblePlainly(g: Graph, es: seq<EdgeReq>, h: Graph)
    requires Wellposed(g, es) && Applied(g, es, h) && NoSelf(es)
    ensures Admissible(g, es, h) <==> forall e :: e in es ==> !ClosesCycle(g, es, e) && !CrossesHierarchy(g, es, e)
  {
    PairsAre(g, es, h);
    forall e | e in es
      ensures CycleConflict(h, e) <==> ClosesCycle(g, es, e)
      ensures e.source != e.target ==>
                (AncestorConflict(h, e) || DescendantConflict(h, e) <==> CrossesHierarchy(g, es, e))
    {
      KindsAre(e.kind);
      LocalIs(e.source, e.target);
    }
  }

  /** ACCEPTED, EXACTLY. From a sound store a request is accepted, probing or not, if and only
      if it has an actor and an edge, every edge is well spelled and stands, and no edge closes
      a cycle of blocks, conditional-blocks and parent-child edges or blocks an issue across
      its own hierarchy, counting stored and requested edges alike. */
  lemma {:induction false} AcceptedExactly(st: State, actor: string, es: seq<EdgeReq>, skip: bool)
    requires Sound(st)
    ensures AddDependencies(st, actor, es, skip).Ok? <==>
            && actor != "" && es != [] && (forall e :: e in es ==> WellSpelled(e) && Stands(st.g, es, e))
            && (forall e :: e in es ==> !ClosesCycle(st.g, es, e) && !CrossesHierarchy(st.g, es, e))
  {
    forall e ensures WellSpelled(e) <==> InShape(e) { SpelledIs(e); }
    StandsIs(st.g, es);
    if actor != "" && es != [] && ShapeRefusal(es).None? {
      EditorLands(st, actor, es, skip);
      GraphAcceptsExactly(st.g, es, skip);
    }
  }

  lemma {:induction false} GraphAcceptsExactly(g: Graph, es: seq<EdgeReq>, skip: bool)
    requires NoSelf(es)
    ensures AddEdges(g, es, skip).Ok? <==>
            Wellposed(g, es) && forall e :: e in es ==> !ClosesCycle(g, es, e) && !CrossesHierarchy(g, es, e)
  {
    if AddEdges(g, es, skip).Ok? {
      InsertAllApplies(g, ParentChildFirst(es), skip);
      WellposedReorders(g, ParentChildFirst(es), es);
    }
    if Wellposed(g, es) {
      var h := PutAll(g, es);
      PutAllApplies(g, es);
      EditorAccepts(g, es, skip, h);
      AdmissiblePlainly(g, es, h);
    }
  }

  /** Edges of any other type than the three are never refused but for their own rows. */
  lemma {:induction false} HarmlessIsAccepted(st: State, actor: string, es: seq<EdgeReq>, skip: bool)
    requires Sound(st) && actor != "" && es != [] && forall e :: e in es ==> WellSpelled(e) && Stands(st.g, es, e)
    requires forall e :: e in es ==> e.kind == WaitsFor || e.kind.Other?
    ensures AddDependencies(st, actor, es, skip).Ok?
  {
    AcceptedExactly(st, actor, es, skip);
  }

  // ---------------------------------------------------------------- the refusals

  /** While edges go in, the scheduling graph stays within the stored and requested pairs. */
  lemma {:induction false} CycleFound(g: Graph, es: seq<EdgeReq>, skip: bool, base: Rel)
    requires Scheduling(g) <= base
    requires forall e :: e in es && e.kind in SCHEDULING_KINDS ==> (e.source, e.target) in base
    ensures InsertAll(g, es, skip).Ok? ==> Scheduling(InsertAll(g, es, skip).value) <= base
    ensures InsertAll(g, es, skip) == Refused(Cycle) ==>
              exists e :: e in es && e.kind in SCHEDULING_KINDS && Reaches(base, e.target, e.source)
    decreases |es|
  {
    if es != [] {
      var e, rest := es[0], es[1..];
      assert es == [e] + rest && e in es;
      KindsAre(e.kind);
      if CycleConflict(g, e) { ReachesGrows(Scheduling(g), base, e.target, e.source); }
      if Insert(g, e, skip).Ok? {
        PutGrows(g, e);
        CycleFound(Put(g, e), rest, skip, base);
      }
    }
  }

  /** REFUSED FOR A CYCLE ONLY OVER ONE: some named edge of the three types has a way back from
      its target to its source over stored and requested edges of those types. */
  lemma {:induction false} CycleRefusalMeans(st: State, actor: string, es: seq<EdgeReq>, skip: bool)
    requires AddDependencies(st, actor, es, skip) == Refused(Cycle)
    ensures exists e :: ClosesCycle(st.g, es, e)
  {
    var fs, base := ParentChildFirst(es), Pairs(st.g, es, SCHEDULING_KINDS);
    forall k ensures IsScheduling(k) <==> k in SCHEDULING_KINDS { KindsAre(k); }
    forall e | e in es && e.kind in SCHEDULING_KINDS ensures (e.source, e.target) in base {
      var i :| 0 <= i < |es| && es[i] == e;
    }
    CycleFound(st.g, fs, skip, base);
    if InsertAll(st.g, fs, skip).Ok? {
      var h := InsertAll(st.g, fs, skip).value;
      var e :| e in es && CycleConflict(h, e);
      ReachesGrows(Scheduling(h), base, e.target, e.source);
      assert ClosesCycle(st.g, es, e);
    } else {
      var e :| e in fs && e.kind in SCHEDULING_KINDS && Reaches(base, e.target, e.source);
      assert ClosesCycle(st.g, es, e);
    }
  }

  // ---------------------------------------------------------------- what is left

  /** The gate of a pair is the one gate the request gives it. */
  lemma {:induction false} GateLeft(g: Graph, es: seq<EdgeReq>, skip: bool, e: EdgeReq)
    requires InsertAll(g, es, skip).Ok? && e in es
    requires forall f :: f in es && f.source == e.source && f.target == e.target ==> f.gate == e.gate
    ensures var h := InsertAll(g, es, skip).value;
            (e.source, e.target) in h.edges && h.edges[(e.source, e.target)].gate == e.gate
    decreases |es|
  {
    var f, rest := es[0], es[1..];
    assert es == [f] + rest && f in es;
    if Names(rest, (e.source, e.target)) {
      var k :| k in rest && (k.source, k.target) == (e.source, e.target);
      GateLeft(Put(g, f), rest, skip, k);
    } else {
      InsertAllApplies(Put(g, f), rest, skip);
      assert e == f by { assert e in rest ==> Names(rest, (e.source, e.target)); }
    }
  }

  /** The request gives the pair of `e` one gate. */
  ghost predicate OneGate(es: seq<EdgeReq>, e: EdgeReq) {
    forall f :: f in es && f.source == e.source && f.target == e.target ==> f.gate == e.gate
  }

  /** WHAT AN ACCEPTED REQUEST LEAVES: no row moves; every named pair is stored with its type
      and, if the request gives it one gate, that gate; every other pair is as it was. */
  lemma {:induction false} EditLeaves(st: State, actor: string, es: seq<EdgeReq>, skip: bool)
    requires AddDependencies(st, actor, es, skip).Ok?
    ensures var h := AddDependencies(st, actor, es, skip).value.g;
            && h.rows == st.g.rows
            && (forall e :: e in es ==> (e.source, e.target) in h.edges && h.edges[(e.source, e.target)].kind == e.kind)
            && (forall e :: e in es && OneGate(es, e) ==>
                  (e.source, e.target) in h.edges && h.edges[(e.source, e.target)] == Edge(e.kind, e.gate))
            && (forall p :: (forall e :: e in es ==> (e.source, e.target) != p) ==>
                  (p in h.edges <==> p in st.g.edges) && (p in h.edges ==> h.edges[p] == st.g.edges[p]))
  {
    var fs := ParentChildFirst(es);
    InsertAllApplies(st.g, fs, skip);
    forall e | e in es && OneGate(es, e)
      ensures InsertAll(st.g, fs, skip).value.edges[(e.source, e.target)].gate == e.gate
    {
      GateLeft(st.g, fs, skip, e);
    }
    forall p | forall e :: e in es ==> (e.source, e.target) != p ensures !Names(fs, p) { }
  }

  // ---------------------------------------------------------------- one edge, removal, create

  /** ONE EDGE, PLAINLY, with the probe on: the first of its checks that fails decides. */
  lemma {:induction false} OneEdgePlainly(st: State, actor: string, e: EdgeReq)
    requires Sound(st) && actor != "" && WellSpelled(e)
    ensures var out, stored := AddDependencies(st, actor, [e], false), Pairs(st.g, [], {ParentChild});
            if e.source !in st.g.rows then out == Refused(SourceNotFound)
            else if Local(e.source, e.target) && e.target !in st.g.rows then out == Refused(TargetNotFound)
            else if e.kind in BLOCKING_KINDS && Local(e.source, e.target) && Reaches(stored, e.source, e.target)
            then out == Refused(HierarchyConflict(true))
            else if e.kind in BLOCKING_KINDS && Local(e.source, e.target) && Reaches(stored, e.target, e.source)
            then out == Refused(HierarchyConflict(false))
            else if e.kind in SCHEDULING_KINDS && Reaches(Pairs(st.g, [], SCHEDULING_KINDS), e.target, e.source)
            then out == Refused(Cycle)
            else if (e.source, e.target) in st.g.edges && st.g.edges[(e.source, e.target)].kind != e.kind
            then out == Refused(TypeConflict)
            else out.Ok? && out.value.g == Graph(st.g.rows, st.g.edges[(e.source, e.target) := Edge(e.kind, e.gate)])
  {
    var g := st.g;
    KindsAre(e.kind);
    LocalIs(e.source, e.target);
    SpelledIs(e);
    StoredPairs(g);
    OneEdge(g, e, st.blocked, false);
    assert e in [e];
    LoneSettles(st, e);
    if Insert(g, e, false).Ok? { LoneGate(g, e); }
  }

  lemma {:induction false} StoredPairs(g: Graph)
    ensures Pairs(g, [], {ParentChild}) == Ancestry(g) && Pairs(g, [], SCHEDULING_KINDS) == Scheduling(g)
  {
    forall k ensures IsScheduling(k) <==> k in SCHEDULING_KINDS { KindsAre(k); }
  }

  lemma {:induction false} LoneSettles(st: State, e: EdgeReq)
    requires Sound(st) && e.source != e.target
    ensures FoldSettles(st.g, [e], false, st.blocked)
  {
    ProbedFoldSettles(st.g, [e], st.blocked);
  }

  lemma {:induction false} LoneGate(g: Graph, e: EdgeReq)
    requires Acyclic(Scheduling(g)) && Insert(g, e, false).Ok?
    ensures !FinalCycle(Put(g, e), [e])
  {
    ProbedStep(g, e);
    PutGrows(g, e);
    if IsScheduling(e.kind) && Reaches(Scheduling(Put(g, e)), e.target, e.source) {
      var n: nat :| Walk(Scheduling(Put(g, e)), e.target, e.source, n);
      assert Walk(Scheduling(Put(g, e)), e.source, e.source, n + 1);
    }
  }

  /** REMOVAL, PLAINLY: exactly that pair goes. */
  lemma {:induction false} RemovePlainly(st: State, actor: string, s: Id, t: Id)
    ensures var out := RemoveDependency(st, actor, s, t);
            if actor == "" || s == "" || t == "" then out == Refused(Invalid)
            else && out.Ok? && out.value.g.rows == st.g.rows && (s, t) !in out.value.g.edges
                 && (forall p :: p != (s, t) ==> (p in out.value.g.edges <==> p in st.g.edges))
                 && (forall p :: p in out.value.g.edges ==> out.value.g.edges[p] == st.g.edges[p])
  {
  }

  /** CREATE, PLAINLY: the row as given, every named pair stored, each new one with a type the
      request gives it, and nothing else moved. */
  lemma {:induction false} CreatePlainly(cfg: Config, st: State, r: CreateReq)
    ensures var out := Create(cfg, st, r);
            && (r.row.status.Custom? && r.row.status.name !in cfg.custom ==> out == Refused(Invalid))
            && (out == Refused(AlreadyExists) ==> r.id in st.g.rows)
            && (r.id in st.g.rows ==> out.Refused?)
            && (out.Ok? ==>
                 && out.value.g.rows == st.g.rows[r.id := r.row]
                 && (forall p :: p in st.g.edges ==> p in out.value.g.edges && out.value.g.edges[p] == st.g.edges[p])
                 && (forall e :: e in r.edges ==> (e.source, e.target) in out.value.g.edges)
                 && (forall p :: p in out.value.g.edges && p !in st.g.edges ==>
                      exists e :: e in r.edges && (e.source, e.target) == p &&
                          out.value.g.edges[p] == Edge(e.kind, e.gate)))
  {
    var g, fs := SetRow(st.g, r.id, r.row), ParentChildFirst(r.edges);
    CreateRefuses(g, fs);
    if Create(cfg, st, r).Ok? {
      CreateEdgesExtends(g, fs);
      CreateEdgesPlainly(g, fs);
    }
  }

  lemma {:induction false} CreateRefuses(g: Graph, es: seq<EdgeReq>)
    ensures CreateEdges(g, es) != Refused(AlreadyExists)
    decreases |es|
  {
    if es != [] && CreateEdge(g, es[0]).Ok? { CreateRefuses(CreateEdge(g, es[0]).value, es[1..]); }
  }

  lemma {:induction false} CreateEdgesPlainly(g: Graph, es: seq<EdgeReq>)
    requires CreateEdges(g, es).Ok? && forall e :: e in es ==> !SetAside(g, e)
    ensures var h := CreateEdges(g, es).value;
            && (forall e :: e in es ==> (e.source, e.target) in h.edges)
            && (forall p :: p in h.edges && p !in g.edges ==>
                 exists e :: e in es && (e.source, e.target) == p && h.edges[p] == Edge(e.kind, e.gate))
    decreases |es|
  {
    if es != [] {
      var e, rest := es[0], es[1..];
      var m, h := CreateEdge(g, e).value, CreateEdges(g, es).value;
      assert es == [e] + rest && e in es && !SetAside(g, e);
      forall f | f in rest ensures !SetAside(m, f) { assert f in es && !SetAside(g, f); }
      CreateEdgesExtends(m, rest);
      CreateEdgesPlainly(m, rest);
      forall p | p in h.edges && p !in g.edges
        ensures exists e :: e in es && (e.source, e.target) == p && h.edges[p] == Edge(e.kind, e.gate)
      {
        if p !in m.edges {
          var f :| f in rest && (f.source, f.target) == p && h.edges[p] == Edge(f.kind, f.gate);
          assert f in es;
        }
      }
    }
  }
}
