/** Creating a row with its edges: which requests are accepted and why the others are not,
    read off the stored tables and the request. */
module Creation {

  import opened Digraph
  import opened IssueGraph
  import opened Affected
  import opened Edits
  import opened Flags
  import opened Verbs
  import opened Runs
  import opened Endings
  import opened Reading
  import opened Acceptance

  // ---------------------------------------------------------------- the editor's checks, edge by edge

  /** The same rows and pairs, each pair of the same type. */
  ghost predicate SameKinds(g: Graph, h: Graph) {
    && g.rows == h.rows && g.edges.Keys == h.edges.Keys
    && forall p :: p in g.edges ==> g.edges[p].kind == h.edges[p].kind
  }

  lemma {:induction false} SameKindsSame(g: Graph, h: Graph)
    requires SameKinds(g, h)
    ensures Scheduling(g) == Scheduling(h) && Ancestry(g) == Ancestry(h)
  {
    forall p ensures p in g.edges <==> p in h.edges { assert p in g.edges.Keys <==> p in h.edges.Keys; }
  }

  /** Where the rows are there and no pair changes its type, a create takes its edges exactly
      when the editor with its probe on does. */
  lemma {:induction false} CreateIsInsert(g: Graph, h: Graph, es: seq<EdgeReq>)
    requires SameKinds(g, h) && Wellposed(h, es)
    ensures CreateEdges(g, es).Ok? <==> InsertAll(h, es, false).Ok?
    decreases |es|
  {
    if es != [] {
      var e, rest := es[0], es[1..];
      assert es == [e] + rest && e in es;
      SameKindsSame(g, h);
      assert (e.source, e.target) in g.edges.Keys <==> (e.source, e.target) in h.edges.Keys;
      if Insert(h, e, false).Ok? {
        assert Wellposed(Put(h, e), rest);
        assert SameKinds(CreateEdge(g, e).value, Put(h, e));
        CreateIsInsert(CreateEdge(g, e).value, Put(h, e), rest);
      }
    }
  }

  /** Edges that a create took stand between two rows. */
  lemma {:induction false} TakenStand(g: Graph, es: seq<EdgeReq>)
    requires CreateEdges(g, es).Ok?
    ensures forall e :: e in es && !SetAside(g, e) ==> e.source in g.rows && e.source != e.target
    decreases |es|
  {
    if es != [] {
      assert es == [es[0]] + es[1..];
      TakenStand(CreateEdge(g, es[0]).value, es[1..]);
    }
  }

  /** On an acyclic graph the last gate adds nothing to the probes. */
  lemma {:induction false} ProbedIsEdited(g: Graph, es: seq<EdgeReq>)
    requires Acyclic(Scheduling(g))
    ensures AddEdges(g, es, false).Ok? <==> InsertAll(g, ParentChildFirst(es), false).Ok?
  {
    var fs := ParentChildFirst(es);
    if InsertAll(g, fs, false).Ok? {
      var h := InsertAll(g, fs, false).value;
      InsertAllApplies(g, fs, false);
      ProbedStaysAcyclic(g, fs);
      forall e | e in es ensures !CycleConflict(h, e) {
        assert e in fs;
        if CycleConflict(h, e) {
          var n: nat :| Walk(Scheduling(h), e.target, e.source, n);
          assert (e.source, e.target) in Scheduling(h) && Walk(Scheduling(h), e.source, e.source, n + 1);
        }
      }
    }
  }

  lemma {:induction false} ProbedStaysAcyclic(g: Graph, es: seq<EdgeReq>)
    requires Acyclic(Scheduling(g)) && InsertAll(g, es, false).Ok?
    ensures Acyclic(Scheduling(InsertAll(g, es, false).value))
    decreases |es|
  {
    if es != [] {
      ProbedStep(g, es[0]);
      ProbedStaysAcyclic(Put(g, es[0]), es[1..]);
    }
  }

  // ---------------------------------------------------------------- acceptance

  /** The request gives each pair one type, and a stored pair its own. */
  ghost predicate OneType(g: Graph, es: seq<EdgeReq>) {
    && (forall e :: e in es && (e.source, e.target) in g.edges ==> g.edges[(e.source, e.target)].kind == e.kind)
    && (forall e, f :: e in es && f in es && e.source == f.source && e.target == f.target ==> e.kind == f.kind)
  }

  /** Both its ends are rows once the new one is there, and they are two. */
  ghost predicate Grounded(rows: set<Id>, e: EdgeReq) {
    e.source in rows && (Local(e.source, e.target) ==> e.target in rows) && e.source != e.target
  }

  /** CREATED, EXACTLY. A request that gives no pair two types is accepted if and only if its
      status is a known one, its id is free, every edge joins two rows, the new one among
      them, and no edge closes a cycle or crosses its own hierarchy, counting stored and
      requested edges alike. */
  lemma {:induction false} CreatedExactly(cfg: Config, st: State, r: CreateReq)
    requires Sound(st) && OneType(st.g, r.edges)
    ensures Create(cfg, st, r).Ok? <==>
            && (r.row.status.Custom? ==> r.row.status.name in cfg.custom) && r.id !in st.g.rows
            && (forall e :: e in r.edges ==> Grounded(st.g.rows.Keys + {r.id}, e))
            && (forall e :: e in r.edges ==> !ClosesCycle(st.g, r.edges, e) && !CrossesHierarchy(st.g, r.edges, e))
  {
    if r.id !in st.g.rows {
      var g := SetRow(st.g, r.id, r.row);
      SoundCreateAnswers(cfg, st, r);
      EdgesTakenExactly(g, r.edges);
      assert g.rows.Keys == st.g.rows.Keys + {r.id};
      SamePairs(g, st.g, r.edges);
      forall e ensures SetAside(g, e) <==> Local(e.source, e.target) && e.target !in g.rows {
        LocalIs(e.source, e.target);
      }
      forall e ensures Grounded(g.rows.Keys, e) ==> !SetAside(g, e) { }
    }
  }

  lemma {:induction false} SamePairs(g: Graph, h: Graph, es: seq<EdgeReq>)
    requires g.edges == h.edges
    ensures forall e :: ClosesCycle(g, es, e) == ClosesCycle(h, es, e)
    ensures forall e :: CrossesHierarchy(g, es, e) == CrossesHierarchy(h, es, e)
  {
    assert forall kinds :: Pairs(g, es, kinds) == Pairs(h, es, kinds);
  }

  lemma {:induction false} EdgesTakenExactly(g: Graph, es: seq<EdgeReq>)
    requires Acyclic(Scheduling(g)) && OneType(g, es)
    ensures CreateEdges(g, ParentChildFirst(es)).Ok? && (forall e :: e in es ==> !SetAside(g, e)) <==>
            && (forall e :: e in es ==> Grounded(g.rows.Keys, e))
            && (forall e :: e in es ==> !ClosesCycle(g, es, e) && !CrossesHierarchy(g, es, e))
  {
    var fs := ParentChildFirst(es);
    forall e | e in es ensures Local(e.source, e.target) <==> !IsExternal(e.source, e.target) {
      LocalIs(e.source, e.target);
    }
    if CreateEdges(g, fs).Ok? && forall e :: e in es ==> !SetAside(g, e) {
      TakenStand(g, fs);
      assert forall e :: e in es ==> e in fs;
    }
    if forall e :: e in es ==> Grounded(g.rows.Keys, e) {
      assert Wellposed(g, es) && Wellposed(g, fs) && NoSelf(es);
      CreateIsInsert(g, g, fs);
      ProbedIsEdited(g, es);
      GraphAcceptsExactly(g, es, false);
    }
  }

  // ---------------------------------------------------------------- the refusals

  /** NOT FOUND MEANS A MISSING TARGET: a create answers so only when an edge of it names a row of
      this database that is not there, */
  lemma {:induction false} NotFoundMeans(cfg: Config, st: State, r: CreateReq)
    ensures var out := Create(cfg, st, r);
            out.Refused? && out.why.NotFound? ==>
              exists e :: e in r.edges && Local(e.source, e.target) && e.target !in st.g.rows && e.target != r.id
  {
    NeverNotFound(SetRow(st.g, r.id, r.row), ParentChildFirst(r.edges));
    if e :| e in r.edges && SetAside(SetRow(st.g, r.id, r.row), e) { LocalIs(e.source, e.target); }
  }

  lemma {:induction false} NeverNotFound(g: Graph, es: seq<EdgeReq>)
    ensures var out := CreateEdges(g, es);
            out.Refused? ==> !out.why.NotFound?
    decreases |es|
  {
    if es != [] && CreateEdge(g, es[0]).Ok? { NeverNotFound(CreateEdge(g, es[0]).value, es[1..]); }
  }

  /** A ROW WITH ONE EDGE, PLAINLY: the first check that fails decides, and a pair that is stored
      already keeps its type and its gate. */
  lemma {:induction false} CreateWithOneEdge(cfg: Config, st: State, id: Id, row: Row, e: EdgeReq)
    requires Sound(st) && id !in st.g.rows && (row.status.Custom? ==> row.status.name in cfg.custom)
    ensures var out, stored := Create(cfg, st, CreateReq(id, row, [e])), Pairs(st.g, [], {ParentChild});
            var rows := st.g.rows.Keys + {id};
            if Local(e.source, e.target) && e.target !in rows then out == Refused(NotFound([]))
            else if e.source == e.target then out == Refused(SelfDependency)
            else if e.kind in BLOCKING_KINDS && Local(e.source, e.target) && Reaches(stored, e.source, e.target)
            then out == Refused(HierarchyConflict(true))
            else if e.kind in BLOCKING_KINDS && Local(e.source, e.target) && Reaches(stored, e.target, e.source)
            then out == Refused(HierarchyConflict(false))
            else if e.kind in SCHEDULING_KINDS && Reaches(Pairs(st.g, [], SCHEDULING_KINDS), e.target, e.source)
            then out == Refused(Cycle)
            else if e.source !in rows then out == Refused(SourceNotFound)
            else && out.Ok? && out.value.g.rows == st.g.rows[id := row]
                 && out.value.g.edges == (if (e.source, e.target) in st.g.edges then st.g.edges
                                          else st.g.edges[(e.source, e.target) := Edge(e.kind, e.gate)])
  {
    var g := SetRow(st.g, id, row);
    KindsAre(e.kind);
    LocalIs(e.source, e.target);
    StoredPairs(st.g);
    assert Scheduling(g) == Scheduling(st.g) && Ancestry(g) == Ancestry(st.g);
    OneEdge(g, e, {}, false);
    LoneCreate(g, e);
    assert e in [e];
    SoundCreateAnswers(cfg, st, CreateReq(id, row, [e]));
  }

  lemma {:induction false} LoneCreate(g: Graph, e: EdgeReq)
    ensures CreateEdges(g, [e]) == CreateEdge(g, e)
  {
    match CreateEdge(g, e) { case Refused(_) => case Ok(h) => assert CreateEdges(h, [e][1..]) == Ok(h); }
  }
}
