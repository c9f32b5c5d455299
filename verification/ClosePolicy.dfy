/** What unforced closes can and cannot clear. */
module ClosePolicy {

  import opened Digraph
  import opened IssueGraph
  import opened Affected
  import opened Edits
  import opened Flags
  import opened Results
  import opened Verbs
  import opened Runs
  import opened Histories
  import opened Endings

  /** Each row is a child of the next one. */
  predicate IsChain(g: Graph, chain: seq<Id>) {
    |chain| >= 2 && forall i :: 0 <= i < |chain| - 1 ==> ChildOf(g, chain[i], chain[i + 1])
  }

  /** A live row gated on a live ancestor at the top of a chain of rows not yet closed. */
  predicate GatedOnAncestor(g: Graph, chain: seq<Id>) {
    && IsChain(g, chain)
    && (forall i :: 0 <= i < |chain| ==> chain[i] in g.rows && g.rows[chain[i]].status != Closed)
    && Gates(g, chain[0], chain[|chain| - 1]) && Live(g, chain[0]) && Live(g, chain[|chain| - 1])
  }

  /** No unforced close lands on a chain that is gated on its own top. */
  lemma {:induction false} ChainRefuses(st: State, chain: seq<Id>, r: CloseReq, at: Stamp)
    requires Fresh(st) && GatedOnAncestor(st.g, chain) && !r.force && r.id in chain
    ensures Close(st, r, at).Refused?
  {
    var i :| 0 <= i < |chain| && chain[i] == r.id;
    if i > 0 {
      assert ChildOf(st.g, chain[i - 1], chain[i - 1 + 1]);
      assert OpenChild(st.g, r.id);
    } else {
      assert DirectCause(st.g, r.id);
      LiftedFix(st.g, st.g.rows.Keys, {}, r.id);
      assert LiveBlocker(st.g, r.id);
    }
  }

  /** A close of some other row leaves the chain as it was. */
  lemma {:induction false} OtherClosesMiss(st: State, chain: seq<Id>, r: CloseReq, at: Stamp)
    requires GatedOnAncestor(st.g, chain) && r.id !in chain && Close(st, r, at).Ok?
    ensures var next := Close(st, r, at).value;
            && GatedOnAncestor(next.g, chain)
            && forall x :: x in chain ==> x in next.g.rows && next.g.rows[x] == st.g.rows[x]
  {
    var next := Close(st, r, at).value;
    assert next.g.rows.Keys == st.g.rows.Keys && next.g.edges == st.g.edges;
    SameShape(st.g, next.g);
    forall x | x in chain ensures x in next.g.rows && next.g.rows[x] == st.g.rows[x] { }
  }

  /** THE ANCESTOR GATE NEVER CLEARS. Along every run of unforced closes, one by one or
      in batches, the whole parent chain between a row and the ancestor it is gated on
      stays exactly as it was. */
  lemma {:induction false} ChainStaysOpen(st: State, chain: seq<Id>, closes: seq<CloseReq>, ats: seq<Stamp>)
    requires Sound(st) && Fresh(st) && GatedOnAncestor(st.g, chain)
    requires forall i :: 0 <= i < |closes| ==> !closes[i].force
    ensures var end := CloseAll(st, closes, ats);
            forall x :: x in chain ==> x in end.g.rows && end.g.rows[x] == st.g.rows[x]
    ensures GatedOnAncestor(CloseAll(st, closes, ats).g, chain) && Fresh(CloseAll(st, closes, ats))
    decreases |closes|
  {
    if closes != [] && ats != [] {
      var out := Close(st, closes[0], ats[0]);
      if out.Ok? {
        CloseKeeps(st, closes[0], ats[0]);
        if closes[0].id in chain { ChainRefuses(st, chain, closes[0], ats[0]); }
        OtherClosesMiss(st, chain, closes[0], ats[0]);
      }
      ChainStaysOpen(After(st, out), chain, closes[1..], ats[1..]);
    }
  }

  /** A live row gated on a live descendant: the chain climbs from the descendant to the row. */
  predicate GatedOnDescendant(g: Graph, chain: seq<Id>) {
    && IsChain(g, chain) && (forall i :: 0 <= i < |chain| ==> Live(g, chain[i]))
    && Gates(g, chain[|chain| - 1], chain[0])
  }

  lemma {:induction false} BlockInherited(st: State, chain: seq<Id>, i: nat)
    requires Fresh(st) && IsChain(st.g, chain) && i < |chain|
    requires forall j :: 0 <= j < |chain| ==> Live(st.g, chain[j])
    requires DirectCause(st.g, chain[|chain| - 1])
    ensures chain[i] in st.blocked
    decreases |chain| - i
  {
    LiftedFix(st.g, st.g.rows.Keys, {}, chain[i]);
    if i < |chain| - 1 {
      BlockInherited(st, chain, i + 1);
      assert ChildOf(st.g, chain[i], chain[i + 1]);
    }
  }

  /** Climbing a chain of parents is a walk of the scheduling graph. */
  lemma {:induction false} ChainClimbs(g: Graph, chain: seq<Id>, i: nat)
    requires IsChain(g, chain) && i < |chain|
    ensures Reaches(Scheduling(g), chain[i], chain[|chain| - 1])
    decreases |chain| - i
  {
    if i < |chain| - 1 {
      assert ChildOf(g, chain[i], chain[i + 1]);
      ReachesEdge(Scheduling(g), chain[i], chain[i + 1]);
      ChainClimbs(g, chain, i + 1);
      ReachesTrans(Scheduling(g), chain[i], chain[i + 1], chain[|chain| - 1]);
    } else {
      ReachesSelf(Scheduling(g), chain[i]);
    }
  }

  /** No store the verbs keep holds a gate onto a descendant: with the chain of parents it
      would be a scheduling cycle. */
  lemma {:induction false} NoDescendantGate(st: State, chain: seq<Id>)
    requires GatedOnDescendant(st.g, chain)
    ensures !Sound(st)
  {
    var r, top := Scheduling(st.g), chain[|chain| - 1];
    ChainClimbs(st.g, chain, 0);
    var n: nat :| Walk(r, chain[0], top, n);
    assert (top, chain[0]) in r;
    assert Walk(r, top, top, n + 1);
  }

  /** THE DESCENDANT GATE WOULD CLEAR. Were such a gate admitted, the descendant would
      inherit the block, but an unforced close asks only for open children and live direct
      blockers: it would land exactly when the descendant has neither, and the gate be gone. */
  lemma {:induction false} DescendantGateClears(st: State, chain: seq<Id>, actor: string, at: Stamp)
    requires Tidy(st) && Fresh(st) && GatedOnDescendant(st.g, chain) && actor != "" && chain[0] != ""
    ensures chain[0] in st.blocked
    ensures var out := Close(st, CloseReq(chain[0], actor, false, None), at);
            && (out.Ok? <==> !OpenChild(st.g, chain[0]) && !LiveBlocker(st.g, chain[0]))
            && (out.Ok? ==> !Live(out.value.g, chain[0]))
  {
    assert DirectCause(st.g, chain[|chain| - 1]);
    BlockInherited(st, chain, 0);
    FreshIsConsistent(st);
    RightCloseAnswers(st, CloseReq(chain[0], actor, false, None), at);
  }

  // ---------------------------------------------------------------- what landed

  /** Some item of the batch close changed its row when its turn came. */
  ghost predicate Landed(st: State, closes: seq<CloseReq>, ats: seq<Stamp>)
    decreases |closes|
  {
    closes != [] && ats != [] &&
    ((closes[0].id in st.g.rows && st.g.rows[closes[0].id].status != Closed && Close(st, closes[0], ats[0]).Ok?) ||
     Landed(After(st, Close(st, closes[0], ats[0])), closes[1..], ats[1..]))
  }

  ghost function ClosedIds(g: Graph): set<Id> {
    set x | x in g.rows && g.rows[x].status == Closed
  }

  /** A close only ever adds to the closed rows. */
  lemma {:induction false} CloseAdds(st: State, r: CloseReq, at: Stamp)
    ensures ClosedIds(st.g) <= ClosedIds(After(st, Close(st, r, at)).g)
    ensures After(st, Close(st, r, at)) != st ==>
            r.id in st.g.rows && st.g.rows[r.id].status != Closed && Close(st, r, at).Ok?
    ensures r.id in st.g.rows && st.g.rows[r.id].status != Closed && Close(st, r, at).Ok? ==>
              r.id in ClosedIds(After(st, Close(st, r, at)).g) && After(st, Close(st, r, at)) != st
  {
  }

  lemma {:induction false} CloseAllAdds(st: State, closes: seq<CloseReq>, ats: seq<Stamp>)
    ensures ClosedIds(st.g) <= ClosedIds(CloseAll(st, closes, ats).g)
    decreases |closes|
  {
    if closes != [] && ats != [] {
      CloseAdds(st, closes[0], ats[0]);
      CloseAllAdds(After(st, Close(st, closes[0], ats[0])), closes[1..], ats[1..]);
    }
  }

  /** A batch close changes the store if and only if one of its items landed. */
  lemma {:induction false} ChangedWhenLanded(st: State, closes: seq<CloseReq>, ats: seq<Stamp>)
    ensures CloseAll(st, closes, ats) != st <==> Landed(st, closes, ats)
    decreases |closes|
  {
    if closes != [] && ats != [] {
      var next := After(st, Close(st, closes[0], ats[0]));
      CloseAdds(st, closes[0], ats[0]);
      CloseAllAdds(next, closes[1..], ats[1..]);
      ChangedWhenLanded(next, closes[1..], ats[1..]);
      if next != st { assert closes[0].id !in ClosedIds(st.g) && closes[0].id in ClosedIds(next.g); }
    }
  }

  /** A BATCH CLOSE, ITEM BY ITEM: item i is the close of its row in the state the items before
      it left, is told exactly what that close is told, and leaves what it leaves. */
  lemma {:induction false} CloseBatchPlainly(st: State, closes: seq<CloseReq>, ats: seq<Stamp>, i: nat)
    requires i < |closes| == |ats|
    ensures |CloseRefusals(st, closes, ats)| == |closes|
    ensures var before := CloseAll(st, closes[..i], ats[..i]);
            var out := Close(before, closes[i], ats[i]);
            && CloseRefusals(st, closes, ats)[i] == (if out.Refused? then Some(out.why) else None)
            && CloseAll(st, closes[..i + 1], ats[..i + 1]) == (if out.Refused? then before else out.value)
    decreases i
  {
    var next := After(st, Close(st, closes[0], ats[0]));
    RefusalsCount(next, closes[1..], ats[1..]);
    if i > 0 {
      CloseBatchPlainly(next, closes[1..], ats[1..], i - 1);
      assert closes[1..][..i - 1] == closes[..i][1..] && ats[1..][..i - 1] == ats[..i][1..];
      assert closes[1..][..i] == closes[..i + 1][1..] && ats[1..][..i] == ats[..i + 1][1..];
    } else {
      assert closes[..1][1..] == [] && closes[..0] == [];
    }
  }

  lemma {:induction false} RefusalsCount(st: State, closes: seq<CloseReq>, ats: seq<Stamp>)
    requires |closes| == |ats|
    ensures |CloseRefusals(st, closes, ats)| == |closes|
    decreases |closes|
  {
    if closes != [] { RefusalsCount(After(st, Close(st, closes[0], ats[0])), closes[1..], ats[1..]); }
  }
}
