/** Claims under interleaving: a read, a guarded write, and whatever happens in between. */
module Claims {

  import opened Digraph
  import opened IssueGraph
  import opened Affected
  import opened Edits
  import opened Flags
  import opened Identity
  import opened Results
  import opened Verbs
  import opened Store
  import opened Histories
  import opened ClosePolicy

  type Pid = nat

  /** A claim that has read the row and not yet written it. */
  datatype Pending = Pending(actor: string, seen: Row)

  datatype Verdict = Won(actor: string) | Kept(actor: string) | Lost(actor: string, holder: string, status: Status)

  /** One row, the version tokens ever minted for it, claims in flight, verdicts so far. */
  datatype World = World(row: Row, minted: set<int>, inFlight: map<Pid, Pending>, verdicts: seq<Verdict>)

  datatype Event =
    | Look(pid: Pid, actor: string)
    | Write(pid: Pid, token: int, now: int)
    | Move(row: Row)

  predicate SlotOpen(cfg: Config, row: Row, actor: string) {
    row.assignee == "" || ActorMatches(row.assignee, actor) || row.assignee in cfg.pools
  }

  function Taken(row: Row, actor: string, at: Stamp): Row {
    Stamped(row, at).(assignee := actor, status := InProgress)
  }

  /** The write goes through only if the slot was open when read, the version is still the
      one read and the status is claimable; otherwise the row as it now stands decides
      between a claim already held and a lost one. A move is any other verb's write. */
  function Next(cfg: Config, w: World, ev: Event): World {
    match ev
    case Look(pid, actor) => w.(inFlight := w.inFlight[pid := Pending(actor, w.row)])
    case Write(pid, token, now) =>
      if pid !in w.inFlight then w
      else
        var p, rest := w.inFlight[pid], w.inFlight - {pid};
        if SlotOpen(cfg, p.seen, p.actor) && w.row.version == p.seen.version && IsClaimable(cfg, w.row.status) then
          World(Taken(w.row, p.actor, Stamp(now, token)), w.minted + {token}, rest, w.verdicts + [Won(p.actor)])
        else if ActorMatches(w.row.assignee, p.actor) && w.row.status == InProgress then
          w.(inFlight := rest, verdicts := w.verdicts + [Kept(p.actor)])
        else w.(inFlight := rest, verdicts := w.verdicts + [Lost(p.actor, w.row.assignee, w.row.status)])
    case Move(row) => w.(row := row, minted := w.minted + {row.version})
  }

  /** Every write mints a token that was never used on this row. */
  predicate FreshToken(w: World, ev: Event) {
    match ev
    case Look(_, _) => true
    case Write(_, token, _) => token !in w.minted
    case Move(row) => row.version !in w.minted
  }

  ghost predicate FreshRun(cfg: Config, w: World, evs: seq<Event>)
    decreases |evs|
  {
    evs == [] || (FreshToken(w, evs[0]) && FreshRun(cfg, Next(cfg, w, evs[0]), evs[1..]))
  }

  function Run(cfg: Config, w: World, evs: seq<Event>): World
    decreases |evs|
  {
    if evs == [] then w else Run(cfg, Next(cfg, w, evs[0]), evs[1..])
  }

  /** A version read earlier is the row's version only if the row has not been written since. */
  ghost predicate Inv(w: World) {
    && w.row.version in w.minted
    && (forall p :: p in w.inFlight ==> w.inFlight[p].seen.version in w.minted)
    && (forall p :: p in w.inFlight && w.inFlight[p].seen.version == w.row.version ==> w.inFlight[p].seen == w.row)
  }

  lemma {:induction false} RunKeeps(cfg: Config, w: World, evs: seq<Event>)
    requires Inv(w) && FreshRun(cfg, w, evs)
    ensures Inv(Run(cfg, w, evs))
    decreases |evs|
  {
    if evs != [] { RunKeeps(cfg, Next(cfg, w, evs[0]), evs[1..]); }
  }

  /** A claim is won on the row exactly as it was read: a slot that someone filled, or a
      status that moved, between the read and the write is never overwritten. The step is
      then the one the claim verb makes on the row as it stands. */
  lemma {:induction false} WinIsOnTheRowRead(cfg: Config, w: World, pid: Pid, token: int, now: int, st: State, id: Id)
    requires Inv(w) && pid in w.inFlight && token !in w.minted && id in st.g.rows && st.g.rows[id] == w.row
    ensures var next := Next(cfg, w, Write(pid, token, now));
            |next.verdicts| == |w.verdicts| + 1
    ensures var p, next := w.inFlight[pid], Next(cfg, w, Write(pid, token, now));
            var v, spec := next.verdicts[|w.verdicts|], ClaimRow(cfg, st, id, p.actor, Stamp(now, token));
            && (v.Won? ==> p.seen == w.row && spec.Ok? && spec.value.g.rows[id] == next.row)
            && (p.seen == w.row ==> (spec.Ok? <==> !v.Lost?) && (spec.Ok? ==> spec.value.g.rows[id] == next.row))
            && (v.Won? <==> next.row != w.row) && v.actor == p.actor
  {
  }

  predicate NoMoves(evs: seq<Event>) {
    forall i :: 0 <= i < |evs| ==> !evs[i].Move?
  }

  /** ONE WINNER UNTIL THE ROW MOVES. Once a row is won, no claim of any actor, read before
      or after, wins it again, and the row does not change, until some other verb moves it. */
  lemma {:induction false} WonOnce(cfg: Config, w: World, evs: seq<Event>)
    requires w.row.status == InProgress && NoMoves(evs)
    ensures Run(cfg, w, evs).row == w.row
    ensures w.verdicts <= Run(cfg, w, evs).verdicts
    ensures forall i :: |w.verdicts| <= i < |Run(cfg, w, evs).verdicts| ==>
              var v := Run(cfg, w, evs).verdicts[i];
              && !v.Won? && (v.Kept? ==> ActorMatches(w.row.assignee, v.actor))
              && (v.Lost? ==> v.holder == w.row.assignee && v.status == InProgress)
              && (v.Lost? ==> !ActorMatches(w.row.assignee, v.actor))
    decreases |evs|
  {
    if evs != [] {
      var next := Next(cfg, w, evs[0]);
      assert !evs[0].Move?;
      assert next.row == w.row && w.verdicts <= next.verdicts;
      forall i | 0 <= i < |evs[1..]| ensures !evs[1..][i].Move? { assert evs[1..][i] == evs[i + 1]; }
      WonOnce(cfg, next, evs[1..]);
      var end := Run(cfg, next, evs[1..]);
      assert forall i :: |w.verdicts| <= i < |next.verdicts| ==> end.verdicts[i] == next.verdicts[i];
    }
  }

  // ---------------------------------------------------------------- claim next

  /** The first row of the ready order that can be claimed, and nothing only if none can. */
  method ClaimNext(store: IssueStore, cfg: Config, ready: seq<Id>, actor: string, at: Stamp) returns (won: Option<Id>)
    requires store.Valid() && forall i :: 0 <= i < |ready| ==> ready[i] in store.rows
    modifies store
    ensures store.Valid()
    ensures won.None? ==> store.View() == old(store.View())
    ensures won.None? ==> forall i :: 0 <= i < |ready| ==>
            ClaimRow(cfg, old(store.View()), ready[i], actor, at).Refused?
    ensures won.Some? ==>
              exists i :: && 0 <= i < |ready| && won.value == ready[i]
                          && ClaimRow(cfg, old(store.View()), ready[i], actor, at) == Ok(store.View())
                          && forall j :: 0 <= j < i ==> ClaimRow(cfg, old(store.View()), ready[j], actor, at).Refused?
  {
    var i := 0;
    while i < |ready|
      invariant 0 <= i <= |ready| && store.Valid() && store.View() == old(store.View())
      invariant forall j :: 0 <= j < i ==> ClaimRow(cfg, old(store.View()), ready[j], actor, at).Refused?
    {
      var refusal := store.ClaimRow(cfg, ready[i], actor, at);
      if refusal.None? { return Some(ready[i]); }
      i := i + 1;
    }
    return None;
  }

  /** A batch close with its coupled claim: the claim runs after the closes, on the state
      they left, and only if one of them landed. */
  method CloseBatchThenClaim(store: IssueStore, cfg: Config, closes: seq<CloseReq>, ats: seq<Stamp>,
                             order: State -> seq<Id>, actor: string, at: Stamp)
      returns (refusals: seq<Option<Refusal>>, won: Option<Id>)
    requires store.Valid() && |ats| == |closes|
    requires forall st: State, i :: 0 <= i < |order(st)| ==> order(st)[i] in st.g.rows
    modifies store
    ensures store.Valid() && refusals == CloseRefusals(old(store.View()), closes, ats)
    ensures var closed := CloseAll(old(store.View()), closes, ats);
            && (won.None? ==> store.View() == closed)
            && (won.Some? ==> Landed(old(store.View()), closes, ats))
            && (Landed(old(store.View()), closes, ats) && won.None? ==>
                forall i :: 0 <= i < |order(closed)| ==> ClaimRow(cfg, closed, order(closed)[i], actor, at).Refused?)
    ensures var closed := CloseAll(old(store.View()), closes, ats);
            won.Some? ==>
              exists i :: && 0 <= i < |order(closed)| && won.value == order(closed)[i]
                          && ClaimRow(cfg, closed, order(closed)[i], actor, at) == Ok(store.View())
                          && forall j :: 0 <= j < i ==> ClaimRow(cfg, closed, order(closed)[j], actor, at).Refused?
  {
    var before := store.View();
    refusals := store.CloseBatch(closes, ats);
    ChangedWhenLanded(before, closes, ats);
    won := None;
    if store.View() != before {
      won := ClaimNext(store, cfg, order(store.View()), actor, at);
    }
  }

  // ---------------------------------------------------------------- release

  /** An unforced release lands exactly when the claim is there and the actor, or the holder
      it names, is the holder up to separator runs. */
  lemma {:induction false} ReleaseNeedsTheHolder(st: State, id: Id, actor: string, expected: Option<string>, at: Stamp)
    requires id in st.g.rows && actor != "" && id != "" && expected != Some("")
    ensures Release(st, id, actor, expected, false, at).Ok? <==>
            var row := st.g.rows[id];
            && (row.status == Open || row.status == InProgress) && row.assignee != ""
            && ActorMatches(row.assignee, if expected.Some? then expected.value else actor)
  {
    if expected.Some? && ActorMatches("", expected.value) { EmptyMatchesOnlyEmpty(expected.value); }
  }

  lemma {:induction false} EmptyMatchesOnlyEmpty(a: string)
    requires ActorMatches("", a)
    ensures a == ""
  {
  }

  /** Claim and release are inverse on the row up to its stamps, for every spelling of the
      same holder, and leave the row claimable by anyone again. */
  lemma {:induction false} ClaimThenRelease(cfg: Config, st: State, id: Id, actor: string, spelling: string,
                                            other: string, at: Stamp, later: Stamp)
    requires id in st.g.rows && id != "" && actor != "" && spelling != "" && ActorMatches(actor, spelling)
    requires ClaimRow(cfg, st, id, actor, at).Ok? && st.g.rows[id].status != InProgress
    ensures var held := ClaimRow(cfg, st, id, actor, at).value;
            var out := Release(held, id, spelling, None, false, later);
            && out.Ok?
            && out.value.g.rows[id] == Stamped(st.g.rows[id], later).(assignee := "", status := Open)
            && ClaimRow(cfg, out.value, id, other, later).Ok?
            && (other != "" && !ActorMatches(actor, other) ==>
                 Release(held, id, other, None, false, later) == Refused(NotOwner))
  {
  }
}
