/** What the verbs on one row do, read off the request and the stored row: every guard in its
    order, and every column of the row that is left. */
module RowVerbs {

  import opened Digraph
  import opened IssueGraph
  import opened Affected
  import opened Edits
  import opened Settlement
  import opened Flags
  import opened Identity
  import opened Results
  import opened Verbs
  import opened Endings
  import opened Reading

  // ---------------------------------------------------------------- vocabulary

  /** Only the row at id differs. */
  ghost predicate OnlyRow(st: State, out: State, id: Id) {
    && out.g.edges == st.g.edges && out.g.rows.Keys == st.g.rows.Keys
    && (forall x :: x in st.g.rows && x != id ==> out.g.rows[x] == st.g.rows[x])
  }

  /** The columns a status write leaves alone. */
  ghost predicate SameButStatus(a: Row, b: Row) {
    a.plane == b.plane && a.title == b.title && a.assignee == b.assignee && a.metadata == b.metadata
  }

  ghost predicate StampedWith(row: Row, at: Stamp) {
    row.updatedAt == at.now && row.version == at.version
  }

  ghost predicate Finished(cfg: Config, s: Status) {
    s == Closed || (exists name :: s == Custom(name) && name in cfg.custom && cfg.custom[name] == Done)
  }

  /** A child that is not closed. */
  ghost predicate HasOpenChild(g: Graph, id: Id) {
    exists c :: Stored(g, c, id, {ParentChild}) && c in g.rows && g.rows[c].status != Closed
  }

  /** A blocking or waits-for edge onto a row that is neither closed nor pinned. */
  ghost predicate HoldsUp(g: Graph, id: Id, t: Id) {
    (id, t) in g.edges && g.edges[(id, t)].kind in {Blocks, ConditionalBlocks, WaitsFor} && Alive(g, t)
  }

  /** Not closed, flagged, and held up by such a row. */
  ghost predicate HeldUp(st: State, id: Id) {
    && id in st.g.rows && st.g.rows[id].status != Closed && id in st.blocked
    && exists t :: HoldsUp(st.g, id, t)
  }

  lemma {:induction false} PolicyIs(st: State, id: Id)
    requires WellFormed(st.g) && id in st.g.rows
    ensures OpenChild(st.g, id) <==> HasOpenChild(st.g, id)
    ensures st.g.rows[id].status != Closed && id in st.blocked && LiveBlocker(st.g, id) <==> HeldUp(st, id)
  {
    forall c ensures Stored(st.g, c, id, {ParentChild}) <==> ChildOf(st.g, c, id) { StoredIs(st.g, c, id); }
    if LiveBlocker(st.g, id) {
      var t :| t in st.g.rows && (id, t) in st.g.edges && Live(st.g, t) &&
        (IsBlocking(st.g.edges[(id, t)].kind) || st.g.edges[(id, t)].kind == WaitsFor);
      assert HoldsUp(st.g, id, t);
    }
  }

  lemma {:induction false} FinishedIs(cfg: Config, s: Status)
    ensures Finished(cfg, s) <==> IsDone(cfg, s)
  {
  }

  // ---------------------------------------------------------------- close

  /** CLOSE, PLAINLY. */
  lemma {:induction false} ClosePlainly(st: State, r: CloseReq, at: Stamp)
    requires Sound(st)
    ensures var out := Close(st, r, at);
            if r.actor == "" || r.id == "" then out == Refused(Invalid)
            else if r.id !in st.g.rows then out == Refused(NotFound([r.id]))
            else if r.expected.Some? && r.expected.value != st.g.rows[r.id].version then out == Refused(VersionMismatch)
            else if !r.force && HasOpenChild(st.g, r.id) then out == Refused(CloseOpenChildren)
            else if !r.force && HeldUp(st, r.id) then out == Refused(CloseBlocked)
            else out.Ok? && OnlyRow(st, out.value, r.id)
    ensures Close(st, r, at).Ok? ==>
              var row, left := st.g.rows[r.id], Close(st, r, at).value.g.rows[r.id];
              && left.status == Closed && SameButStatus(row, left)
              && (if row.status == Closed then Close(st, r, at).value == st else StampedWith(left, at))
  {
    if r.id in st.g.rows {
      PolicyIs(st, r.id);
      SoundRowSettles(st, r.id, Stamped(st.g.rows[r.id], at).(status := Closed));
    }
  }

  /** A FORCED CLOSE ALWAYS LANDS on a row that is there and meets its version guard. */
  lemma {:induction false} ForcedCloseLands(st: State, r: CloseReq, at: Stamp)
    requires Sound(st) && r.force && r.actor != "" && r.id != "" && r.id in st.g.rows
    requires r.expected == None || r.expected == Some(st.g.rows[r.id].version)
    ensures Close(st, r, at).Ok? && Close(st, r, at).value.g.rows[r.id].status == Closed
    ensures OnlyRow(st, Close(st, r, at).value, r.id)
  {
    ClosePlainly(st, r, at);
  }

  // ---------------------------------------------------------------- reopen, claim, release

  /** REOPEN, PLAINLY: a finished row becomes open, any other is left alone. */
  lemma {:induction false} ReopenPlainly(cfg: Config, st: State, id: Id, actor: string, expected: Option<int>,
                                         at: Stamp)
    requires Sound(st)
    ensures var out := Reopen(cfg, st, id, actor, expected, at);
            if actor == "" || id == "" then out == Refused(Invalid)
            else if id !in st.g.rows then out == Refused(NotFound([id]))
            else if expected.Some? && expected.value != st.g.rows[id].version then out == Refused(VersionMismatch)
            else if !Finished(cfg, st.g.rows[id].status) then out == Ok(st)
            else && out.Ok? && OnlyRow(st, out.value, id) && out.value.g.rows[id].status == Open
                 && SameButStatus(st.g.rows[id], out.value.g.rows[id]) && StampedWith(out.value.g.rows[id], at)
  {
    if id in st.g.rows {
      FinishedIs(cfg, st.g.rows[id].status);
      SoundRowSettles(st, id, Stamped(st.g.rows[id], at).(status := Open));
    }
  }

  ghost predicate MayTake(cfg: Config, row: Row, actor: string) {
    row.assignee == "" || SameActor(row.assignee, actor) || row.assignee in cfg.pools
  }

  ghost predicate Startable(cfg: Config, s: Status) {
    s == Open || (exists name :: s == Custom(name) && name in cfg.custom && cfg.custom[name] == Category.Active)
  }

  /** CLAIM, PLAINLY: durable rows only; a free slot on a claimable row is taken, a claim
      already held is kept, and anything else names who or what stands in the way. */
  lemma {:induction false} ClaimPlainly(cfg: Config, st: State, id: Id, actor: string, at: Stamp)
    ensures var out := Claim(cfg, st, id, actor, at);
            if actor == "" || id == "" then out == Refused(Invalid)
            else if id !in st.g.rows || st.g.rows[id].plane != Issues then out == Refused(NotFound([id]))
            else
              var row := st.g.rows[id];
              if MayTake(cfg, row, actor) && Startable(cfg, row.status) then
                && out.Ok? && OnlyRow(st, out.value, id) && out.value.blocked == st.blocked
                && var left := out.value.g.rows[id];
                   && left.status == InProgress && left.assignee == actor && StampedWith(left, at)
                   && left.plane == row.plane && left.title == row.title && left.metadata == row.metadata
              else if row.status == InProgress && SameActor(row.assignee, actor) then out == Ok(st)
              else out == Refused(if MayTake(cfg, row, actor) then NotClaimable else AlreadyClaimed)
  {
    if id in st.g.rows { MatchIsSameActor(st.g.rows[id].assignee, actor); }
  }

  /** RELEASE, PLAINLY: force stands in for ownership and for nothing else. */
  lemma {:induction false} ReleasePlainly(st: State, id: Id, actor: string, expected: Option<string>, force: bool,
                                          at: Stamp)
    ensures var out := Release(st, id, actor, expected, force, at);
            if actor == "" || id == "" || expected == Some("") || (expected.Some? && force) then out == Refused(Invalid)
            else if id !in st.g.rows then out == Refused(NotFound([id]))
            else
              var row := st.g.rows[id];
              if row.status !in {Open, InProgress} then out == Refused(NotReleasable)
              else if expected.Some? && !SameActor(row.assignee, expected.value) then out == Refused(AssigneeMismatch)
              else if expected.None? && row.assignee == "" then out == Refused(NotClaimed)
              else if expected.None? && !force && !SameActor(row.assignee, actor) then out == Refused(NotOwner)
              else
                && out.Ok? && OnlyRow(st, out.value, id) && out.value.blocked == st.blocked
                && var left := out.value.g.rows[id];
                   && left.status == Open && left.assignee == "" && StampedWith(left, at)
                   && left.plane == row.plane && left.title == row.title && left.metadata == row.metadata
  {
    if id in st.g.rows {
      MatchIsSameActor(st.g.rows[id].assignee, actor);
      if expected.Some? { MatchIsSameActor(st.g.rows[id].assignee, expected.value); }
    }
  }

  // ---------------------------------------------------------------- update

  /** By its code: an upper-case letter, a lower-case one or the underscore. */
  ghost predicate IsWordCode(n: int) {
    65 <= n <= 90 || 97 <= n <= 122 || n == 95
  }

  /** A letter or underscore, then these, and dots, slashes and digits, which are 46 to 57. */
  ghost predicate IsKey(k: string) {
    k != "" && IsWordCode(k[0] as int) && forall i :: 0 <= i < |k| ==>
        IsWordCode(k[i] as int) || 46 <= k[i] as int <= 57
  }

  /** The patch would change some column. */
  ghost predicate Alters(row: Row, p: Patch) {
    || (p.title.Some? && p.title.value != row.title) || (p.status.Some? && p.status.value != row.status)
    || (p.assignee.Some? && p.assignee.value != row.assignee)
    || (exists k :: k in p.unset && k in row.metadata)
    || (exists k :: k in p.put && k !in p.unset && !(k in row.metadata && row.metadata[k] == p.put[k]))
  }

  /** Row left is row with the patch: a given column is the given one, any other as it was; an
      unset key is gone, a put one holds what was put, any other as it was. */
  ghost predicate Applies(row: Row, p: Patch, left: Row) {
    && left.plane == row.plane
    && left.title == (if p.title.Some? then p.title.value else row.title)
    && left.status == (if p.status.Some? then p.status.value else row.status)
    && left.assignee == (if p.assignee.Some? then p.assignee.value else row.assignee)
    && (forall k :: k in left.metadata <==> k !in p.unset && (k in p.put || k in row.metadata))
    && (forall k :: k in left.metadata ==> left.metadata[k] == if k in p.put then p.put[k] else row.metadata[k])
  }

  /** A claim in progress is not handed to another without its holder's word. */
  ghost predicate Handover(cfg: Config, row: Row, r: UpdateReq) {
    && row.status == InProgress && row.assignee != "" && row.assignee !in cfg.pools
    && r.patch.assignee.Some? && !SameActor(row.assignee, r.patch.assignee.value)
    && !SameActor(row.assignee, r.actor) && r.expectAssignee.None? && !r.forceTransfer
  }

  lemma {:induction false} KeyIs(k: string)
    ensures IsKey(k) <==> ValidKey(k)
  {
    forall c: char ensures IsWordCode(c as int) <==> IsLetter(c) { }
    if IsKey(k) {
      forall c | c in k ensures IsLetter(c) || '0' <= c <= '9' || c == '.' || c == '/' { }
    } else if ValidKey(k) {
      forall i | 0 <= i < |k| ensures IsWordCode(k[i] as int) || 46 <= k[i] as int <= 57 { assert k[i] in k; }
    }
  }

  lemma {:induction false} PatchIs(row: Row, p: Patch)
    ensures Applies(row, p, Patched(row, p)) && (Patched(row, p) != row <==> Alters(row, p))
  {
    if !Alters(row, p) { assert Patched(row, p).metadata == row.metadata; }
  }

  lemma {:induction false} HandoverIs(cfg: Config, row: Row, r: UpdateReq)
    ensures Handover(cfg, row, r) <==> !MayTransfer(cfg, row, r)
  {
    MatchIsSameActor(row.assignee, r.actor);
    if r.patch.assignee.Some? { MatchIsSameActor(r.patch.assignee.value, row.assignee); }
  }

  /** What stands in the way of an update, in the order it is asked. */
  ghost function Obstacle(cfg: Config, st: State, r: UpdateReq): Option<Refusal>
    requires r.id in st.g.rows
  {
    var row := st.g.rows[r.id];
    if r.expected.Some? && r.expected.value != row.version then Some(VersionMismatch)
    else if r.expectAssignee.Some? && !SameActor(row.assignee, r.expectAssignee.value) then Some(AssigneeMismatch)
    else if r.expectStatus.Some? && r.expectStatus.value != row.status then Some(StatusMismatch)
    else if Handover(cfg, row, r) then Some(AlreadyClaimed)
    else if exists k :: (k in r.patch.put || k in r.patch.unset) && !IsKey(k) then Some(Invalid)
    else if !Crosses(cfg, row, r.patch) || r.forceClose then None
    else if HasOpenChild(st.g, r.id) then Some(CloseOpenChildren)
    else if HeldUp(st, r.id) then Some(CloseBlocked)
    else None
  }

  /** The request says nothing, or asks for a transfer it does not name. */
  ghost predicate Malformed(r: UpdateReq) {
    r.actor == "" || r.id == "" || (r.forceTransfer && (r.patch.assignee.None? || r.expectAssignee.Some?))
  }

  /** The patch takes a row that was not finished to a status that is. */
  ghost predicate Crosses(cfg: Config, row: Row, p: Patch) {
    p.status.Some? && Finished(cfg, p.status.value) && !Finished(cfg, row.status)
  }

  /** UPDATE, PLAINLY: refused for the first thing that stands in its way; otherwise only the
      one row moves, to the patch, and is stamped exactly if a column changes. */
  lemma {:induction false} UpdatePlainly(cfg: Config, st: State, r: UpdateReq, at: Stamp)
    requires Sound(st)
    ensures var out := Update(cfg, st, r, at);
            if Malformed(r) then out == Refused(Invalid)
            else if r.id !in st.g.rows then out == Refused(NotFound([r.id]))
            else if Obstacle(cfg, st, r).Some? then out == Refused(Obstacle(cfg, st, r).value)
            else && out.Ok? && OnlyRow(st, out.value, r.id)
                 && Applies(st.g.rows[r.id], r.patch, out.value.g.rows[r.id])
                 && (if Alters(st.g.rows[r.id], r.patch) then StampedWith(out.value.g.rows[r.id], at)
                      else out.value == st)
  {
    if r.id in st.g.rows && !Malformed(r) {
      ObstacleIs(cfg, st, r);
      if Obstacle(cfg, st, r).None? { UpdateLands(cfg, st, r, at); }
    }
  }

  lemma {:induction false} UpdateLands(cfg: Config, st: State, r: UpdateReq, at: Stamp)
    requires Sound(st) && r.id in st.g.rows && !Malformed(r) && UpdateGuard(cfg, st, r).None?
    ensures var out := Update(cfg, st, r, at);
            && out.Ok? && OnlyRow(st, out.value, r.id)
            && Applies(st.g.rows[r.id], r.patch, out.value.g.rows[r.id])
            && (if Alters(st.g.rows[r.id], r.patch) then StampedWith(out.value.g.rows[r.id], at)
                 else out.value == st)
  {
    PatchIs(st.g.rows[r.id], r.patch);
    SoundRowSettles(st, r.id, Stamped(Patched(st.g.rows[r.id], r.patch), at));
  }

  lemma {:induction false} ObstacleIs(cfg: Config, st: State, r: UpdateReq)
    requires WellFormed(st.g) && r.id in st.g.rows && !Malformed(r)
    ensures UpdateGuard(cfg, st, r) == Obstacle(cfg, st, r)
  {
    UpdateFacts(cfg, st, r);
  }

  lemma {:induction false} UpdateFacts(cfg: Config, st: State, r: UpdateReq)
    requires WellFormed(st.g) && r.id in st.g.rows
    ensures var row := st.g.rows[r.id];
            && (Handover(cfg, row, r) <==> !MayTransfer(cfg, row, r))
            && Applies(row, r.patch, Patched(row, r.patch)) && (Patched(row, r.patch) != row <==> Alters(row, r.patch))
            && (r.expectAssignee.Some? ==>
                 (ActorMatches(row.assignee, r.expectAssignee.value) <==>
                     SameActor(row.assignee, r.expectAssignee.value)))
            && (BadKeys(r.patch) <==> exists k :: (k in r.patch.put || k in r.patch.unset) && !IsKey(k))
            && (Crosses(cfg, row, r.patch) <==> IsDone(cfg, Patched(row, r.patch).status) && !IsDone(cfg, row.status))
            && (OpenChild(st.g, r.id) <==> HasOpenChild(st.g, r.id))
            && (row.status != Closed && r.id in st.blocked && LiveBlocker(st.g, r.id) <==> HeldUp(st, r.id))
  {
    var row := st.g.rows[r.id];
    HandoverIs(cfg, row, r);
    PatchIs(row, r.patch);
    PolicyIs(st, r.id);
    FinishedIs(cfg, row.status);
    if r.patch.status.Some? { FinishedIs(cfg, r.patch.status.value); }
    if r.expectAssignee.Some? { MatchIsSameActor(row.assignee, r.expectAssignee.value); }
    forall k ensures IsKey(k) <==> ValidKey(k) { KeyIs(k); }
  }
}
