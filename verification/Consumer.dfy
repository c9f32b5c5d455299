/** A consumer of the journal under any interleaving of appends, prunes and polls. */
module Consumer {

  import opened Journal

  /** What the consumer wrote down: a record it processed, or a window it was told is gone. */
  datatype Note = Got(number: int, entry: Entry) | Missed(after: int, floor: int)

  /** The feed, every entry ever appended, and the consumer's checkpoint and notes. */
  datatype World = World(feed: Feed, history: seq<Entry>, checkpoint: int, notes: seq<Note>)

  datatype Event = Appended(entry: Entry) | Lost(numbers: set<int>) | Polled(limit: int)

  function Notes(rows: seq<(int, Entry)>): (notes: seq<Note>)
    ensures |notes| == |rows| && forall i :: 0 <= i < |rows| ==> notes[i] == Got(rows[i].0, rows[i].1)
  {
    if rows == [] then [] else [Got(rows[0].0, rows[0].1)] + Notes(rows[1..])
  }

  /** A page is processed whole; a window that begins at the checkpoint is written down and
      skipped; a window further on is left for a later poll with a smaller limit. */
  function Poll(w: World, limit: int): World {
    match ReadPage(w.feed, w.checkpoint, limit)
    case Page(rows, _) => w.(checkpoint := w.checkpoint + |rows|, notes := w.notes + Notes(rows))
    case Truncated(since, floor, _) =>
      if since == w.checkpoint then w.(checkpoint := floor - 1, notes := w.notes + [Missed(since, floor)]) else w
  }

  /** Lost covers the store's prefix prunes and every worse accident to the table. */
  function Next(w: World, ev: Event): World {
    match ev
    case Appended(e) => w.(feed := Append(w.feed, e), history := w.history + [e])
    case Lost(xs) => w.(feed := w.feed.(rows := w.feed.rows - xs))
    case Polled(limit) => Poll(w, limit)
  }

  function Run(w: World, evs: seq<Event>): World
    decreases |evs|
  {
    if evs == [] then w else Run(Next(w, evs[0]), evs[1..])
  }

  // ---------------------------------------------------------------- accounting

  /** The notes account for every number in (from, to], each exactly once and in commit
      order, and each processed record is the one that was committed. */
  ghost predicate Accounts(history: seq<Entry>, notes: seq<Note>, from: int, to: int)
    decreases |notes|
  {
    if notes == [] then from == to
    else match notes[0]
      case Got(s, e) => s == from + 1 && 1 <= s <= |history| && e == history[s - 1] &&
          Accounts(history, notes[1..], s, to)
      case Missed(a, f) => a == from && from < f - 1 && Accounts(history, notes[1..], f - 1, to)
  }

  /** No number the consumer was told is gone is still there. */
  ghost predicate TrulyGone(feed: Feed, notes: seq<Note>) {
    forall i :: 0 <= i < |notes| ==> Gone(feed, notes[i])
  }

  ghost predicate Gone(feed: Feed, n: Note) {
    n.Missed? ==> n.floor <= feed.head + 1 && Bare(feed, n.after, n.floor)
  }

  ghost predicate Inv(w: World) {
    && Valid(w.feed) && |w.history| == w.feed.head
    && (forall s :: s in w.feed.rows ==> w.feed.rows[s] == w.history[s - 1])
    && 0 <= w.checkpoint <= w.feed.head
    && Accounts(w.history, w.notes, 0, w.checkpoint) && TrulyGone(w.feed, w.notes)
  }

  lemma {:induction false} AccountsJoin(history: seq<Entry>, a: seq<Note>, b: seq<Note>, from: int, mid: int, to: int)
    requires Accounts(history, a, from, mid) && Accounts(history, b, mid, to)
    ensures Accounts(history, a + b, from, to)
    decreases |a|
  {
    if a == [] {
      assert a + b == b;
    } else {
      assert (a + b)[0] == a[0] && (a + b)[1..] == a[1..] + b;
      match a[0]
      case Got(s, _) => AccountsJoin(history, a[1..], b, s, mid, to);
      case Missed(_, f) => AccountsJoin(history, a[1..], b, f - 1, mid, to);
    }
  }

  lemma {:induction false} AccountsGrows(history: seq<Entry>, e: Entry, notes: seq<Note>, from: int, to: int)
    requires Accounts(history, notes, from, to)
    ensures Accounts(history + [e], notes, from, to)
    decreases |notes|
  {
    if notes != [] {
      match notes[0]
      case Got(s, _) => AccountsGrows(history, e, notes[1..], s, to);
      case Missed(_, f) => AccountsGrows(history, e, notes[1..], f - 1, to);
    }
  }

  lemma {:induction false} PageAccounts(w: World, from: int, rows: seq<(int, Entry)>)
    requires Inv(w) && Continues(w.feed, from, rows) && 0 <= from
    ensures Accounts(w.history, Notes(rows), from, from + |rows|)
    decreases |rows|
  {
    if rows != [] {
      assert Continues(w.feed, from + 1, rows[1..]) by {
        forall i | 0 <= i < |rows[1..]| ensures rows[1..][i].0 == from + 2 + i && rows[1..][i].0 in w.feed.rows &&
            rows[1..][i].1 == w.feed.rows[rows[1..][i].0] {
          assert rows[1..][i] == rows[i + 1];
        }
      }
      PageAccounts(w, from + 1, rows[1..]);
      assert Notes(rows)[1..] == Notes(rows[1..]);
    }
  }

  lemma {:induction false} GoneJoin(feed: Feed, a: seq<Note>, b: seq<Note>)
    requires TrulyGone(feed, a) && TrulyGone(feed, b)
    ensures TrulyGone(feed, a + b)
  {
    var all := a + b;
    forall i | 0 <= i < |all| ensures Gone(feed, all[i]) {
      if i < |a| { assert all[i] == a[i]; } else { assert all[i] == b[i - |a|]; }
    }
  }

  lemma {:induction false} PageKeeps(w: World, rows: seq<(int, Entry)>)
    requires Inv(w) && Continues(w.feed, w.checkpoint, rows) && w.checkpoint + |rows| <= w.feed.head
    ensures Inv(w.(checkpoint := w.checkpoint + |rows|, notes := w.notes + Notes(rows)))
  {
    PageAccounts(w, w.checkpoint, rows);
    AccountsJoin(w.history, w.notes, Notes(rows), 0, w.checkpoint, w.checkpoint + |rows|);
    GoneJoin(w.feed, w.notes, Notes(rows));
  }

  lemma {:induction false} MissKeeps(w: World, floor: int)
    requires Inv(w) && w.checkpoint < floor - 1 <= w.feed.head && Bare(w.feed, w.checkpoint, floor)
    ensures Inv(w.(checkpoint := floor - 1, notes := w.notes + [Missed(w.checkpoint, floor)]))
  {
    var note := Missed(w.checkpoint, floor);
    assert [note][1..] == [] && Accounts(w.history, [], floor - 1, floor - 1);
    AccountsJoin(w.history, w.notes, [note], 0, w.checkpoint, floor - 1);
    assert Gone(w.feed, note);
    GoneJoin(w.feed, w.notes, [note]);
  }

  lemma {:induction false} PollKeeps(w: World, limit: int)
    requires Inv(w)
    ensures Inv(Poll(w, limit)) && Poll(w, limit).checkpoint >= w.checkpoint
  {
    match ReadPage(w.feed, w.checkpoint, limit)
    case Page(rows, _) =>
      PageIsContinuation(w.feed, w.checkpoint, limit);
      PageKeeps(w, rows);
    case Truncated(since, floor, _) =>
      TruncationIsGap(w.feed, w.checkpoint, limit);
      if since == w.checkpoint { MissKeeps(w, floor); }
  }

  /** A number that is gone stays gone. */
  lemma {:induction false} GoneStays(feed: Feed, later: Feed, notes: seq<Note>)
    requires TrulyGone(feed, notes) && feed.head <= later.head
    requires forall s :: s <= feed.head && s in later.rows ==> s in feed.rows
    ensures TrulyGone(later, notes)
  {
    forall i | 0 <= i < |notes| ensures Gone(later, notes[i]) { assert Gone(feed, notes[i]); }
  }

  lemma {:induction false} AppendKeeps(w: World, e: Entry)
    requires Inv(w)
    ensures Inv(w.(feed := Append(w.feed, e), history := w.history + [e]))
  {
    var feed, history := Append(w.feed, e), w.history + [e];
    AccountsGrows(w.history, e, w.notes, 0, w.checkpoint);
    forall s | s in feed.rows ensures 1 <= s <= feed.head && feed.rows[s] == history[s - 1] { }
    GoneStays(w.feed, feed, w.notes);
  }

  lemma {:induction false} LossKeeps(w: World, xs: set<int>)
    requires Inv(w)
    ensures Inv(w.(feed := w.feed.(rows := w.feed.rows - xs)))
  {
    var feed := w.feed.(rows := w.feed.rows - xs);
    forall s | s in feed.rows ensures s in w.feed.rows && feed.rows[s] == w.feed.rows[s] { }
    GoneStays(w.feed, feed, w.notes);
  }

  lemma {:induction false} NextKeeps(w: World, ev: Event)
    requires Inv(w)
    ensures Inv(Next(w, ev)) && Next(w, ev).feed.head >= w.feed.head && Next(w, ev).checkpoint >= w.checkpoint
  {
    match ev
    case Appended(e) => AppendKeeps(w, e);
    case Lost(xs) => LossKeeps(w, xs);
    case Polled(limit) => PollKeeps(w, limit);
  }

  /** NO SILENT LOSS. Under any interleaving of appends, losses and polls, the consumer's
      notes account for every number up to its checkpoint exactly once and in commit order:
      processed as committed, or inside a window it was handed, every number of which really
      is gone. Head and checkpoint never fall. */
  lemma {:induction false} NoSilentLoss(w: World, evs: seq<Event>)
    requires Inv(w)
    ensures Inv(Run(w, evs)) && Run(w, evs).feed.head >= w.feed.head && Run(w, evs).checkpoint >= w.checkpoint
    decreases |evs|
  {
    if evs != [] {
      NextKeeps(w, evs[0]);
      NoSilentLoss(Next(w, evs[0]), evs[1..]);
    }
  }

  /** A poll that is behind makes progress, or names the limit that will: a window further
      on than the checkpoint says how many rows can still be served before it, and polling
      for just those lands on it. */
  lemma {:induction false} PollProgresses(w: World, limit: int)
    requires Inv(w) && w.checkpoint < w.feed.head
    ensures var r := ReadPage(w.feed, w.checkpoint, limit);
            if r.Truncated? && r.since > w.checkpoint
            then Poll(w, r.since - w.checkpoint).checkpoint == r.since
            else Poll(w, limit).checkpoint > w.checkpoint
  {
    match ReadPage(w.feed, w.checkpoint, limit)
    case Page(rows, _) => PageIsContinuation(w.feed, w.checkpoint, limit);
    case Truncated(since, floor, _) =>
      TruncationIsGap(w.feed, w.checkpoint, limit);
      if since > w.checkpoint { DrainReads(w.feed, w.checkpoint, since); }
  }
}
