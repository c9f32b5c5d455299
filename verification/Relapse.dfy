/** A consumer of a journal whose counter may be put back: restored, edited, or copied from
    another workspace. Numbers are drawn wherever they are free, so one can fall behind the
    consumer or be given out twice; this module says exactly which entries it then misses
    without being told. */
module Relapse {

  import opened Journal
  import opened Results
  import Consumer

  /** An entry as filed: its number, and whether the consumer had passed that number by then. */
  datatype Filed = Filed(number: int, entry: Entry, late: bool)

  /** A window the consumer was told is gone, and how many entries had been filed by then. */
  datatype Note = Note(after: int, floor: int, filed: nat)

  /** The counter, the table, which filing each retained number belongs to, everything ever
      filed, and the consumer's checkpoint, filings processed and notes. */
  datatype World = World(counter: int, feed: Feed, owner: map<int, nat>, log: seq<Filed>,
                         checkpoint: int, processed: set<nat>, notes: seq<Note>)

  datatype Event = File(number: int,
                        entry: Entry) | Restored(counter: int) | Lost(numbers: set<int>) | Polled(limit: int)

  /** The rows decide; the counter speaks only when there are none. */
  function ReadAt(feed: Feed, counter: int, since: int, limit: int): Read {
    Verdict(since, RowsAfter(feed, since, Cap(feed, limit)), counter)
  }

  function Owners(owner: map<int, nat>, a: int, b: int): set<nat> {
    set n | n in owner && a < n <= b :: owner[n]
  }

  function Poll(w: World, limit: int): World {
    match ReadAt(w.feed, w.counter, w.checkpoint, limit)
    case Page(rows, _) =>
      w.(checkpoint := w.checkpoint + |rows|,
         processed := w.processed + Owners(w.owner, w.checkpoint, w.checkpoint + |rows|))
    case Truncated(since, floor, _) =>
      if since != w.checkpoint then w
      else w.(checkpoint := floor - 1, notes := w.notes + [Note(since, floor, |w.log|)])
  }

  /** An entry is filed under a number that is free; the table's bound follows its rows. */
  function Entered(w: World, number: int, e: Entry): World {
    if number <= 0 || number in w.feed.rows then w
    else
      w.(counter := number,
         feed := Feed(if number > w.feed.head then number else w.feed.head, w.feed.rows[number := e]),
         owner := w.owner[number := |w.log|],
         log := w.log + [Filed(number, e, number <= w.checkpoint)])
  }

  function Next(w: World, ev: Event): World {
    match ev
    case File(number, e) => Entered(w, number, e)
    case Restored(c) => w.(counter := c)
    case Lost(xs) => w.(feed := w.feed.(rows := w.feed.rows - xs), owner := w.owner - xs)
    case Polled(limit) => Poll(w, limit)
  }

  function Run(w: World, evs: seq<Event>): World
    decreases |evs|
  {
    if evs == [] then w else Run(Next(w, evs[0]), evs[1..])
  }

  // ---------------------------------------------------------------- accounting

  /** A window handed over after the filing holds its number. */
  ghost predicate Told(w: World, i: nat)
    requires i < |w.log|
  {
    exists k :: 0 <= k < |w.notes| && w.notes[k].filed > i && w.notes[k].after < w.log[i].number < w.notes[k].floor
  }

  /** Its number was given out again while the consumer was still short of it. */
  ghost predicate Masked(w: World, i: nat)
    requires i < |w.log|
  {
    exists j :: i < j < |w.log| && w.log[j].number == w.log[i].number && !w.log[j].late
  }

  ghost predicate Accounted(w: World, i: nat)
    requires i < |w.log|
  {
    var n := w.log[i].number;
    if w.log[i].late then n <= w.checkpoint && i !in w.processed && !Told(w, i)
    else if n <= w.checkpoint then i in w.processed || Told(w, i) || Masked(w, i)
    else i !in w.processed && (n in w.owner ==> w.owner[n] == i || Masked(w, i))
  }

  ghost predicate Tables(w: World) {
    && Valid(w.feed) && w.feed.rows.Keys == w.owner.Keys && (forall i :: i in w.processed ==> i < |w.log|)
    && (forall n :: n in w.owner ==> w.owner[n] < |w.log| && w.log[w.owner[n]].number == n &&
                                     w.log[w.owner[n]].entry == w.feed.rows[n])
    && (forall k :: 0 <= k < |w.notes| ==> w.notes[k].filed <= |w.log|)
  }

  ghost predicate Inv(w: World) {
    Tables(w) && forall i :: 0 <= i < |w.log| ==> Accounted(w, i)
  }

  lemma {:induction false} ReadFacts(feed: Feed, counter: int, since: int, limit: int)
    requires Valid(feed)
    ensures match ReadAt(feed, counter, since, limit)
            case Page(rows, _) => Continues(feed, since, rows)
            case Truncated(at, floor, _) => since <= at < floor - 1 && Bare(feed, at, floor)
  {
    var rows := RowsAfter(feed, since, Cap(feed, limit));
    if rows != [] {
      if ReadPage(feed, since, limit).Page? { PageIsContinuation(feed, since, limit); }
      else { TruncationIsGap(feed, since, limit); }
    } else {
      NothingAbove(feed, since, limit);
    }
  }

  lemma {:induction false} NothingAbove(feed: Feed, since: int, limit: int)
    requires Valid(feed) && RowsAfter(feed, since, Cap(feed, limit)) == []
    ensures forall s :: s > since ==> s !in feed.rows
  {
    RowsAfterListing(feed, since, Cap(feed, limit));
    if Cap(feed, limit) == 0 { assert feed.rows == map[]; }
  }

  lemma {:induction false} FileKeeps(w: World, number: int, e: Entry)
    requires Inv(w)
    ensures Inv(Entered(w, number, e))
  {
    var v, m := Entered(w, number, e), |w.log|;
    if v != w {
      forall i | 0 <= i < m ensures Accounted(v, i) {
        assert Accounted(w, i) && v.log[i] == w.log[i];
        assert Told(v, i) == Told(w, i);
        if Masked(w, i) { MaskedStays(w, v, i); }
        if v.log[i].number == number && number > w.checkpoint { assert v.log[m].number == number && !v.log[m].late; }
      }
      assert !Told(v, m);
    }
  }

  lemma {:induction false} MaskedStays(w: World, v: World, i: nat)
    requires i < |w.log| && w.log <= v.log && Masked(w, i)
    ensures Masked(v, i)
  {
    var j :| i < j < |w.log| && w.log[j].number == w.log[i].number && !w.log[j].late;
    assert v.log[j] == w.log[j];
  }

  lemma {:induction false} LossKeeps(w: World, xs: set<int>)
    requires Inv(w)
    ensures Inv(Next(w, Lost(xs)))
  {
    var v := Next(w, Lost(xs));
    forall i | 0 <= i < |w.log| ensures Accounted(v, i) {
      assert Accounted(w, i) && Told(v, i) == Told(w, i) && Masked(v, i) == Masked(w, i);
    }
  }

  lemma {:induction false} PageKeeps(w: World, rows: seq<(int, Entry)>)
    requires Inv(w) && Continues(w.feed, w.checkpoint, rows)
    ensures Inv(w.(checkpoint := w.checkpoint + |rows|,
                   processed := w.processed + Owners(w.owner, w.checkpoint, w.checkpoint + |rows|)))
  {
    var c, k := w.checkpoint, |rows|;
    var v := w.(checkpoint := c + k, processed := w.processed + Owners(w.owner, c, c + k));
    forall i | i in Owners(w.owner, c, c + k) ensures i < |w.log| && c < w.log[i].number <= c + k { }
    forall n | c < n <= c + k ensures n in w.owner { assert rows[n - c - 1].0 == n; }
    forall i | 0 <= i < |w.log| ensures Accounted(v, i) {
      assert Accounted(w, i) && Told(v, i) == Told(w, i) && Masked(v, i) == Masked(w, i);
      var n := w.log[i].number;
      if c < n <= c + k && w.owner[n] == i { assert i in Owners(w.owner, c, c + k); }
    }
  }

  lemma {:induction false} WindowKeeps(w: World, floor: int)
    requires Inv(w) && w.checkpoint < floor - 1 && Bare(w.feed, w.checkpoint, floor)
    ensures Inv(w.(checkpoint := floor - 1, notes := w.notes + [Note(w.checkpoint, floor, |w.log|)]))
  {
    var note := Note(w.checkpoint, floor, |w.log|);
    var v := w.(checkpoint := floor - 1, notes := w.notes + [note]);
    assert v.notes[|w.notes|] == note;
    forall i | 0 <= i < |w.log| ensures Accounted(v, i) {
      assert Accounted(w, i) && Masked(v, i) == Masked(w, i);
      ToldGrows(w, v, note, i);
    }
  }

  lemma {:induction false} ToldGrows(w: World, v: World, note: Note, i: nat)
    requires i < |w.log| && v.log == w.log && v.notes == w.notes + [note]
    ensures Told(v, i) <==> Told(w, i) || (note.filed > i && note.after < w.log[i].number < note.floor)
  {
    if Told(w, i) {
      var k :| 0 <= k < |w.notes| && w.notes[k].filed > i && w.notes[k].after < w.log[i].number < w.notes[k].floor;
      assert v.notes[k] == w.notes[k];
    }
    assert v.notes[|w.notes|] == note;
  }

  lemma {:induction false} NextKeeps(w: World, ev: Event)
    requires Inv(w)
    ensures Inv(Next(w, ev)) && Next(w, ev).checkpoint >= w.checkpoint
  {
    match ev
    case File(number, e) => FileKeeps(w, number, e);
    case Restored(c) =>
      forall i | 0 <= i < |w.log| ensures Accounted(Next(w, ev), i) {
        assert Accounted(w, i) && Told(Next(w, ev), i) == Told(w, i) && Masked(Next(w, ev), i) == Masked(w, i);
      }
    case Lost(xs) => LossKeeps(w, xs);
    case Polled(limit) =>
      ReadFacts(w.feed, w.counter, w.checkpoint, limit);
      match ReadAt(w.feed, w.counter, w.checkpoint, limit) {
        case Page(rows, _) => PageKeeps(w, rows);
        case Truncated(since, floor, _) => if since == w.checkpoint { WindowKeeps(w, floor); }
      }
  }

  lemma {:induction false} RunKeeps(w: World, evs: seq<Event>)
    requires Inv(w)
    ensures Inv(Run(w, evs))
    decreases |evs|
  {
    if evs != [] {
      NextKeeps(w, evs[0]);
      RunKeeps(Next(w, evs[0]), evs[1..]);
    }
  }

  /** The consumer has passed the entry, did not process it and was not told. */
  ghost predicate Silent(w: World, i: nat)
    requires i < |w.log|
  {
    w.log[i].number <= w.checkpoint && i !in w.processed && !Told(w, i)
  }

  const BEGINNING := World(0, Feed(0, map[]), map[], [], 0, {}, [])

  /** WHO IS MISSED IN SILENCE. Under any interleaving of filings under free numbers, losses,
      restores of the counter and polls: an entry filed at or below the consumer's checkpoint
      is missed in silence, for good; any other is so only if its row was lost and its number
      given out again before the consumer came to it. */
  lemma {:induction false} MissedInSilence(evs: seq<Event>, i: nat)
    requires i < |Run(BEGINNING, evs).log|
    ensures var w := Run(BEGINNING, evs);
            && (w.log[i].late ==> Silent(w, i))
            && (Silent(w, i) ==> w.log[i].late || Masked(w, i))
  {
    RunKeeps(BEGINNING, evs);
    assert Accounted(Run(BEGINNING, evs), i);
  }

  // ---------------------------------------------------------------- without a restore

  /** The event of an ordinary run: an entry is filed under the counter's next number. */
  function AsFiled(v: Consumer.World, ev: Consumer.Event): Event {
    match ev
    case Appended(e) => File(v.feed.head + 1, e)
    case Lost(xs) => Lost(xs)
    case Polled(limit) => Polled(limit)
  }

  function AllFiled(v: Consumer.World, evs: seq<Consumer.Event>): seq<Event>
    decreases |evs|
  {
    if evs == [] then [] else [AsFiled(v, evs[0])] + AllFiled(Consumer.Next(v, evs[0]), evs[1..])
  }

  predicate Noted(notes: seq<Note>, after: int, floor: int) {
    exists k :: 0 <= k < |notes| && notes[k].after == after && notes[k].floor == floor
  }

  /** The two tell one story: the same table, checkpoint and entries, the i-th under number
      i + 1, the same ones processed and the same windows handed over. */
  ghost predicate Mirrors(w: World, v: Consumer.World) {
    && w.feed == v.feed && w.counter == v.feed.head && w.checkpoint == v.checkpoint
    && |w.log| == |v.history| && (forall i :: 0 <= i < |w.log| ==> w.log[i] == Filed(i + 1, v.history[i], false))
    && (forall i :: 0 <= i < |w.log| ==> (i in w.processed <==> Consumer.Got(i + 1, v.history[i]) in v.notes))
    && (forall a, f :: Noted(w.notes, a, f) <==> Consumer.Missed(a, f) in v.notes)
  }

  lemma {:induction false} GotBelow(history: seq<Entry>, notes: seq<Consumer.Note>, from: int, to: int)
    requires Consumer.Accounts(history, notes, from, to)
    ensures from <= to && forall n :: n in notes && n.Got? ==> n.number <= to
    decreases |notes|
  {
    if notes != [] {
      assert notes == [notes[0]] + notes[1..];
      match notes[0]
      case Got(s, _) => GotBelow(history, notes[1..], s, to);
      case Missed(_, f) => GotBelow(history, notes[1..], f - 1, to);
    }
  }

  lemma {:induction false} NotedAlso(notes: seq<Note>, n: Note, after: int, floor: int)
    ensures Noted(notes + [n], after, floor) <==> Noted(notes, after, floor) || (n.after == after && n.floor == floor)
  {
    var more := notes + [n];
    assert more[|notes|] == n;
    if k :| 0 <= k < |notes| && notes[k].after == after && notes[k].floor == floor { assert more[k] == notes[k]; }
  }

  lemma {:induction false} PageMirrors(w: World, v: Consumer.World, rows: seq<(int, Entry)>)
    requires Inv(w) && Consumer.Inv(v) && Mirrors(w, v) && Continues(w.feed, w.checkpoint, rows)
    ensures Mirrors(w.(checkpoint := w.checkpoint + |rows|,
                       processed := w.processed + Owners(w.owner, w.checkpoint, w.checkpoint + |rows|)),
                    v.(checkpoint := v.checkpoint + |rows|, notes := v.notes + Consumer.Notes(rows)))
  {
    var c, got := w.checkpoint, Consumer.Notes(rows);
    forall i | 0 <= i < |w.log|
      ensures i in Owners(w.owner, c, c + |rows|) <==> Consumer.Got(i + 1, v.history[i]) in got
    {
      if c < i + 1 <= c + |rows| {
        assert rows[i - c].0 == i + 1 && got[i - c] == Consumer.Got(i + 1, v.history[i]);
        assert w.owner[i + 1] == i;
      }
    }
  }

  lemma {:induction false} NextMirrors(w: World, v: Consumer.World, ev: Consumer.Event)
    requires Inv(w) && Consumer.Inv(v) && Mirrors(w, v)
    ensures Mirrors(Next(w, AsFiled(v, ev)), Consumer.Next(v, ev))
  {
    match ev
    case Appended(e) => GotBelow(v.history, v.notes, 0, v.checkpoint);
    case Lost(_) =>
    case Polled(limit) =>
      ReadFacts(w.feed, w.counter, w.checkpoint, limit);
      match ReadPage(w.feed, w.checkpoint, limit) {
        case Page(rows, _) => PageMirrors(w, v, rows);
        case Truncated(since, floor, _) =>
          forall a, f ensures Noted(w.notes + [Note(since, floor, |w.log|)], a, f) <==>
                              Noted(w.notes, a, f) || (since == a && floor == f) {
            NotedAlso(w.notes, Note(since, floor, |w.log|), a, f);
          }
      }
  }

  /** WITHOUT A RESTORE THE STORIES AGREE: filing every entry under the counter's next number
      is the ordinary consumer's run, so nothing is late and nothing is missed in silence. */
  lemma {:induction false} OrdinaryRun(w: World, v: Consumer.World, evs: seq<Consumer.Event>)
    requires Inv(w) && Consumer.Inv(v) && Mirrors(w, v)
    ensures Mirrors(Run(w, AllFiled(v, evs)), Consumer.Run(v, evs))
    ensures var end := Run(w, AllFiled(v, evs));
            forall i :: 0 <= i < |end.log| ==> !Silent(end, i)
  {
    RunMirrors(w, v, evs);
    var end := Run(w, AllFiled(v, evs));
    RunKeeps(w, AllFiled(v, evs));
    forall i | 0 <= i < |end.log| ensures !Silent(end, i) { assert Accounted(end, i); }
  }

  lemma {:induction false} RunMirrors(w: World, v: Consumer.World, evs: seq<Consumer.Event>)
    requires Inv(w) && Consumer.Inv(v) && Mirrors(w, v)
    ensures Mirrors(Run(w, AllFiled(v, evs)), Consumer.Run(v, evs))
    decreases |evs|
  {
    if evs != [] {
      NextMirrors(w, v, evs[0]);
      NextKeeps(w, AsFiled(v, evs[0]));
      Consumer.NextKeeps(v, evs[0]);
      var all := AllFiled(v, evs);
      assert all[0] == AsFiled(v, evs[0]) && all[1..] == AllFiled(Consumer.Next(v, evs[0]), evs[1..]);
      RunMirrors(Next(w, all[0]), Consumer.Next(v, evs[0]), evs[1..]);
    }
  }

  /** The number a record draws is late exactly when the counter's next number is free and
      the consumer has passed it, or when nothing retained reaches the consumer either. */
  method Draw(counter: Option<int>, rows: map<int, Entry>, e: Entry, checkpoint: int)
      returns (number: int, after: map<int, Entry>, late: bool)
    requires counter.Some? ==> counter.value >= 0
    ensures number !in rows && after == rows[number := e] && (late <==> number <= checkpoint)
    ensures counter.Some? && counter.value + 1 !in rows ==> (late <==> counter.value < checkpoint)
    ensures counter.None? || counter.value + 1 in rows ==>
              (late <==> 0 < checkpoint && forall s :: s in rows ==> s < checkpoint)
  {
    number, after := InsertEventRow(counter, rows, e);
    late := number <= checkpoint;
  }
}
