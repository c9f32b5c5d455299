/** Compare-and-set over one key of a metadata blob that is stored, and rewritten, whole,
    beside the metadata edits of every other verb. */
module MetadataCas {

  import opened Results

  type Json = string
  type Pid = nat

  /** The encoding two equal values share, and what the column makes of a value on the way in. */
  datatype Substrate = Substrate(canonical: Json -> Json, normal: Json -> Json)

  ghost predicate Lawful(s: Substrate) {
    && (forall v :: s.canonical(s.canonical(v)) == s.canonical(v))
    && (forall v :: s.normal(s.normal(v)) == s.normal(v))
  }

  /** None is an absent key: expected absent, or removed. */
  datatype Swap = Swap(key: string, expected: Option<Json>, value: Option<Json>)
  datatype Answer = Answer(swapped: bool, current: Option<Json>)

  /** A swap, or the metadata part of an update: a replacement or edits, where unsetting wins. */
  datatype Write =
    | Cas(op: Swap)
    | Edit(replace: bool, put: map<string, Json>, unset: set<string>)

  type Blob = map<string, Json>

  function Canon(s: Substrate, v: Option<Json>): Option<Json> {
    match v case None => None case Some(j) => Some(s.canonical(j))
  }

  function At(b: Blob, key: string): Option<Json> {
    if key in b then Some(b[key]) else None
  }

  // ---------------------------------------------------------------- the register the role promises

  function Landed(s: Substrate, v: Option<Json>): Option<Json> {
    match v case None => None case Some(j) => Some(s.normal(s.canonical(j)))
  }

  function Passes(s: Substrate, v: Option<Json>, op: Swap): bool {
    Canon(s, v) == Canon(s, op.expected)
  }

  /** The stored value is already the requested one. */
  function Idle(s: Substrate, v: Option<Json>, op: Swap): bool {
    Canon(s, v) == Canon(s, op.value)
  }

  /** One key as an atomic register of its own: no other key is looked at. */
  function KeyAfter(s: Substrate, v: Option<Json>, key: string, w: Write): Option<Json> {
    match w
    case Cas(op) => if op.key == key && Passes(s, v, op) && !Idle(s, v, op) then Landed(s, op.value) else v
    case Edit(replace, put, unset) =>
      if key in unset then None else if key in put then Some(s.normal(put[key])) else if replace then None else v
  }

  function KeyAnswer(s: Substrate, v: Option<Json>, op: Swap): Answer {
    Answer(Passes(s, v, op), Canon(s, KeyAfter(s, v, op.key, Cas(op))))
  }

  // ---------------------------------------------------------------- the blob the store rewrites

  /** A write sends the whole object through the column again. */
  function Stored(s: Substrate, b: Blob): Blob {
    map k | k in b :: s.normal(b[k])
  }

  ghost predicate Settled(s: Substrate, b: Blob) {
    forall k :: k in b ==> s.normal(b[k]) == b[k]
  }

  /** The object a transaction sends to the column, edited from the one it read. */
  function Edited(s: Substrate, b: Blob, w: Write): Blob {
    match w
    case Cas(op) =>
      if !Passes(s, At(b, op.key), op) || Idle(s, At(b, op.key), op) then b
      else (match op.value case None => b - {op.key} case Some(j) => b[op.key := s.canonical(j)])
    case Edit(replace, put, unset) => ((if replace then map[] else b) + put) - unset
  }

  function Rewritten(s: Substrate, b: Blob, w: Write): Blob {
    Stored(s, Edited(s, b, w))
  }

  /** Rewriting the whole object is one step of every key's own register. */
  lemma {:induction false} WholeWriteIsKeyWrite(s: Substrate, b: Blob, w: Write)
    requires Lawful(s) && Settled(s, b)
    ensures Settled(s, Rewritten(s, b, w))
    ensures forall k :: At(Rewritten(s, b, w), k) == KeyAfter(s, At(b, k), k, w)
  {
  }

  /** A SWAP, PLAINLY, by the value stored before and after. Expecting absence it happens exactly
      when there is no value, expecting one exactly when there is one of the same canonical
      form. One that does not happen moves nothing and answers what is stored; one that does
      leaves the key absent, or what the column makes of the value asked for, unless the
      stored one had its form already; and the answer is the canonical form of what is left. */
  ghost predicate SwapReads(s: Substrate, before: Option<Json>, op: Swap, answer: Answer, after: Option<Json>) {
    && (op.expected.None? ==> (answer.swapped <==> before.None?))
    && (op.expected.Some? ==>
         (answer.swapped <==> before.Some? && s.canonical(before.value) == s.canonical(op.expected.value)))
    && (!answer.swapped ==> after == before)
    && (answer.swapped && op.value.None? ==> after.None?)
    && (answer.swapped && op.value.Some? ==>
         after == (if before.Some? && s.canonical(before.value) == s.canonical(op.value.value) then before
                   else Some(s.normal(s.canonical(op.value.value)))))
    && (answer.current.Some? <==> after.Some?) && (after.Some? ==> answer.current.value == s.canonical(after.value))
  }

  class MetadataRow {
    var metadata: Blob

    constructor (b: Blob)
      ensures metadata == b
    {
      metadata := b;
    }

    /** One transaction: read the key, compare, rewrite the object, read the key back. */
    method CompareAndSetKey(s: Substrate, op: Swap) returns (answer: Answer, ghost wrote: bool)
      requires Lawful(s) && Settled(s, metadata)
      modifies this
      ensures Settled(s, metadata) && (forall k :: At(metadata, k) == KeyAfter(s, old(At(metadata, k)), k, Cas(op)))
      ensures answer == KeyAnswer(s, old(At(metadata, op.key)), op)
      ensures SwapReads(s, old(At(metadata, op.key)), op, answer, At(metadata, op.key))
      ensures !answer.swapped || !wrote ==> metadata == old(metadata)
      ensures forall k :: k != op.key ==> At(metadata, k) == old(At(metadata, k))
    {
      var current := Canon(s, At(metadata, op.key));
      var expected, value := Canon(s, op.expected), Canon(s, op.value);
      wrote := false;
      if current != expected { return Answer(false, current), wrote; }
      if current == value { return Answer(true, current), wrote; }
      WholeWriteIsKeyWrite(s, metadata, Cas(op));
      var edited := match value case None => metadata - {op.key} case Some(j) => metadata[op.key := j];
      metadata := Stored(s, edited);
      wrote := true;
      answer := Answer(true, Canon(s, At(metadata, op.key)));
    }
  }

  /** FEEDING CURRENT BACK CONVERGES: whatever the last call answered, an uncontended swap
      that expects that answer succeeds. */
  lemma {:induction false} RetryConverges(s: Substrate, v: Option<Json>, op: Swap, value: Option<Json>)
    requires Lawful(s)
    ensures var current := KeyAnswer(s, v, op).current;
            KeyAnswer(s, KeyAfter(s, v, op.key, Cas(op)), Swap(op.key, current, value)).swapped
  {
  }

  // ---------------------------------------------------------------- many writers

  /** A transaction in flight: the snapshot it read, and the row's version then. */
  datatype Attempt = Attempt(write: Write, snapshot: Blob, version: nat)

  /** A write that took effect, and for a swap its answer. */
  datatype Entry = Entry(write: Write, answer: Option<Answer>)

  /** The row, its version, transactions in flight, and what took effect, in order. */
  datatype World = World(blob: Blob, version: nat, inFlight: map<Pid, Attempt>, log: seq<Entry>)

  datatype Event = Begin(pid: Pid, write: Write) | Commit(pid: Pid)

  /** The answer read off the row: before a write that is refused or idle, after one that lands. */
  function Read(s: Substrate, snapshot: Blob, after: Blob, w: Write): Entry {
    match w
    case Cas(op) => Entry(w, Some(Answer(Passes(s, At(snapshot, op.key), op), Canon(s, At(after, op.key)))))
    case Edit(_, _, _) => Entry(w, None)
  }

  /** Nothing is sent to the column. */
  function Silent(s: Substrate, b: Blob, w: Write): bool {
    match w
    case Cas(op) => !Passes(s, At(b, op.key), op) || Idle(s, At(b, op.key), op)
    case Edit(_, _, _) => Rewritten(s, b, w) == b
  }

  /** A transaction that writes nothing cannot conflict: its snapshot is its answer. One
      that writes waits for its commit, which lands only if the row is as it was read, and
      is otherwise thrown away to be tried again. */
  function Next(s: Substrate, w: World, ev: Event): World {
    match ev
    case Begin(pid, write) =>
      if Silent(s, w.blob, write) then w.(log := w.log + [Read(s, w.blob, w.blob, write)])
      else w.(inFlight := w.inFlight[pid := Attempt(write, w.blob, w.version)])
    case Commit(pid) =>
      if pid !in w.inFlight then w
      else
        var a, rest := w.inFlight[pid], w.inFlight - {pid};
        if a.version != w.version then w.(inFlight := rest)
        else
          var blob := Rewritten(s, a.snapshot, a.write);
          var version := if blob == w.blob then w.version else w.version + 1;
          World(blob, version, rest, w.log + [Read(s, a.snapshot, blob, a.write)])
  }

  function Run(s: Substrate, w: World, evs: seq<Event>): World
    decreases |evs|
  {
    if evs == [] then w else Run(s, Next(s, w, evs[0]), evs[1..])
  }

  /** One register after the logged writes, one at a time. */
  function Replay(s: Substrate, v: Option<Json>, key: string, log: seq<Entry>): Option<Json> {
    if log == [] then v
    else KeyAfter(s, Replay(s, v, key, log[..|log| - 1]), key, log[|log| - 1].write)
  }

  /** Each swap was told what its key's register held when its turn came. */
  ghost predicate Answers(s: Substrate, b: Blob, log: seq<Entry>) {
    forall i :: 0 <= i < |log| && log[i].write.Cas? ==>
      var op := log[i].write.op;
      log[i].answer == Some(KeyAnswer(s, Replay(s, At(b, op.key), op.key, log[..i]), op))
  }

  ghost predicate Registers(s: Substrate, b: Blob, log: seq<Entry>, blob: Blob) {
    forall k :: At(blob, k) == Replay(s, At(b, k), k, log)
  }

  ghost predicate Inv(s: Substrate, b: Blob, w: World) {
    && Settled(s, w.blob) && Registers(s, b, w.log, w.blob) && Answers(s, b, w.log)
    && (forall p :: p in w.inFlight && w.inFlight[p].version == w.version ==>
         w.inFlight[p].snapshot == w.blob && !Silent(s, w.blob, w.inFlight[p].write))
    && (forall p :: p in w.inFlight ==> w.inFlight[p].version <= w.version)
  }

  /** A write that takes effect on the row as it stands is the next entry of every register. */
  lemma {:induction false} LogStep(s: Substrate, b: Blob, log: seq<Entry>, blob: Blob, next: Blob, w: Write)
    requires Registers(s, b, log, blob) && Answers(s, b, log)
    requires forall k :: At(next, k) == KeyAfter(s, At(blob, k), k, w)
    ensures var all := log + [Read(s, blob, next, w)];
            Registers(s, b, all, next) && Answers(s, b, all)
  {
    var all := log + [Read(s, blob, next, w)];
    assert all[..|all| - 1] == log;
    forall i | 0 <= i < |all| && all[i].write.Cas?
      ensures all[i].answer ==
              Some(KeyAnswer(s, Replay(s, At(b, all[i].write.op.key), all[i].write.op.key, all[..i]), all[i].write.op))
    {
      if i < |log| { assert all[..i] == log[..i] && all[i] == log[i]; }
    }
  }

  lemma {:induction false} SilentIsIdentity(s: Substrate, b: Blob, w: Write)
    requires Lawful(s) && Settled(s, b) && Silent(s, b, w)
    ensures forall k :: At(b, k) == KeyAfter(s, At(b, k), k, w)
  {
    WholeWriteIsKeyWrite(s, b, w);
  }

  lemma {:induction false} NextKeeps(s: Substrate, b: Blob, w: World, ev: Event)
    requires Lawful(s) && Inv(s, b, w)
    ensures Inv(s, b, Next(s, w, ev))
  {
    match ev
    case Begin(pid, write) =>
      if Silent(s, w.blob, write) {
        SilentIsIdentity(s, w.blob, write);
        LogStep(s, b, w.log, w.blob, w.blob, write);
      }
    case Commit(pid) =>
      if pid in w.inFlight && w.inFlight[pid].version == w.version {
        var a := w.inFlight[pid];
        WholeWriteIsKeyWrite(s, w.blob, a.write);
        LogStep(s, b, w.log, w.blob, Rewritten(s, w.blob, a.write), a.write);
      }
  }

  lemma {:induction false} RunKeeps(s: Substrate, b: Blob, w: World, evs: seq<Event>)
    requires Lawful(s) && Inv(s, b, w)
    ensures Inv(s, b, Run(s, w, evs))
    decreases |evs|
  {
    if evs != [] {
      NextKeeps(s, b, w, evs[0]);
      RunKeeps(s, b, Next(s, w, evs[0]), evs[1..]);
    }
  }

  /** CONCURRENT WRITES ARE ATOMIC REGISTERS. However snapshots and commits of many swaps
      and edits interleave over the one blob, every key holds what a register of its own
      holds after the writes in the order they took effect, and every swap was told what
      that register held: no key is ever lost to a write of another. */
  lemma {:induction false} SwapsAreRegisters(s: Substrate, b: Blob, version: nat, evs: seq<Event>)
    requires Lawful(s) && Settled(s, b)
    ensures var end := Run(s, World(b, version, map[], []), evs);
            Registers(s, b, end.log, end.blob) && Answers(s, b, end.log)
  {
    RunKeeps(s, b, World(b, version, map[], []), evs);
  }

  lemma {:induction false} SwapMeans(s: Substrate, v: Option<Json>, op: Swap)
    ensures SwapReads(s, v, op, KeyAnswer(s, v, op), KeyAfter(s, v, op.key, Cas(op)))
  {
  }

  /** EVERY ANSWER MEANS WHAT IT SAYS: along any interleaving each swap in the log happened or
      not by the value its key held when its turn came, and left what it says. */
  lemma {:induction false} AnswersMean(s: Substrate, b: Blob, version: nat, evs: seq<Event>, i: nat)
    requires Lawful(s) && Settled(s, b) && i < |Run(s, World(b, version, map[], []), evs).log|
    requires Run(s, World(b, version, map[], []), evs).log[i].write.Cas?
    ensures var log := Run(s, World(b, version, map[], []), evs).log;
            var op := log[i].write.op;
            && log[i].answer.Some?
            && SwapReads(s, Replay(s, At(b, op.key), op.key, log[..i]), op, log[i].answer.value,
                         Replay(s, At(b, op.key), op.key, log[..i + 1]))
  {
    SwapsAreRegisters(s, b, version, evs);
    var log := Run(s, World(b, version, map[], []), evs).log;
    var op := log[i].write.op;
    var v := Replay(s, At(b, op.key), op.key, log[..i]);
    assert log[..i + 1][..i] == log[..i] && log[..i + 1][i] == log[i];
    assert log[i].answer == Some(KeyAnswer(s, v, op));
    SwapMeans(s, v, op);
  }

  /** AN EDIT, PLAINLY: an unset key is gone, a put one holds what the column makes of the value,
      any other is as it was, or gone under a replacement. */
  lemma {:induction false} EditMeans(s: Substrate, v: Option<Json>, key: string, w: Write)
    requires w.Edit?
    ensures key in w.unset ==> KeyAfter(s, v, key, w) == None
    ensures key !in w.unset && key in w.put ==> KeyAfter(s, v, key, w) == Some(s.normal(w.put[key]))
    ensures key !in w.unset && key !in w.put ==> KeyAfter(s, v, key, w) == if w.replace then None else v
  {
  }

  /** The writes that name a key. */
  predicate Names(w: Write, key: string) {
    match w
    case Cas(op) => op.key == key
    case Edit(replace, put, unset) => replace || key in put || key in unset
  }

  function Own(log: seq<Entry>, key: string): seq<Entry> {
    if log == [] then []
    else Own(log[..|log| - 1], key) + (if Names(log[|log| - 1].write, key) then [log[|log| - 1]] else [])
  }

  /** KEYS ARE INDEPENDENT: what a key holds after any log is what the writes that name it
      leave, taken alone and in their order. */
  lemma {:induction false} KeysAreIndependent(s: Substrate, v: Option<Json>, key: string, log: seq<Entry>)
    ensures Replay(s, v, key, log) == Replay(s, v, key, Own(log, key))
    decreases |log|
  {
    if log != [] {
      var head, last := log[..|log| - 1], log[|log| - 1];
      KeysAreIndependent(s, v, key, head);
      if Names(last.write, key) {
        assert (Own(head, key) + [last])[..|Own(head, key)|] == Own(head, key);
      } else {
        assert Own(log, key) == Own(head, key);
      }
    }
  }
}
