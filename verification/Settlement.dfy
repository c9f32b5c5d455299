/** The mark and unmark statements that settlement repeats, one batch of ids at a time,
    and why repeating them reaches the settled column in any batching and any order. */
module Settlement {

  import opened Digraph
  import opened IssueGraph

  /** One mark statement: the batch rows the predicate wants, read off the flags as they stand. */
  function MarkStep(g: Graph, b: set<Id>, batch: set<Id>): set<Id> {
    b + set x | x in batch && x in g.rows && Wants(g, b, x)
  }

  /** One unmark statement. */
  function UnmarkStep(g: Graph, b: set<Id>, batch: set<Id>): set<Id> {
    b - set x | x in batch && x in b && !Wants(g, b, x)
  }

  function PassStep(g: Graph, b: set<Id>, batch: set<Id>): set<Id> {
    UnmarkStep(g, MarkStep(g, b, batch), batch)
  }

  function Union(batches: seq<set<Id>>): set<Id> {
    if batches == [] then {} else batches[0] + Union(batches[1..])
  }

  lemma {:induction false} UnionSnoc(batches: seq<set<Id>>, i: nat)
    requires i < |batches|
    ensures Union(batches[..i + 1]) == Union(batches[..i]) + batches[i]
    ensures Union(batches[..i]) <= Union(batches)
  {
    assert batches[..i + 1][0] == batches[0];
    if i > 0 {
      assert batches[..i + 1][1..] == batches[1..][..i] && batches[..i][1..] == batches[1..][..i - 1];
      UnionSnoc(batches[1..], i - 1);
    } else {
      assert batches[..1][1..] == [] && batches[..0] == [];
    }
  }

  lemma {:induction false} UnionHolds(batches: seq<set<Id>>, i: nat)
    requires i < |batches|
    ensures batches[i] <= Union(batches)
  {
    if i > 0 { UnionHolds(batches[1..], i - 1); }
  }

  // ---------------------------------------------------------------- settling

  predicate Right(t: set<Id>, b: set<Id>, x: Id) {
    x in b <==> x in t
  }

  /** Every row with fewer than k ancestors above it carries its settled flag. */
  ghost predicate LevelRight(g: Graph, t: set<Id>, b: set<Id>, k: nat) {
    forall x :: x in g.rows && !Deep(Hierarchy(g), x, k) ==> Right(t, b, x)
  }

  /** Outside a, b agrees with the target; inside a, the target wants what it holds. */
  ghost predicate Target(g: Graph, a: set<Id>, b: set<Id>, t: set<Id>) {
    && b <= g.rows.Keys && t <= g.rows.Keys
    && (forall x :: x in g.rows && x !in a ==> Right(t, b, x))
    && (forall x :: x in g.rows && x in a ==> (x in t <==> Wants(g, t, x)))
  }

  lemma {:induction false} SettledIsTarget(g: Graph, a: set<Id>, b: set<Id>)
    requires b <= g.rows.Keys
    ensures Target(g, a, b, Settled(g, a, b))
  {
    forall x | x in g.rows
        ensures x in Settled(g, a, b) <==> x in (b * g.rows.Keys) - a || (x in a && Wants(g, Settled(g, a, b), x)) {
      LiftedFix(g, a, (b * g.rows.Keys) - a, x);
    }
  }

  /** A row whose parents are right is wanted exactly when the target holds it. */
  lemma {:induction false} ParentsDecide(g: Graph, a: set<Id>, b: set<Id>, t: set<Id>, k: nat, x: Id)
    requires Target(g, a, b, t) && LevelRight(g, t, b, k) && x in a && x in g.rows && !Deep(Hierarchy(g), x, k + 1)
    ensures Wants(g, b, x) <==> x in t
  {
    forall p | ChildOf(g, x, p) ensures Right(t, b, p) {
      assert (x, p) in Hierarchy(g) by { assert ChildOf(g, (x, p).0, (x, p).1); }
      DeepStep(Hierarchy(g), x, p, k + 1);
    }
  }

  lemma {:induction false} Shallower(g: Graph, x: Id, k: nat)
    requires !Deep(Hierarchy(g), x, k)
    ensures !Deep(Hierarchy(g), x, k + 1)
  {
    if Deep(Hierarchy(g), x, k + 1) { DeepShrinks(Hierarchy(g), x, k); }
  }

  /** One statement moves no row that is right for good, and rights those it visits. */
  ghost predicate Raised(g: Graph, t: set<Id>, b: set<Id>, c: set<Id>, k: nat) {
    forall x :: x in g.rows && !Deep(Hierarchy(g), x, k + 1) && Right(t, b, x) ==> Right(t, c, x)
  }

  lemma {:induction false} MarkRaises(g: Graph, a: set<Id>, b: set<Id>, t: set<Id>, k: nat, batch: set<Id>)
    requires Target(g, a, b, t) && LevelRight(g, t, b, k) && batch <= a
    ensures Target(g, a, MarkStep(g, b, batch), t) && LevelRight(g, t, MarkStep(g, b, batch), k)
    ensures Raised(g, t, b, MarkStep(g, b, batch), k)
  {
    forall x | x in batch && x in g.rows && !Deep(Hierarchy(g), x, k + 1) ensures Wants(g, b, x) <==> x in t {
      ParentsDecide(g, a, b, t, k, x);
    }
    forall x | !Deep(Hierarchy(g), x, k) ensures !Deep(Hierarchy(g), x, k + 1) { Shallower(g, x, k); }
  }

  lemma {:induction false} UnmarkRaises(g: Graph, a: set<Id>, b: set<Id>, t: set<Id>, k: nat, batch: set<Id>)
    requires Target(g, a, b, t) && LevelRight(g, t, b, k) && batch <= a
    ensures Target(g, a, UnmarkStep(g, b, batch), t) && LevelRight(g, t, UnmarkStep(g, b, batch), k)
    ensures Raised(g, t, b, UnmarkStep(g, b, batch), k)
    ensures forall x :: x in batch && x in g.rows && !Deep(Hierarchy(g), x, k + 1) && (x in t ==> x in b) ==>
              Right(t, UnmarkStep(g, b, batch), x)
  {
    forall x | x in batch && x in g.rows && !Deep(Hierarchy(g), x, k + 1) ensures Wants(g, b, x) <==> x in t {
      ParentsDecide(g, a, b, t, k, x);
    }
    forall x | !Deep(Hierarchy(g), x, k) ensures !Deep(Hierarchy(g), x, k + 1) { Shallower(g, x, k); }
  }

  /** One batch of a pass: nothing right is lost, and the batch's next level is right. */
  lemma {:induction false} PassRaises(g: Graph, a: set<Id>, b: set<Id>, t: set<Id>, k: nat, batch: set<Id>)
    requires Target(g, a, b, t) && LevelRight(g, t, b, k) && batch <= a
    ensures Target(g, a, PassStep(g, b, batch), t) && LevelRight(g, t, PassStep(g, b, batch), k)
    ensures Raised(g, t, b, PassStep(g, b, batch), k)
    ensures forall x :: x in batch && x in g.rows && !Deep(Hierarchy(g), x, k + 1) ==>
            Right(t, PassStep(g, b, batch), x)
  {
    MarkRaises(g, a, b, t, k, batch);
    forall x | x in batch && x in g.rows && !Deep(Hierarchy(g), x, k + 1) && x in t ensures x in MarkStep(g, b, batch) {
      ParentsDecide(g, a, b, t, k, x);
    }
    UnmarkRaises(g, a, MarkStep(g, b, batch), t, k, batch);
  }

  /** After as many rounds as there are rows every flag is settled. */
  lemma {:induction false} EnoughRounds(g: Graph, a: set<Id>, b: set<Id>, t: set<Id>)
    requires WellFormed(g) && Acyclic(Hierarchy(g)) && Target(g, a, b, t) && LevelRight(g, t, b, |g.rows.Keys|)
    ensures b == t
  {
    forall x | x in g.rows ensures Right(t, b, x) { HierarchyShallow(g, x); }
  }

  /** A settled column is left alone by every further statement. */
  lemma {:induction false} SettledIsStill(g: Graph, a: set<Id>, t: set<Id>, batch: set<Id>)
    requires Target(g, a, t, t) && batch <= a
    ensures MarkStep(g, t, batch) == t && UnmarkStep(g, t, batch) == t
  {
  }

  /** A column that a whole pass leaves alone is the settled one. */
  lemma {:induction false} StillIsSettled(g: Graph, a: set<Id>, b0: set<Id>, b: set<Id>)
    requires WellFormed(g) && Acyclic(Hierarchy(g)) && b0 <= g.rows.Keys && b <= g.rows.Keys
    requires forall x :: x in g.rows && x !in a ==> Right(b0, b, x)
    requires forall x :: x in g.rows && x in a ==> (x in b <==> Wants(g, b, x))
    ensures b == Settled(g, a, b0)
  {
    var base := (b0 * g.rows.Keys) - a;
    forall x | x in Settled(g, a, b0) ensures x in b {
      var n: nat :| Lift(g, a, base, x, n);
      LiftLeast(g, a, base, b, x, n);
    }
    forall x | x in b ensures x in Settled(g, a, b0) {
      HierarchyShallow(g, x);
      LiftGreatest(g, a, base, b, x, |g.rows.Keys|);
    }
  }

  /** So a pass that changes nothing has reached the target. */
  lemma {:induction false} StillIsTarget(g: Graph, a: set<Id>, b: set<Id>, t: set<Id>)
    requires WellFormed(g) && Acyclic(Hierarchy(g)) && Target(g, a, b, t)
    requires forall x :: x in g.rows && x in a ==> (x in b <==> Wants(g, b, x))
    ensures b == t
  {
    StillIsSettled(g, a, b, b);
    StillIsSettled(g, a, b, t);
  }

  /** Part-way through a round, with the ids of done visited: b0 is the column it began with. */
  ghost predicate Rounding(g: Graph, a: set<Id>, t: set<Id>, k: nat, b0: set<Id>, b: set<Id>, done: set<Id>,
                           changed: bool) {
    && Target(g, a, b, t) && LevelRight(g, t, b, k)
    && (forall x :: x in done && x in g.rows && !Deep(Hierarchy(g), x, k + 1) ==> Right(t, b, x))
    && (if changed then b0 != t else b == b0 && forall x :: x in g.rows && x in done ==> (x in b <==> Wants(g, b, x)))
  }

  lemma {:induction false} RoundStart(g: Graph, a: set<Id>, t: set<Id>, k: nat, b: set<Id>)
    requires Target(g, a, b, t) && LevelRight(g, t, b, k)
    ensures Rounding(g, a, t, k, b, b, {}, false)
  {
  }

  lemma {:induction false} RoundStep(g: Graph, a: set<Id>, t: set<Id>, k: nat, b0: set<Id>, b: set<Id>, done: set<Id>,
                                     batch: set<Id>, changed: bool)
    requires Rounding(g, a, t, k, b0, b, done, changed) && batch <= a
    ensures var marked := MarkStep(g, b, batch);
            Rounding(g, a, t, k, b0, PassStep(g, b, batch), done + batch,
                     changed || marked != b || PassStep(g, b, batch) != marked)
  {
    PassRaises(g, a, b, t, k, batch);
    if b == t { SettledIsStill(g, a, t, batch); }
  }

  lemma {:induction false} RoundEnds(g: Graph, a: set<Id>, t: set<Id>, k: nat, b0: set<Id>, b: set<Id>, changed: bool)
    requires WellFormed(g) && Acyclic(Hierarchy(g)) && Rounding(g, a, t, k, b0, b, a, changed)
    requires k <= |g.rows.Keys| && LevelRight(g, t, b0, k) && Target(g, a, b0, t)
    ensures if changed then LevelRight(g, t, b, k + 1) && k < |g.rows.Keys| else b == t
  {
    if k == |g.rows.Keys| { EnoughRounds(g, a, b0, t); }
    if !changed { StillIsTarget(g, a, b, t); }
  }

  /** One round: mark then unmark each batch in turn. */
  function Sweep(g: Graph, b: set<Id>, batches: seq<set<Id>>): set<Id>
    decreases |batches|
  {
    if batches == [] then b else Sweep(g, PassStep(g, b, batches[0]), batches[1..])
  }

  /** Some statement of the round changes a row. */
  function Stirs(g: Graph, b: set<Id>, batches: seq<set<Id>>): bool
    decreases |batches|
  {
    batches != [] &&
    (MarkStep(g, b, batches[0]) != b || PassStep(g, b, batches[0]) != MarkStep(g, b, batches[0]) ||
     Stirs(g, PassStep(g, b, batches[0]), batches[1..]))
  }

  lemma {:induction false} SweepRounds(g: Graph, a: set<Id>, t: set<Id>, k: nat, b0: set<Id>, b: set<Id>, done: set<Id>,
                                       changed: bool, batches: seq<set<Id>>)
    requires Rounding(g, a, t, k, b0, b, done, changed) && Union(batches) <= a
    ensures Rounding(g, a, t, k, b0, Sweep(g, b, batches), done + Union(batches), changed || Stirs(g, b, batches))
    decreases |batches|
  {
    if batches == [] {
      assert done + Union(batches) == done;
    } else {
      var next := changed || MarkStep(g, b, batches[0]) != b ||
          PassStep(g, b, batches[0]) != MarkStep(g, b, batches[0]);
      RoundStep(g, a, t, k, b0, b, done, batches[0], changed);
      SweepRounds(g, a, t, k, b0, PassStep(g, b, batches[0]), done + batches[0], next, batches[1..]);
      assert done + batches[0] + Union(batches[1..]) == done + Union(batches);
    }
  }

  /** ONE ROUND, ONE LEVEL: a round settles one more level of the hierarchy, and one that
      changes nothing has settled them all. */
  lemma {:induction false} SweepRaises(g: Graph, batches: seq<set<Id>>, t: set<Id>, k: nat, b: set<Id>)
    requires WellFormed(g) && Acyclic(Hierarchy(g)) && Target(g, Union(batches), b, t)
    requires k <= |g.rows.Keys| && LevelRight(g, t, b, k)
    ensures Target(g, Union(batches), Sweep(g, b, batches), t)
    ensures if Stirs(g, b, batches) then LevelRight(g, t, Sweep(g, b, batches), k + 1) && k < |g.rows.Keys|
            else Sweep(g, b, batches) == t
  {
    var a := Union(batches);
    RoundStart(g, a, t, k, b);
    SweepRounds(g, a, t, k, b, b, {}, false, batches);
    assert {} + a == a;
    RoundEnds(g, a, t, k, b, Sweep(g, b, batches), Stirs(g, b, batches));
  }

  /** Settling is idempotent, touches no row outside the set, and changes nothing at all
      in a column that is already consistent, whatever set it is asked to settle. */
  lemma {:induction false} SettlingIsIdempotent(g: Graph, a: set<Id>, b: set<Id>)
    requires WellFormed(g) && Acyclic(Hierarchy(g)) && b <= g.rows.Keys
    ensures Settled(g, a, Settled(g, a, b)) == Settled(g, a, b)
    ensures forall x :: x in g.rows && x !in a ==> (x in Settled(g, a, b) <==> x in b)
    ensures Consistent(g, b) ==> Settled(g, a, b) == b
  {
    SettledIsTarget(g, a, b);
    StillIsSettled(g, a, Settled(g, a, b), Settled(g, a, b));
    if Consistent(g, b) { StillIsSettled(g, a, b, b); }
  }

  // ---------------------------------------------------------------- rounds, on any graph

  /** The column after n rounds. */
  function Sweeps(g: Graph, b: set<Id>, batches: seq<set<Id>>, n: nat): set<Id>
    decreases n
  {
    if n == 0 then b else Sweep(g, Sweeps(g, b, batches, n - 1), batches)
  }

  /** The round after n rounds changes nothing. */
  predicate QuietAfter(g: Graph, b: set<Id>, batches: seq<set<Id>>, n: nat) {
    !Stirs(g, Sweeps(g, b, batches, n), batches)
  }

  /** Some round changes nothing: the loop over rounds returns. */
  ghost predicate Ends(g: Graph, b: set<Id>, batches: seq<set<Id>>) {
    exists n: nat :: QuietAfter(g, b, batches, n)
  }

  lemma {:induction false} SweepsShift(g: Graph, b: set<Id>, batches: seq<set<Id>>, n: nat)
    ensures Sweeps(g, Sweep(g, b, batches), batches, n) == Sweeps(g, b, batches, n + 1)
    decreases n
  {
    if n > 0 { SweepsShift(g, b, batches, n - 1); }
  }

  /** What every round keeps, all rounds keep. */
  lemma {:induction false} SweepsKeep(p: set<Id> -> bool, g: Graph, b: set<Id>, batches: seq<set<Id>>, n: nat)
    requires p(b) && forall c :: p(c) ==> p(Sweep(g, c, batches))
    ensures p(Sweeps(g, b, batches, n))
    decreases n
  {
    if n > 0 { SweepsKeep(p, g, b, batches, n - 1); }
  }

  lemma {:induction false} SweepWithin(g: Graph, b: set<Id>, batches: seq<set<Id>>)
    requires b <= g.rows.Keys
    ensures Sweep(g, b, batches) <= g.rows.Keys
    decreases |batches|
  {
    if batches != [] { SweepWithin(g, PassStep(g, b, batches[0]), batches[1..]); }
  }

  lemma {:induction false} SweepsWithin(g: Graph, b: set<Id>, batches: seq<set<Id>>, n: nat)
    requires b <= g.rows.Keys
    ensures Sweeps(g, b, batches, n) <= g.rows.Keys
    decreases n
  {
    if n > 0 {
      SweepsWithin(g, b, batches, n - 1);
      SweepWithin(g, Sweeps(g, b, batches, n - 1), batches);
    }
  }

  /** No row outside the batches moves. */
  lemma {:induction false} SweepOutside(g: Graph, b: set<Id>, batches: seq<set<Id>>)
    ensures forall x :: x !in Union(batches) ==> (x in Sweep(g, b, batches) <==> x in b)
    decreases |batches|
  {
    if batches != [] { SweepOutside(g, PassStep(g, b, batches[0]), batches[1..]); }
  }

  lemma {:induction false} SweepsOutside(g: Graph, b: set<Id>, batches: seq<set<Id>>, n: nat)
    ensures forall x :: x !in Union(batches) ==> (x in Sweeps(g, b, batches, n) <==> x in b)
    decreases n
  {
    if n > 0 {
      SweepsOutside(g, b, batches, n - 1);
      SweepOutside(g, Sweeps(g, b, batches, n - 1), batches);
    }
  }

  /** A quiet round leaves the column alone, and every row it visited is right. */
  lemma {:induction false} QuietIsRight(g: Graph, b: set<Id>, batches: seq<set<Id>>)
    requires !Stirs(g, b, batches)
    ensures Sweep(g, b, batches) == b
    ensures forall x :: x in Union(batches) && x in g.rows ==> (x in b <==> Wants(g, b, x))
    decreases |batches|
  {
    if batches != [] {
      assert MarkStep(g, b, batches[0]) == b && UnmarkStep(g, b, batches[0]) == b;
      QuietIsRight(g, b, batches[1..]);
      forall x | x in batches[0] && x in g.rows ensures x in b <==> Wants(g, b, x) {
        if Wants(g, b, x) { assert x in MarkStep(g, b, batches[0]); }
        if x in b { assert x in UnmarkStep(g, b, batches[0]); }
      }
    }
  }

  /** After a quiet round every further one is quiet. */
  lemma {:induction false} QuietStays(g: Graph, b: set<Id>, batches: seq<set<Id>>, m: nat, n: nat)
    requires m <= n && QuietAfter(g, b, batches, m)
    ensures Sweeps(g, b, batches, n) == Sweeps(g, b, batches, m)
    decreases n
  {
    if m < n {
      QuietStays(g, b, batches, m, n - 1);
      QuietIsRight(g, Sweeps(g, b, batches, m), batches);
    }
  }

  /** Every flag in the set is wanted: settling can only set flags. */
  ghost predicate Rising(g: Graph, a: set<Id>, b: set<Id>) {
    forall x {:trigger Wants(g, b, x)} :: x in a && x in b ==> Wants(g, b, x)
  }

  /** Every wanted flag in the set is there: settling can only clear flags. */
  ghost predicate Falling(g: Graph, a: set<Id>, b: set<Id>) {
    forall x {:trigger Wants(g, b, x)} :: x in a && Wants(g, b, x) ==> x in b
  }

  lemma {:induction false} PassGrows(g: Graph, a: set<Id>, b: set<Id>, batch: set<Id>)
    requires Rising(g, a, b) && batch <= a
    ensures b <= MarkStep(g, b, batch) == PassStep(g, b, batch) && Rising(g, a, PassStep(g, b, batch))
  {
    var m := MarkStep(g, b, batch);
    forall x | x in a && x in m ensures Wants(g, m, x) {
      assert x in b ==> Wants(g, b, x);
      WantsGrows(g, b, m, x);
    }
    assert UnmarkStep(g, m, batch) == m;
  }

  lemma {:induction false} PassShrinks(g: Graph, a: set<Id>, b: set<Id>, batch: set<Id>)
    requires Falling(g, a, b) && batch <= a
    ensures MarkStep(g, b, batch) == b && PassStep(g, b, batch) <= b && Falling(g, a, PassStep(g, b, batch))
  {
    assert MarkStep(g, b, batch) == b;
    var u := UnmarkStep(g, b, batch);
    forall x | x in a && Wants(g, u, x) ensures x in u { WantsGrows(g, u, b, x); }
  }

  lemma {:induction false} SweepGrows(g: Graph, a: set<Id>, b: set<Id>, batches: seq<set<Id>>)
    requires Rising(g, a, b) && Union(batches) <= a
    ensures b <= Sweep(g, b, batches) && Rising(g, a, Sweep(g, b, batches))
    ensures Stirs(g, b, batches) ==> b < Sweep(g, b, batches)
    decreases |batches|
  {
    if batches != [] {
      PassGrows(g, a, b, batches[0]);
      SweepGrows(g, a, PassStep(g, b, batches[0]), batches[1..]);
    }
  }

  lemma {:induction false} SweepShrinks(g: Graph, a: set<Id>, b: set<Id>, batches: seq<set<Id>>)
    requires Falling(g, a, b) && Union(batches) <= a
    ensures Sweep(g, b, batches) <= b && Falling(g, a, Sweep(g, b, batches))
    ensures Stirs(g, b, batches) ==> Sweep(g, b, batches) < b
    decreases |batches|
  {
    if batches != [] {
      PassShrinks(g, a, b, batches[0]);
      SweepShrinks(g, a, PassStep(g, b, batches[0]), batches[1..]);
    }
  }

  /** Something that goes down until a round is quiet finds a quiet round. */
  lemma {:induction false} FindQuiet(quiet: nat -> bool, measure: nat -> nat, k: nat) returns (n: nat)
    requires forall i: nat :: !quiet(i) ==> measure(i + 1) < measure(i)
    ensures k <= n <= k + measure(k) && quiet(n)
    decreases measure(k)
  {
    if quiet(k) { n := k; } else { n := FindQuiet(quiet, measure, k + 1); }
  }

  lemma {:induction false} StaysRising(g: Graph, a: set<Id>, b: set<Id>, batches: seq<set<Id>>, n: nat)
    requires Rising(g, a, b) && Union(batches) <= a
    ensures Rising(g, a, Sweeps(g, b, batches, n)) && b <= Sweeps(g, b, batches, n)
    decreases n
  {
    if n > 0 {
      StaysRising(g, a, b, batches, n - 1);
      SweepGrows(g, a, Sweeps(g, b, batches, n - 1), batches);
    }
  }

  lemma {:induction false} StaysFalling(g: Graph, a: set<Id>, b: set<Id>, batches: seq<set<Id>>, n: nat)
    requires Falling(g, a, b) && Union(batches) <= a
    ensures Falling(g, a, Sweeps(g, b, batches, n)) && Sweeps(g, b, batches, n) <= b
    decreases n
  {
    if n > 0 {
      StaysFalling(g, a, b, batches, n - 1);
      SweepShrinks(g, a, Sweeps(g, b, batches, n - 1), batches);
    }
  }

  /** The rows still unflagged after n rounds. */
  ghost function Unflagged(g: Graph, b: set<Id>, batches: seq<set<Id>>, n: nat): nat {
    |g.rows.Keys - Sweeps(g, b, batches, n)|
  }

  lemma {:induction false} RoundClimbs(g: Graph, a: set<Id>, b: set<Id>, batches: seq<set<Id>>, n: nat)
    requires Rising(g, a, b) && Union(batches) <= a && b <= g.rows.Keys && !QuietAfter(g, b, batches, n)
    ensures Unflagged(g, b, batches, n + 1) < Unflagged(g, b, batches, n)
  {
    var c := Sweeps(g, b, batches, n);
    StaysRising(g, a, b, batches, n);
    SweepsWithin(g, b, batches, n + 1);
    SweepGrows(g, a, c, batches);
    SmallerSet(g.rows.Keys - Sweep(g, c, batches), g.rows.Keys - c);
  }

  lemma {:induction false} RoundDrops(g: Graph, a: set<Id>, b: set<Id>, batches: seq<set<Id>>, n: nat)
    requires Falling(g, a, b) && Union(batches) <= a && !QuietAfter(g, b, batches, n)
    ensures |Sweeps(g, b, batches, n + 1)| < |Sweeps(g, b, batches, n)|
  {
    StaysFalling(g, a, b, batches, n);
    SweepShrinks(g, a, Sweeps(g, b, batches, n), batches);
    SmallerSet(Sweeps(g, b, batches, n + 1), Sweeps(g, b, batches, n));
  }

  /** THE ROUNDS END from a column in which the set only lacks flags or only has too many,
      on every graph, rings of parents included, and in any batching and order. */
  lemma {:induction false} OneSidedEnds(g: Graph, a: set<Id>, b: set<Id>, batches: seq<set<Id>>) returns (n: nat)
    requires (Rising(g, a, b) || Falling(g, a, b)) && Union(batches) <= a && b <= g.rows.Keys
    ensures n <= |g.rows.Keys| && QuietAfter(g, b, batches, n)
  {
    if Rising(g, a, b) {
      forall i: nat | !QuietAfter(g, b, batches, i)
        ensures Unflagged(g, b, batches, i + 1) < Unflagged(g, b, batches, i) { RoundClimbs(g, a, b, batches, i); }
      n := FindQuiet((i: nat) => QuietAfter(g, b, batches, i), (i: nat) => Unflagged(g, b, batches, i), 0);
      SubsetSize(g.rows.Keys - b, g.rows.Keys);
    } else {
      forall i: nat | !QuietAfter(g, b, batches, i)
        ensures |Sweeps(g, b, batches, i + 1)| < |Sweeps(g, b, batches, i)| { RoundDrops(g, a, b, batches, i); }
      n := FindQuiet((i: nat) => QuietAfter(g, b, batches, i), (i: nat) => |Sweeps(g, b, batches, i)|, 0);
      SubsetSize(b, g.rows.Keys);
    }
  }

  /** With no ring of parents the rounds end from any column, and at the settled one. */
  lemma {:induction false} AcyclicEnds(g: Graph, b: set<Id>, batches: seq<set<Id>>) returns (n: nat)
    requires WellFormed(g) && Acyclic(Hierarchy(g)) && b <= g.rows.Keys
    ensures n <= |g.rows.Keys| && QuietAfter(g, b, batches, n)
    ensures Sweeps(g, b, batches, n) == Settled(g, Union(batches), b)
  {
    var t, size := Settled(g, Union(batches), b), |g.rows.Keys|;
    SettledIsTarget(g, Union(batches), b);
    forall i: nat | LevelAfter(g, b, batches, t, i) && !QuietAfter(g, b, batches, i)
      ensures i < size && LevelAfter(g, b, batches, t, i + 1) { LevelNext(g, b, batches, t, i); }
    n := FindQuietBelow((i: nat) => QuietAfter(g, b, batches, i), (i: nat) => LevelAfter(g, b, batches, t, i), size, 0);
    LevelNext(g, b, batches, t, n);
  }

  lemma {:induction false} FindQuietBelow(quiet: nat -> bool, level: nat -> bool, size: nat, k: nat) returns (n: nat)
    requires k <= size && level(k) && forall i: nat :: level(i) && !quiet(i) ==> i < size && level(i + 1)
    ensures n <= size && quiet(n) && level(n)
    decreases size - k
  {
    if quiet(k) { n := k; } else { n := FindQuietBelow(quiet, level, size, k + 1); }
  }

  /** After n rounds the first n levels of the hierarchy are right. */
  ghost predicate LevelAfter(g: Graph, b: set<Id>, batches: seq<set<Id>>, t: set<Id>, n: nat) {
    && n <= |g.rows.Keys| && Target(g, Union(batches), Sweeps(g, b, batches, n), t)
    && LevelRight(g, t, Sweeps(g, b, batches, n), n)
  }

  lemma {:induction false} LevelNext(g: Graph, b: set<Id>, batches: seq<set<Id>>, t: set<Id>, n: nat)
    requires WellFormed(g) && Acyclic(Hierarchy(g)) && LevelAfter(g, b, batches, t, n)
    ensures if QuietAfter(g, b, batches, n) then Sweeps(g, b, batches, n) == t
            else n < |g.rows.Keys| && LevelAfter(g, b, batches, t, n + 1)
  {
    SweepRaises(g, batches, t, n, Sweeps(g, b, batches, n));
    if QuietAfter(g, b, batches, n) { QuietIsRight(g, Sweeps(g, b, batches, n), batches); }
  }

  /** A column that comes back before any round was quiet comes back for ever. */
  lemma {:induction false} RecurringNeverEnds(g: Graph, b: set<Id>, batches: seq<set<Id>>, i: nat, j: nat)
    requires i < j && Sweeps(g, b, batches, i) == Sweeps(g, b, batches, j)
    requires forall k: nat :: k < j ==> !QuietAfter(g, b, batches, k)
    ensures !Ends(g, b, batches)
  {
    forall n: nat ensures !QuietAfter(g, b, batches, n) {
      var k := Recurs(g, b, batches, i, j, n);
      assert !QuietAfter(g, b, batches, k);
    }
  }

  lemma {:induction false} Recurs(g: Graph, b: set<Id>, batches: seq<set<Id>>, i: nat, j: nat, n: nat) returns (k: nat)
    requires i < j && Sweeps(g, b, batches, i) == Sweeps(g, b, batches, j)
    ensures k < j && Sweeps(g, b, batches, n) == Sweeps(g, b, batches, k)
    decreases n
  {
    if n < j { return n; }
    k := Recurs(g, b, batches, i, j, n - 1);
    k := k + 1;
    if k == j { k := i; }
  }

  /** The rounds over what a write affects, plane by plane, come to an end. */
  ghost predicate Settles(g: Graph, a: set<Id>, b: set<Id>) {
    Ends(g, b * g.rows.Keys, ByPlane(g, a))
  }

  /** What settling writes: the column of the first quiet round. */
  ghost function Rounds(g: Graph, a: set<Id>, b: set<Id>): set<Id> {
    if Settles(g, a, b) then
      var n: nat :| QuietAfter(g, b * g.rows.Keys, ByPlane(g, a), n);
      Sweeps(g, b * g.rows.Keys, ByPlane(g, a), n)
    else b * g.rows.Keys
  }

  lemma {:induction false} RoundsAre(g: Graph, a: set<Id>, b: set<Id>, n: nat)
    requires QuietAfter(g, b * g.rows.Keys, ByPlane(g, a), n)
    ensures Settles(g, a, b) && Rounds(g, a, b) == Sweeps(g, b * g.rows.Keys, ByPlane(g, a), n)
  {
    var c, batches := b * g.rows.Keys, ByPlane(g, a);
    forall m: nat | QuietAfter(g, c, batches, m) ensures Sweeps(g, c, batches, m) == Sweeps(g, c, batches, n) {
      if m <= n { QuietStays(g, c, batches, m, n); } else { QuietStays(g, c, batches, n, m); }
    }
  }

  lemma {:induction false} RoundsWithin(g: Graph, a: set<Id>, b: set<Id>)
    ensures Rounds(g, a, b) <= g.rows.Keys
  {
    if Settles(g, a, b) {
      var n: nat :| QuietAfter(g, b * g.rows.Keys, ByPlane(g, a), n);
      RoundsAre(g, a, b, n);
      SweepsWithin(g, b * g.rows.Keys, ByPlane(g, a), n);
    }
  }

  /** What a settlement that ends leaves: every row it visited right, and no other moved. */
  lemma {:induction false} RoundsRight(g: Graph, a: set<Id>, b: set<Id>)
    requires Settles(g, a, b)
    ensures forall x :: x in a && x in g.rows ==> (x in Rounds(g, a, b) <==> Wants(g, Rounds(g, a, b), x))
    ensures forall x :: x !in a ==> (x in Rounds(g, a, b) <==> x in b * g.rows.Keys)
  {
    var c, batches := b * g.rows.Keys, ByPlane(g, a);
    var n: nat :| QuietAfter(g, c, batches, n);
    ByPlaneCovers(g, a);
    RoundsAre(g, a, b, n);
    SweepsOutside(g, c, batches, n);
    QuietIsRight(g, Sweeps(g, c, batches, n), batches);
  }

  lemma {:induction false} SettledForgets(h: Graph, a: set<Id>, b: set<Id>)
    ensures Settled(h, a, b * h.rows.Keys) == Settled(h, a, b)
  {
    assert ((b * h.rows.Keys) * h.rows.Keys) - a == (b * h.rows.Keys) - a;
  }

  /** With no ring of parents the rounds end, at the settled column. */
  lemma {:induction false} RoundsSettle(g: Graph, a: set<Id>, b: set<Id>)
    requires WellFormed(g) && Acyclic(Hierarchy(g))
    ensures Settles(g, a, b) && Rounds(g, a, b) == Settled(g, a, b)
  {
    ByPlaneCovers(g, a);
    var n := AcyclicEnds(g, b * g.rows.Keys, ByPlane(g, a));
    RoundsAre(g, a, b, n);
    SettledForgets(g, a, b);
  }

  // ---------------------------------------------------------------- marking only

  lemma {:induction false} WantsGrows(g: Graph, b: set<Id>, c: set<Id>, x: Id)
    requires b <= c && Wants(g, b, x)
    ensures Wants(g, c, x)
  {
  }

  lemma {:induction false} MarkStays(g: Graph, a: set<Id>, seed: set<Id>, b: set<Id>, batch: set<Id>)
    requires b <= Marked(g, a, seed) && batch <= a
    ensures b <= MarkStep(g, b, batch) <= Marked(g, a, seed)
  {
    forall x | x in batch && x in g.rows && Wants(g, b, x) ensures x in Marked(g, a, seed) {
      WantsGrows(g, b, Marked(g, a, seed), x);
      LiftedFix(g, a, seed, x);
    }
  }

  lemma {:induction false} SeedMarked(g: Graph, a: set<Id>, seed: set<Id>)
    requires seed <= g.rows.Keys
    ensures seed <= Marked(g, a, seed) <= g.rows.Keys
  {
    forall x | x in seed ensures x in Marked(g, a, seed) { LiftedFix(g, a, seed, x); }
  }

  lemma {:induction false} StillIsMarked(g: Graph, a: set<Id>, seed: set<Id>, b: set<Id>)
    requires seed <= b <= Marked(g, a, seed)
    requires forall x :: x in g.rows && x in a && Wants(g, b, x) ==> x in b
    ensures b == Marked(g, a, seed)
  {
    forall x | x in Marked(g, a, seed) ensures x in b {
      var n: nat :| Lift(g, a, seed, x, n);
      LiftLeast(g, a, seed, b, x, n);
    }
  }

  // ---------------------------------------------------------------- the two planes

  /** The ids of a durable row go in the first batch, the rest in the second. */
  function ByPlane(g: Graph, a: set<Id>): seq<set<Id>> {
    [set x | x in a && x in g.rows && g.rows[x].plane == Issues,
     set x | x in a && !(x in g.rows && g.rows[x].plane == Issues)]
  }

  lemma {:induction false} ByPlaneCovers(g: Graph, a: set<Id>)
    ensures Union(ByPlane(g, a)) == a && |ByPlane(g, a)| == 2
    ensures forall x :: x in ByPlane(g, a)[0] && x in g.rows ==> g.rows[x].plane == Issues
    ensures forall x :: x in ByPlane(g, a)[1] && x in g.rows ==> g.rows[x].plane == Wisps
  {
    var bs := ByPlane(g, a);
    assert bs[1..][1..] == [] && bs[1..][0] == bs[1];
    assert Union(bs[1..]) == bs[1] + Union([]);
  }
}
