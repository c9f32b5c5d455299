/** The database-free half of a batch: which requests it accepts before any row is read. */
module BatchPlan {

  import opened IssueGraph
  import opened Edits
  import opened Results
  import opened Verbs

  /** A row named by the key of a create in the same request, or by id. */
  datatype Ref = Ref(key: string, id: string)

  datatype Item =
    | CreateItem(key: string, id: string, row: Row, refs: map<string, Ref>)
    | UpdateItem(target: Ref, patch: Patch, expected: Option<int>, expectStatus: Option<Status>,
                 expectAssignee: Option<string>, forceTransfer: bool, forceClose: bool)
    | CloseItem(target: Ref, expected: Option<int>, force: bool)
    | DepAddItem(source: Ref, target: Ref, kind: Kind, gate: Gate)

  const MAX_ITEMS: nat := 100

  predicate OneOf(r: Ref) {
    (r.key == "") != (r.id == "")
  }

  predicate Declares(item: Item, key: string) {
    item.CreateItem? && item.key != "" && item.key == key
  }

  predicate DeclaredBefore(items: seq<Item>, n: nat, key: string)
    requires n <= |items|
  {
    exists j :: 0 <= j < n && Declares(items[j], key)
  }

  /** The item writes the row at this address. An edge writes neither endpoint's row. */
  predicate Touches(item: Item, address: Ref) {
    match item
    case CreateItem(key, id, _, _) => (key != "" && address == Ref(key, "")) || (id != "" && address == Ref("", id))
    case UpdateItem(target, _, _, _, _, _, _) => address == target
    case CloseItem(target, _, _) => address == target
    case DepAddItem(_, _, _, _) => false
  }

  predicate TouchedBefore(items: seq<Item>, n: nat, address: Ref)
    requires n <= |items|
  {
    exists j :: 0 <= j < n && Touches(items[j], address)
  }

  // ---------------------------------------------------------------- what a plan guarantees

  predicate DistinctKeys(items: seq<Item>) {
    forall i, j :: 0 <= i < j < |items| && items[i].CreateItem? && items[i].key != "" ==>
        !Declares(items[j], items[i].key)
  }

  /** A ref that addresses a row: one member set, and a key reaches backward. */
  predicate TargetPlanned(items: seq<Item>, i: nat, r: Ref)
    requires i < |items|
  {
    OneOf(r) && (r.key != "" ==> DeclaredBefore(items, i, r.key))
  }

  /** A ref that is only a value: its key may be declared anywhere. */
  predicate ValueRefPlanned(items: seq<Item>, name: string, r: Ref) {
    name != "" && OneOf(r) && (r.key != "" ==> DeclaredBefore(items, |items|, r.key))
  }

  predicate VersionPlanned(items: seq<Item>, i: nat, r: Ref, expected: Option<int>)
    requires i < |items|
  {
    expected.Some? ==> !TouchedBefore(items, i, r)
  }

  predicate ItemPlanned(items: seq<Item>, i: nat)
    requires i < |items|
  {
    match items[i]
    case CreateItem(_, _, _, refs) => forall name :: name in refs ==> ValueRefPlanned(items, name, refs[name])
    case UpdateItem(t, _, expected, _, _, _, _) => TargetPlanned(items, i, t) && VersionPlanned(items, i, t, expected)
    case CloseItem(t, expected, _) => TargetPlanned(items, i, t) && VersionPlanned(items, i, t, expected)
    case DepAddItem(s, t, kind, _) =>
      TargetPlanned(items, i, s) && TargetPlanned(items, i, t) && s != t && IsTyped(kind)
  }

  predicate WellPlanned(actor: string, items: seq<Item>) {
    && actor != "" && 0 < |items| <= MAX_ITEMS && DistinctKeys(items)
    && forall i :: 0 <= i < |items| ==> ItemPlanned(items, i)
  }

  /** The key table: each declared key, and the create that declares it. */
  predicate IsKeyIndex(items: seq<Item>, n: nat, index: map<string, nat>)
    requires n <= |items|
  {
    && (forall k :: k in index ==> index[k] < n && Declares(items[index[k]], k))
    && (forall j :: 0 <= j < n && items[j].CreateItem? && items[j].key != "" ==> items[j].key in index)
  }

  // ---------------------------------------------------------------- the planner

  /** A reported ref is really unresolvable, and is told apart as unknown or as later. */
  predicate ReportsBadRef(items: seq<Item>, why: Refusal) {
    why.RefError? ==>
      && why.index < |items|
      && !(items[why.index].CreateItem? && DeclaredBefore(items, |items|, why.key))
      && !DeclaredBefore(items, why.index, why.key)
      && (why.later <==> DeclaredBefore(items, |items|, why.key))
  }

  /** What is wrong with a ref that is to address a row. */
  predicate Faulty(items: seq<Item>, i: nat, r: Ref, why: Refusal)
    requires i < |items|
  {
    if (r.key == "") == (r.id == "") then why == Invalid
    else if r.key == "" then false
    else if !DeclaredBefore(items, |items|, r.key) then why == RefError(i, r.key, false)
    else !DeclaredBefore(items, i, r.key) && why == RefError(i, r.key, true)
  }

  /** What is wrong with the item, by the first rule it breaks: its refs as they are listed, then a
      guard on a row written before, or an edge from a row to itself, or a bad type. */
  predicate Explains(items: seq<Item>, i: nat, why: Refusal)
    requires i < |items|
  {
    match items[i]
    case CreateItem(_, _, _, refs) =>
      exists name :: name in refs && !ValueRefPlanned(items, name, refs[name]) &&
        why == if name == "" || !OneOf(refs[name]) then Invalid else RefError(i, refs[name].key, false)
    case UpdateItem(t, _, _, _, _, _, _) =>
      if TargetPlanned(items, i, t) then why == Invalid else Faulty(items, i, t, why)
    case CloseItem(t, _, _) => if TargetPlanned(items, i, t) then why == Invalid else Faulty(items, i, t, why)
    case DepAddItem(s, t, _, _) =>
      if !TargetPlanned(items, i, s) then Faulty(items, i, s, why)
      else if !TargetPlanned(items, i, t) then Faulty(items, i, t, why)
      else why == if s == t then SelfDependency else Invalid
  }

  /** What is wrong with the request: its shape or its keys, or else its first bad item. */
  predicate Diagnoses(actor: string, items: seq<Item>, why: Refusal) {
    if actor == "" || !(0 < |items| <= MAX_ITEMS) || !DistinctKeys(items) then why == Invalid
    else
      exists i :: && 0 <= i < |items| && (forall j :: 0 <= j < i ==> ItemPlanned(items, j))
                  && !ItemPlanned(items, i) && Explains(items, i, why)
  }

  method IndexKeys(items: seq<Item>) returns (r: Outcome<map<string, nat>>)
    ensures r.Ok? <==> DistinctKeys(items)
    ensures r.Ok? ==> IsKeyIndex(items, |items|, r.value)
    ensures r.Refused? ==> r.why == Invalid
  {
    var index: map<string, nat> := map[];
    var i := 0;
    while i < |items|
      invariant 0 <= i <= |items|
      invariant IsKeyIndex(items, i, index) && DistinctKeys(items[..i])
    {
      if items[i].CreateItem? && items[i].key != "" {
        if items[i].key in index {
          assert Declares(items[index[items[i].key]], items[i].key) &&
                 Declares(items[i], items[index[items[i].key]].key);
          return Refused(Invalid);
        }
        index := index[items[i].key := i];
      }
      i := i + 1;
    }
    assert items[..i] == items;
    return Ok(index);
  }

  method PlanTarget(items: seq<Item>, i: nat, r: Ref, index: map<string, nat>) returns (refusal: Option<Refusal>)
    requires i < |items| && DistinctKeys(items) && IsKeyIndex(items, |items|, index)
    ensures refusal.None? <==> TargetPlanned(items, i, r)
    ensures refusal.Some? ==> Faulty(items, i, r, refusal.value)
    ensures refusal.Some? && !items[i].CreateItem? ==> ReportsBadRef(items, refusal.value)
  {
    if !OneOf(r) { return Some(Invalid); }
    if r.key == "" { return None; }
    if r.key !in index { return Some(RefError(i, r.key, false)); }
    if index[r.key] >= i {
      assert Declares(items[index[r.key]], r.key);
      return Some(RefError(i, r.key, true));
    }
    return None;
  }

  method PlanValueRefs(items: seq<Item>, i: nat, index: map<string, nat>) returns (refusal: Option<Refusal>)
    requires i < |items| && items[i].CreateItem? && IsKeyIndex(items, |items|, index)
    ensures refusal.None? <==> ItemPlanned(items, i)
    ensures refusal.Some? ==> ReportsBadRef(items, refusal.value) && Explains(items, i, refusal.value)
  {
    var refs := items[i].refs;
    var names := refs.Keys;
    while names != {}
      invariant names <= refs.Keys
      invariant forall name :: name in refs && name !in names ==> ValueRefPlanned(items, name, refs[name])
    {
      var name :| name in names;
      var r := refs[name];
      if name == "" || !OneOf(r) { assert !ValueRefPlanned(items, name, refs[name]); return Some(Invalid); }
      if r.key != "" && r.key !in index {
        assert !ValueRefPlanned(items, name, refs[name]);
        return Some(RefError(i, r.key, false));
      }
      names := names - {name};
    }
    return None;
  }

  /** The set of addresses written so far. */
  function Addresses(item: Item): set<Ref> {
    match item
    case CreateItem(key, id, _, _) => (if key != "" then {Ref(key, "")} else {}) +
        (if id != "" then {Ref("", id)} else {})
    case UpdateItem(target, _, _, _, _, _, _) => {target}
    case CloseItem(target, _, _) => {target}
    case DepAddItem(_, _, _, _) => {}
  }

  method PlanItem(items: seq<Item>, i: nat, index: map<string, nat>, touched: set<Ref>)
      returns (refusal: Option<Refusal>)
    requires i < |items| && DistinctKeys(items) && IsKeyIndex(items, |items|, index)
    requires forall a :: a in touched <==> TouchedBefore(items, i, a)
    ensures refusal.None? <==> ItemPlanned(items, i)
    ensures refusal.Some? ==> ReportsBadRef(items, refusal.value) && Explains(items, i, refusal.value)
  {
    match items[i]
    case CreateItem(_, _, _, _) =>
      refusal := PlanValueRefs(items, i, index);
    case UpdateItem(t, _, expected, _, _, _, _) =>
      refusal := PlanTarget(items, i, t, index);
      if refusal.None? && expected.Some? && t in touched { refusal := Some(Invalid); }
    case CloseItem(t, expected, _) =>
      refusal := PlanTarget(items, i, t, index);
      if refusal.None? && expected.Some? && t in touched { refusal := Some(Invalid); }
    case DepAddItem(s, t, kind, _) =>
      refusal := PlanTarget(items, i, s, index);
      if refusal.None? { refusal := PlanTarget(items, i, t, index); }
      if refusal.None? && s == t { refusal := Some(SelfDependency); }
      if refusal.None? && !IsTyped(kind) { refusal := Some(Invalid); }
  }

  /** The two passes: every key is known before any ref is checked, so a forward ref
      and an unknown one are different answers. */
  method PlanApplyBatch(actor: string, items: seq<Item>) returns (r: Outcome<map<string, nat>>)
    ensures r.Ok? <==> WellPlanned(actor, items)
    ensures r.Ok? ==> IsKeyIndex(items, |items|, r.value)
    ensures r.Refused? ==> ReportsBadRef(items, r.why) && Diagnoses(actor, items, r.why)
  {
    if actor == "" || |items| == 0 || |items| > MAX_ITEMS { return Refused(Invalid); }
    r := IndexKeys(items);
    if r.Refused? { return; }
    var touched: set<Ref> := {};
    var i := 0;
    while i < |items|
      invariant 0 <= i <= |items|
      invariant forall j :: 0 <= j < i ==> ItemPlanned(items, j)
      invariant forall a :: a in touched <==> TouchedBefore(items, i, a)
    {
      var refusal := PlanItem(items, i, r.value, touched);
      if refusal.Some? { return Refused(refusal.value); }
      touched := touched + Addresses(items[i]);
      i := i + 1;
    }
  }

  // ---------------------------------------------------------------- the plan, off the request

  /** Item j is a create that declares this key. */
  ghost predicate Keys(items: seq<Item>, j: int, key: string) {
    0 <= j < |items| && items[j].CreateItem? && items[j].key == key && key != ""
  }

  /** Exactly one of the two ways to name a row is used. */
  ghost predicate NamesOne(ref: Ref) {
    (ref.key != "" && ref.id == "") || (ref.key == "" && ref.id != "")
  }

  /** Item j writes the row this ref names, as far as the request shows. */
  ghost predicate SeenToWrite(items: seq<Item>, j: int, ref: Ref) {
    && 0 <= j < |items|
    && (|| (items[j].CreateItem? && ref.id == "" && items[j].key == ref.key && ref.key != "")
        || (items[j].CreateItem? && ref.key == "" && items[j].id == ref.id && ref.id != "")
        || ((items[j].UpdateItem? || items[j].CloseItem?) && items[j].target == ref))
  }

  /** A row to work on: named one way, by a key only if an earlier item declares it. */
  ghost predicate Reachable(items: seq<Item>, i: int, ref: Ref) {
    NamesOne(ref) && (ref.key != "" ==> exists j :: j < i && Keys(items, j, ref.key))
  }

  ghost predicate InOrder(items: seq<Item>, i: int)
    requires 0 <= i < |items|
  {
    match items[i]
    case CreateItem(_, _, _, refs) =>
      forall name :: name in refs ==>
        name != "" && NamesOne(refs[name]) && (refs[name].key != "" ==> exists j :: Keys(items, j, refs[name].key))
    case UpdateItem(t, _, expected, _, _, _, _) =>
      Reachable(items, i, t) && (expected.Some? ==> forall j :: j < i ==> !SeenToWrite(items, j, t))
    case CloseItem(t, expected, _) =>
      Reachable(items, i, t) && (expected.Some? ==> forall j :: j < i ==> !SeenToWrite(items, j, t))
    case DepAddItem(s, t, kind, _) =>
      Reachable(items, i, s) && Reachable(items, i, t) && s != t && (kind.Other? ==> 1 <= |kind.name| <= 32)
  }

  lemma {:induction false} ReachableIs(items: seq<Item>, i: nat, ref: Ref)
    requires i < |items|
    ensures Reachable(items, i, ref) <==> TargetPlanned(items, i, ref)
  {
    if ref.key != "" && DeclaredBefore(items, i, ref.key) {
      var j :| 0 <= j < i && Declares(items[j], ref.key);
      assert Keys(items, j, ref.key);
    }
    if ref.key != "" && exists j :: j < i && Keys(items, j, ref.key) {
      var j :| j < i && Keys(items, j, ref.key);
      assert Declares(items[j], ref.key);
    }
  }

  lemma {:induction false} UnwrittenIs(items: seq<Item>, i: nat, ref: Ref)
    requires i < |items| && NamesOne(ref)
    ensures (forall j :: j < i ==> !SeenToWrite(items, j, ref)) <==> !TouchedBefore(items, i, ref)
  {
    forall j | 0 <= j < i ensures SeenToWrite(items, j, ref) <==> Touches(items[j], ref) { }
    if TouchedBefore(items, i, ref) {
      var j :| 0 <= j < i && Touches(items[j], ref);
      assert SeenToWrite(items, j, ref);
    }
  }

  lemma {:induction false} InOrderIs(items: seq<Item>, i: nat)
    requires i < |items|
    ensures InOrder(items, i) <==> ItemPlanned(items, i)
  {
    match items[i]
    case CreateItem(_, _, _, refs) =>
      forall key ensures (exists j :: Keys(items, j, key)) <==> key != "" && DeclaredBefore(items, |items|, key) {
        if key != "" && DeclaredBefore(items, |items|, key) {
          var j :| 0 <= j < |items| && Declares(items[j], key);
          assert Keys(items, j, key);
        }
        if j :| Keys(items, j, key) { assert Declares(items[j], key); }
      }
      forall name | name in refs ensures NamesOne(refs[name]) <==> OneOf(refs[name]) { }
    case UpdateItem(t, _, _, _, _, _, _) =>
      ReachableIs(items, i, t);
      if NamesOne(t) { UnwrittenIs(items, i, t); }
    case CloseItem(t, _, _) =>
      ReachableIs(items, i, t);
      if NamesOne(t) { UnwrittenIs(items, i, t); }
    case DepAddItem(s, t, _, _) =>
      ReachableIs(items, i, s);
      ReachableIs(items, i, t);
  }

  /** THE PLAN, PLAINLY: an actor, one to a hundred items, no key declared twice, and every item
      in order. */
  lemma {:induction false} PlannedPlainly(actor: string, items: seq<Item>)
    ensures WellPlanned(actor, items) <==>
            && actor != "" && 1 <= |items| <= 100
            && (forall i, j, key :: Keys(items, i, key) && Keys(items, j, key) ==> i == j)
            && (forall i :: 0 <= i < |items| ==> InOrder(items, i))
  {
    forall i | 0 <= i < |items| ensures InOrder(items, i) <==> ItemPlanned(items, i) { InOrderIs(items, i); }
    if DistinctKeys(items) {
      forall i, j, key | Keys(items, i, key) && Keys(items, j, key) ensures i == j {
        assert Declares(items[i], items[j].key) && Declares(items[j], items[i].key);
      }
    } else {
      var i, j :| && 0 <= i < j < |items| && items[i].CreateItem? && items[i].key != ""
                  && Declares(items[j], items[i].key);
      assert Keys(items, i, items[i].key) && Keys(items, j, items[i].key);
    }
  }
}
