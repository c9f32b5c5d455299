/** Actor identity: two spellings that differ only in runs of separators name one holder. */
module Identity {

  predicate IsSeparator(c: char) {
    c == '.' || c == '_' || c == '-'
  }

  /** One canonical separator per run; inRun says the previous character was a separator. */
  function Canonical(s: string, inRun: bool): string {
    if s == "" then ""
    else if IsSeparator(s[0]) then (if inRun then "" else "_") + Canonical(s[1..], true)
    else [s[0]] + Canonical(s[1..], false)
  }

  /** One character of the loop. */
  function Next(c: char, inRun: bool): string {
    if !IsSeparator(c) then [c] else if inRun then "" else "_"
  }

  lemma {:induction false} CanonicalStep(s: string, i: nat, inRun: bool, done: string)
    requires i < |s|
    ensures done + Canonical(s[i..], inRun) == done + Next(s[i], inRun) + Canonical(s[i + 1..], IsSeparator(s[i]))
  {
    assert s[i..][1..] == s[i + 1..] && s[i..][0] == s[i];
  }

  method CanonicalActor(s: string) returns (r: string)
    ensures r == Canonical(s, false)
  {
    r := "";
    var inRun := false;
    var i := 0;
    assert s[0..] == s;
    while i < |s|
      invariant 0 <= i <= |s|
      invariant r + Canonical(s[i..], inRun) == Canonical(s, false)
    {
      CanonicalStep(s, i, inRun, r);
      if IsSeparator(s[i]) {
        if !inRun {
          r := r + "_";
          inRun := true;
        } else {
          assert r + "" == r;
        }
      } else {
        r := r + [s[i]];
        inRun := false;
      }
      i := i + 1;
    }
  }

  predicate ActorMatches(a: string, b: string) {
    a == b || Canonical(a, false) == Canonical(b, false)
  }

  // ---------------------------------------------------------------- exactly what is forgiven

  /** The maximal stretches without a separator, with cur the one already begun. */
  function Segments(s: string, cur: string): seq<string> {
    if s == "" then Begun(cur)
    else if IsSeparator(s[0]) then Begun(cur) + Segments(s[1..], "")
    else Segments(s[1..], cur + [s[0]])
  }

  function Begun(cur: string): seq<string> {
    if cur == "" then [] else [cur]
  }

  predicate Leads(s: string) {
    s != "" && IsSeparator(s[0])
  }

  predicate Trails(s: string) {
    s != "" && IsSeparator(s[|s| - 1])
  }

  /** The same segments in the same order, and separators at the same ends. */
  predicate SameActor(a: string, b: string) {
    Segments(a, "") == Segments(b, "") && Leads(a) == Leads(b) && Trails(a) == Trails(b)
  }

  /** Segments with one separator between each two. */
  function Joined(segments: seq<string>): string {
    if segments == [] then "" else if |segments| == 1 then segments[0]
    else segments[0] + "_" + Joined(segments[1..])
  }

  function Tail(s: string): string {
    if Trails(s) then "_" else ""
  }

  lemma {:induction false} SegmentsBegin(s: string, cur: string)
    requires cur != ""
    ensures Segments(s, cur) != []
    decreases |s|
  {
    if s != "" && !IsSeparator(s[0]) { SegmentsBegin(s[1..], cur + [s[0]]); }
  }

  lemma {:induction false} JoinedStep(first: string, rest: seq<string>)
    ensures Joined([first] + rest) == if rest == [] then first else first + "_" + Joined(rest)
  {
    assert ([first] + rest)[1..] == rest;
  }

  /** In the middle of a segment, what is still to come joins on to it. */
  lemma {:induction false} RenderOpen(s: string, cur: string)
    requires cur != ""
    ensures cur + Canonical(s, false) == Joined(Segments(s, cur)) + Tail(s)
    decreases |s|
  {
    if s == "" {
      assert Segments(s, cur) == [cur] && cur + "" == cur + "";
    } else if IsSeparator(s[0]) {
      RenderRun(s[1..]);
      RenderClose(s, cur);
    } else {
      RenderOpen(s[1..], cur + [s[0]]);
      assert cur + ([s[0]] + Canonical(s[1..], false)) == cur + [s[0]] + Canonical(s[1..], false);
      TailStep(s);
    }
  }

  /** A separator closes the segment. */
  lemma {:induction false} RenderClose(s: string, cur: string)
    requires cur != "" && s != "" && IsSeparator(s[0])
    requires var rest := s[1..];
             && Canonical(rest, true) ==
                (if Segments(rest, "") == [] then "" else Joined(Segments(rest, "")) + Tail(rest))
             && (Segments(rest, "") == [] <==> forall c :: c in rest ==> IsSeparator(c))
    ensures cur + Canonical(s, false) == Joined(Segments(s, cur)) + Tail(s)
  {
    var rest := s[1..];
    var more := Segments(rest, "");
    JoinedStep(cur, more);
    TailStep(s);
    assert Segments(s, cur) == [cur] + more && Canonical(s, false) == "_" + Canonical(rest, true);
    if more == [] {
      assert rest != "" ==> rest[|rest| - 1] in rest;
      assert cur + ("_" + "") == cur + "_";
    } else {
      assert cur + ("_" + (Joined(more) + Tail(rest))) == cur + "_" + Joined(more) + Tail(rest);
    }
  }

  /** Inside a run nothing is owed but what follows it. */
  lemma {:induction false} RenderRun(s: string)
    ensures Canonical(s, true) == if Segments(s, "") == [] then "" else Joined(Segments(s, "")) + Tail(s)
    ensures Segments(s, "") == [] <==> forall c :: c in s ==> IsSeparator(c)
    decreases |s|
  {
    if s != "" {
      if IsSeparator(s[0]) {
        RenderRun(s[1..]);
        assert [] + Segments(s[1..], "") == Segments(s[1..], "") &&
               "" + Canonical(s[1..], true) == Canonical(s[1..], true);
        assert forall c :: c in s <==> c == s[0] || c in s[1..];
        if Segments(s, "") != [] { TailStep(s); }
      } else {
        assert "" + [s[0]] == [s[0]];
        RenderOpen(s[1..], [s[0]]);
        SegmentsBegin(s[1..], [s[0]]);
        TailStep(s);
        assert s[0] in s;
      }
    }
  }

  lemma {:induction false} TailStep(s: string)
    requires s != ""
    ensures |s| > 1 ==> Tail(s) == Tail(s[1..])
    ensures |s| == 1 ==> Tail(s) == if IsSeparator(s[0]) then "_" else ""
  {
  }

  /** The canonical spelling is a function of the segments and the two ends alone. */
  lemma {:induction false} RenderAll(s: string)
    ensures Canonical(s, false) ==
            if Segments(s, "") == [] then (if Leads(s) then "_" else "")
            else (if Leads(s) then "_" else "") + Joined(Segments(s, "")) + Tail(s)
  {
    if s != "" {
      if IsSeparator(s[0]) {
        RenderRun(s[1..]);
        assert [] + Segments(s[1..], "") == Segments(s[1..], "");
        if Segments(s, "") != [] {
          TailStep(s);
          assert "_" + (Joined(Segments(s, "")) + Tail(s)) == "_" + Joined(Segments(s, "")) + Tail(s);
        }
      } else {
        assert "" + [s[0]] == [s[0]];
        RenderOpen(s[1..], [s[0]]);
        SegmentsBegin(s[1..], [s[0]]);
        TailStep(s);
        assert "" + Joined(Segments(s, "")) + Tail(s) == Joined(Segments(s, "")) + Tail(s);
      }
    }
  }

  /** The canonical spelling has the segments of the original. */
  lemma {:induction false} KeepsSegments(s: string, inRun: bool, cur: string)
    requires inRun ==> cur == ""
    ensures Segments(Canonical(s, inRun), cur) == Segments(s, cur)
    decreases |s|
  {
    if s != "" {
      var c, rest := s[0], s[1..];
      var done := Canonical(rest, IsSeparator(c));
      KeepsSegments(rest, IsSeparator(c), if IsSeparator(c) then "" else cur + [c]);
      if !IsSeparator(c) {
        assert ([c] + done)[1..] == done;
      } else if inRun {
        assert "" + done == done && Begun(cur) + Segments(rest, "") == Segments(rest, "");
      } else {
        assert ("_" + done)[1..] == done;
      }
    }
  }

  /** Whether the text so far ends in a separator; inRun stands for what came before it. */
  predicate EndsIn(s: string, inRun: bool) {
    if s == "" then inRun else IsSeparator(s[|s| - 1])
  }

  lemma {:induction false} EndsInStep(c: char, s: string, inRun: bool)
    ensures EndsIn([c] + s, inRun) == EndsIn(s, IsSeparator(c))
  {
  }

  /** And it ends as the original does. */
  lemma {:induction false} KeepsEnd(s: string, inRun: bool)
    ensures EndsIn(Canonical(s, inRun), inRun) == EndsIn(s, inRun)
    decreases |s|
  {
    if s != "" {
      var c, rest := s[0], s[1..];
      var done := Canonical(rest, IsSeparator(c));
      KeepsEnd(rest, IsSeparator(c));
      assert s == [c] + rest;
      EndsInStep(c, rest, inRun);
      EndsInStep(c, done, inRun);
      EndsInStep('_', done, inRun);
      assert "" + done == done;
    }
  }

  /** WHAT IS FORGIVEN, exactly: two spellings match if and only if they have the same
      segments in the same order and separators at the same ends. Any run may stand for any
      other, and nothing else is forgiven. */
  lemma {:induction false} MatchIsSameActor(a: string, b: string)
    ensures ActorMatches(a, b) <==> SameActor(a, b)
  {
    if ActorMatches(a, b) {
      KeepsSegments(a, false, "");
      KeepsSegments(b, false, "");
      KeepsEnd(a, false);
      KeepsEnd(b, false);
    } else if SameActor(a, b) {
      RenderAll(a);
      RenderAll(b);
    }
  }

  lemma {:induction false} MatchIsEquivalence(a: string, b: string, c: string)
    ensures ActorMatches(a, a) && (ActorMatches(a, b) ==> ActorMatches(b, a))
    ensures ActorMatches(a, b) && ActorMatches(b, c) ==> SameActor(a, c) && ActorMatches(a, c)
  {
    MatchIsSameActor(a, b);
    MatchIsSameActor(b, c);
    MatchIsSameActor(a, c);
  }

  // ---------------------------------------------------------------- by the characters

  /** A name without its dots, underscores and hyphens. */
  function Bare(s: string): string {
    if s == "" then "" else (if s[0] in {'.', '_', '-'} then "" else [s[0]]) + Bare(s[1..])
  }

  lemma {:induction false} BareIsFlat(s: string, cur: string)
    ensures Flat(Segments(s, cur)) == cur + Bare(s)
    decreases |s|
  {
    if s == "" {
      FlatBegun(cur, []);
    } else if IsSeparator(s[0]) {
      FlatBegun(cur, Segments(s[1..], ""));
      BareIsFlat(s[1..], "");
    } else {
      BareIsFlat(s[1..], cur + [s[0]]);
    }
  }

  function Flat(segments: seq<string>): string {
    if segments == [] then "" else segments[0] + Flat(segments[1..])
  }

  lemma {:induction false} FlatBegun(cur: string, rest: seq<string>)
    ensures Flat(Begun(cur) + rest) == cur + Flat(rest)
  {
    if cur == "" {
      assert Begun(cur) + rest == rest;
    } else {
      assert (Begun(cur) + rest)[0] == cur && (Begun(cur) + rest)[1..] == rest;
    }
  }

  /** Only dots, underscores and hyphens are forgiven, */
  lemma {:induction false} OnlyThreeForgiven(a: string, b: string)
    requires ActorMatches(a, b)
    ensures Bare(a) == Bare(b)
  {
    MatchIsSameActor(a, b);
    BareIsFlat(a, "");
    BareIsFlat(b, "");
    assert "" + Bare(a) == Bare(a) && "" + Bare(b) == Bare(b);
  }

  /** and each of the three stands for each other, once or several times. */
  lemma {:induction false} AnyOfThreeStands(before: string, after: string, c: char, d: char)
    requires c in {'.', '_', '-'} && d in {'.', '_', '-'}
    ensures ActorMatches(before + [c] + after, before + [d] + after)
    ensures ActorMatches(before + [c] + after, before + [c, d] + after)
  {
    Alike(before, [c] + after, [d] + after, false, c, d, after);
    assert before + [c] + after == before + ([c] + after) && before + [d] + after == before + ([d] + after);
    assert before + [c, d] + after == before + ([c, d] + after);
  }

  lemma {:induction false} Alike(before: string, x: string, y: string, inRun: bool, c: char, d: char, after: string)
    requires c in {'.', '_', '-'} && d in {'.', '_', '-'} && x == [c] + after && y == [d] + after
    ensures Canonical(before + x, inRun) == Canonical(before + y, inRun)
    ensures Canonical(before + x, inRun) == Canonical(before + ([c, d] + after), inRun)
    decreases |before|
  {
    if before == "" {
      assert before + x == x && before + y == y && before + ([c, d] + after) == [c, d] + after;
      assert x[1..] == after && y[1..] == after && ([c, d] + after)[1..] == y;
    } else {
      assert (before + x)[1..] == before[1..] + x && (before + y)[1..] == before[1..] + y;
      assert (before + ([c, d] + after))[1..] == before[1..] + ([c, d] + after);
      Alike(before[1..], x, y, IsSeparator(before[0]), c, d, after);
    }
  }
}
