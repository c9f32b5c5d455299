/** Recovering the holder or the status from the text of a claim refusal. */
module ClaimParser {

  const ALREADY_CLAIMED := "issue already claimed" + " by "
  const NOT_CLAIMABLE := "issue not claimable" + ": status "

  predicate IsBound(c: char) {
    c == ' ' || c == '\t' || c == '\r' || c == '\n' || c == '('
  }

  predicate IsToken(t: string) {
    forall i :: 0 <= i < |t| ==> !IsBound(t[i])
  }

  predicate OccursAt(s: string, marker: string, i: int) {
    0 <= i && i + |marker| <= |s| && s[i..i + |marker|] == marker
  }

  /** The last occurrence at or below i, or -1. */
  function LastIndexFrom(s: string, marker: string, i: int): (j: int)
    ensures -1 <= j && (j >= 0 ==> j <= i && OccursAt(s, marker, j))
    ensures forall k :: j < k <= i ==> !OccursAt(s, marker, k)
    decreases if i < 0 then 0 else i + 1
  {
    if i < 0 then -1 else if OccursAt(s, marker, i) then i else LastIndexFrom(s, marker, i - 1)
  }

  function TailAfter(s: string, marker: string): string {
    var i := LastIndexFrom(s, marker, |s|);
    if i < 0 || !IsToken(s[i + |marker|..]) then "" else s[i + |marker|..]
  }

  /** The refusal a message wraps, as the error chain answers. */
  datatype Refusal = Refusal(wrapsClaimed: bool, wrapsNotClaimable: bool, message: string)
  datatype Conflict = Conflict(assignee: string, status: string)

  function ParseClaimConflict(e: Refusal): (Conflict, bool) {
    if e.wrapsClaimed then (Conflict(TailAfter(e.message, ALREADY_CLAIMED), ""), true)
    else if e.wrapsNotClaimable then (Conflict("", TailAfter(e.message, NOT_CLAIMABLE)), true)
    else (Conflict("", ""), false)
  }

  /** A marker that ends in a space occurs nowhere inside or across a token. */
  lemma {:induction false} NoLaterOccurrence(context: string, marker: string, token: string, k: int)
    requires marker != "" && marker[|marker| - 1] == ' ' && IsToken(token) && k > |context|
    ensures !OccursAt(context + marker + token, marker, k)
  {
    var s := context + marker + token;
    if k + |marker| <= |s| {
      var end := k + |marker| - 1;
      assert s[end] == token[end - |context| - |marker|];
      assert s[k..k + |marker|][|marker| - 1] == s[end];
    }
  }

  /** No blank, tab, line end or opening parenthesis. */
  ghost predicate Unbroken(token: string) {
    forall c :: c in token ==> c !in {' ', '\t', '\r', '\n', '('}
  }

  lemma {:induction false} TokenIs(token: string)
    ensures IsToken(token) <==> Unbroken(token)
  {
    if Unbroken(token) {
      forall i | 0 <= i < |token| ensures !IsBound(token[i]) { assert token[i] in token; }
    }
    forall c | IsToken(token) && c in token ensures !IsBound(c) {
      var i :| 0 <= i < |token| && token[i] == c;
    }
  }

  /** THE ROUND TRIP IS EXACT: a token is recovered if and only if the message ends in the
      marker and that token; whatever is prepended, and wherever else the marker occurs. */
  lemma {:induction false} TailIsExact(s: string, marker: string, token: string)
    requires marker != "" && marker[|marker| - 1] == ' ' && token != ""
    ensures TailAfter(s, marker) == token <==>
            Unbroken(token) && |marker| + |token| <= |s| && s[|s| - |token|..] == token &&
                OccursAt(s, marker, |s| - |token| - |marker|)
  {
    TokenIs(token);
    var at := |s| - |token| - |marker|;
    if IsToken(token) && at >= 0 && s[|s| - |token|..] == token && OccursAt(s, marker, at) {
      LastIsAt(s, marker, token, at);
    }
  }

  lemma {:induction false} LastIsAt(s: string, marker: string, token: string, at: nat)
    requires marker != "" && marker[|marker| - 1] == ' ' && IsToken(token) && at + |marker| + |token| == |s|
    requires s[|s| - |token|..] == token && OccursAt(s, marker, at)
    ensures LastIndexFrom(s, marker, |s|) == at
  {
    var context := s[..at];
    assert s == context + marker + token;
    forall k | k > at ensures !OccursAt(s, marker, k) { NoLaterOccurrence(context, marker, token, k); }
  }

  /** Both refusals parse back to exactly what the claim reported, under any prepended context. */
  lemma {:induction false} ParsesBack(context: string, token: string)
    requires token != "" && Unbroken(token)
    ensures ParseClaimConflict(Refusal(true, false, context + ALREADY_CLAIMED + token)) == (Conflict(token, ""), true)
    ensures ParseClaimConflict(Refusal(false, true, context + NOT_CLAIMABLE + token)) == (Conflict("", token), true)
    ensures ParseClaimConflict(Refusal(false, false, context + ALREADY_CLAIMED + token)) == (Conflict("", ""), false)
  {
    TokenIs(token);
    TailOf(context, ALREADY_CLAIMED, token);
    TailOf(context, NOT_CLAIMABLE, token);
  }

  lemma {:induction false} TailOf(context: string, marker: string, token: string)
    requires marker != "" && marker[|marker| - 1] == ' ' && token != "" && IsToken(token)
    ensures TailAfter(context + marker + token, marker) == token
  {
    var s := context + marker + token;
    var at := |s| - |token| - |marker|;
    assert s[at..at + |marker|] == marker;
    TailIsExact(s, marker, token);
  }

  /** The refusal of an open row that is assigned to someone: the holder, quoted, and advice
      whose last words are these. */
  function AssignedMessage(context: string, quoted: string, advice: string): string {
    context + "issue already claimed" + ": already assigned to " + quoted + advice + " bd reclaim"
  }

  /** That form carries no token: it parses as a claim conflict with an empty holder,
      whatever the holder, the advice and the prepended context contain. */
  lemma {:induction false} AssignedHasNoToken(context: string, quoted: string, advice: string)
    ensures ParseClaimConflict(Refusal(true, false, AssignedMessage(context, quoted, advice))) ==
            (Conflict("", ""), true)
  {
    EndsOff(context + "issue already claimed" + ": already assigned to " + quoted + advice);
  }

  lemma {:induction false} EndsOff(s: string)
    ensures TailAfter(s + " bd reclaim", ALREADY_CLAIMED) == ""
  {
    var m := s + " bd reclaim";
    var i := LastIndexFrom(m, ALREADY_CLAIMED, |m|);
    if i >= 0 {
      MarkerEndsEarly(s, i);
      assert m[i + |ALREADY_CLAIMED|..][|s| + 3 - i - |ALREADY_CLAIMED|] == m[|s| + 3] == " bd reclaim"[3] == ' ';
    }
  }

  /** The marker ends in "by " and so never at the last blank of the advice. */
  lemma {:induction false} MarkerEndsEarly(s: string, i: nat)
    requires OccursAt(s + " bd reclaim", ALREADY_CLAIMED, i)
    ensures i + |ALREADY_CLAIMED| <= |s| + 3
  {
    var m, n := s + " bd reclaim", |ALREADY_CLAIMED|;
    assert m[i..i + n][n - 1] == m[i + n - 1] == ' ' && m[i..i + n][n - 2] == m[i + n - 2] == 'y';
    assert forall k :: |s| <= k < |m| ==> m[k] == " bd reclaim"[k - |s|];
    assert forall k :: 4 <= k < 11 ==> " bd reclaim"[k] != ' ';
  }
}
