/** What counts as a call of CONCAT, byte by byte, and what one turn makes of it. */
module ConcatCalls {
  import opened Text
  import opened Concat
  import opened ConcatArgs

  predicate AreBlank(q: string, i: nat, e: nat) {
    forall k :: i <= k < e && k < |q| ==> q[k] == ' ' || q[k] == '\t' || q[k] == '\n' || q[k] == '\r' || q[k] as int == 12
  }

  /** From `i` to its parenthesis at `e`: the word in any case, with no identifier byte before it, then blanks. */
  predicate IsCall(q: string, i: nat, e: nat) {
    && i + 6 <= e < |q| && SameWord(q[i..i + 6], "CONCAT") && AreBlank(q, i + 6, e) && q[e] == '('
    && (i > 0 ==> !(q[i - 1] == '_' || '0' <= q[i - 1] <= '9' || 'a' <= q[i - 1] <= 'z' || 'A' <= q[i - 1] <= 'Z'))
  }

  lemma SpellsIff(q: string, i: nat)
    ensures SpellsAt(q, i) <==> i + 6 <= |q| && SameWord(q[i..i + 6], "CONCAT")
  {
    if i + 6 <= |q| {
      var w := q[i..i + 6];
      SameWordIff(w, "CONCAT");
      assert forall k :: 0 <= k < 6 ==> Upper(w)[k] == UpperChar(q[i + k]);
    }
  }

  lemma {:induction false} OpenIff(q: string, i: nat, e: nat)
    requires i <= |q|
    ensures OpenAfter(q, i) == Some(e) <==> i <= e < |q| && AreBlank(q, i, e) && q[e] == '('
    decreases |q| - i
  {
    if i < |q| && q[i] != '(' && IsBlank(q[i]) {
      OpenIff(q, i + 1, e);
    }
  }

  /** A match is a call, and its parenthesis the one that is read. */
  lemma MatchIff(q: string, i: nat, e: nat)
    ensures MatchAt(q, i) && OpenAfter(q, i + 6) == Some(e) <==> IsCall(q, i, e)
  {
    SpellsIff(q, i);
    if i + 6 <= |q| {
      OpenIff(q, i + 6, e);
    }
  }

  /** When the loop stops on a text that still has a call, the first one has no matching parenthesis. */
  lemma NoCallIsLeft(q: string, i: nat, e: nat) returns (at: nat, open: nat)
    requires IsCall(q, i, e) && Turn(q).None?
    ensures at <= i && IsCall(q, at, open) && forall k :: open <= k < |q| ==> !AtCallLevel(q, open, k, ')')
  {
    MatchIff(q, i, e);
    at := FindConcat(q, 0).value;
    open := OpenAfter(q, at + 6).value;
    MatchIff(q, at, open);
    SplitIsTopLevel(q, open);
  }

  /** One turn turns the first call into its arguments in parentheses, with bars between them. */
  lemma TurnBars(q: string) returns (at: nat, open: nat, end: nat, args: seq<string>)
    requires Turn(q).Some?
    ensures IsCall(q, at, open) && forall i: nat, e: nat :: i < at ==> !IsCall(q, i, e)
    ensures IsMatching(q, open, end) && ArePieces(q, Bounds(q, open, end) + [end], args)
    ensures Turn(q).value == q[..at] + ("(" + (Join(args, if |args| < 2 then " " else " || ") + (")" + q[end + 1..])))
  {
    at := FindConcat(q, 0).value;
    open := OpenAfter(q, at + 6).value;
    var split := SplitArgs(q, open).value;
    end, args := split.end, split.args;
    MatchIff(q, at, open);
    SplitIsTopLevel(q, open);
    forall i: nat, e: nat | i < at ensures !IsCall(q, i, e) {
      MatchIff(q, i, e);
    }
  }
}
