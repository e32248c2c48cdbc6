/** The statements of a payload are the texts between its separators: none is lost, cut or made up. */
module PgStatements {
  import opened Text
  import opened PgRegions
  import opened PgSplit

  // ---- Separators -----------------------------------------------------------------------------

  /** The end of what starts at `i`: a protected region, a line comment, or one byte. */
  function Past(s: string, i: nat): (r: nat)
    requires i < |s|
    ensures i < r <= |s|
  {
    if RegionLen(s[i..]) > 0 then i + RegionLen(s[i..])
    else if s[i] == '-' && i + 1 < |s| && s[i + 1] == '-' then
      assert s[i..][1..] == s[i + 1..];
      i + CommentLen(s[i..])
    else i + 1
  }

  /** Position `p` is inside no region and no comment. */
  predicate IsOutside(s: string, i: nat, p: nat)
    requires i <= |s|
    decreases |s| - i
  {
    i == p || (i < |s| && IsOutside(s, Past(s, i), p))
  }

  predicate IsSeparator(s: string, p: nat) { p < |s| && s[p] == ';' && IsOutside(s, 0, p) }

  /** The separators from `i` on. */
  function Separators(s: string, i: nat): (ps: seq<nat>)
    requires i <= |s|
    ensures forall k :: 0 <= k < |ps| ==> i <= ps[k] < |s|
    ensures forall j, k :: 0 <= j < k < |ps| ==> ps[j] < ps[k]
    decreases |s| - i
  {
    if i == |s| then []
    else if s[i] == ';' then [i] + Separators(s, i + 1)
    else Separators(s, Past(s, i))
  }

  lemma {:induction false} OutsideIsBehind(s: string, i: nat, p: nat)
    requires i <= |s| && IsOutside(s, i, p)
    ensures i <= p
    decreases |s| - i
  {
    if i != p {
      OutsideIsBehind(s, Past(s, i), p);
    }
  }

  lemma {:induction false} SeparatorsFrom(s: string, i: nat, p: nat)
    requires i <= |s|
    ensures p in Separators(s, i) <==> p < |s| && s[p] == ';' && IsOutside(s, i, p)
    decreases |s| - i
  {
    if i < |s| {
      SeparatorsFrom(s, Past(s, i), p);
      if IsOutside(s, Past(s, i), p) {
        OutsideIsBehind(s, Past(s, i), p);
      }
    }
  }

  /** They are all the semicolons outside regions and comments, in order. */
  lemma SeparatorsAreAll(s: string, p: nat)
    ensures p in Separators(s, 0) <==> IsSeparator(s, p)
  {
    SeparatorsFrom(s, 0, p);
  }

  // ---- Trimming -------------------------------------------------------------------------------

  predicate IsWhite(c: char) { c == ' ' || c == '\t' || c == '\n' || c == '\r' || c as int == 11 || c as int == 12 }

  predicate AreWhite(x: string, lo: nat, hi: nat) { forall k :: lo <= k < hi && k < |x| ==> IsWhite(x[k]) }

  /** `t` is what is left of `x` from `n` on, without the white space at either end. */
  predicate IsTrimmedAt(x: string, t: string, n: nat) {
    && At(x, n, t) && AreWhite(x, 0, n) && AreWhite(x, n + |t|, |x|)
    && (t != "" ==> !IsWhite(t[0]) && !IsWhite(t[|t| - 1]))
  }

  /** `t` is `x` without the white space around it. */
  predicate IsTrimmed(x: string, t: string) { exists n | 0 <= n <= |x| :: IsTrimmedAt(x, t, n) }

  predicate IsLeftTrimmed(x: string, t: string, n: nat) {
    |x| == n + |t| && At(x, n, t) && AreWhite(x, 0, n) && (t != "" ==> !IsWhite(t[0]))
  }

  lemma {:induction false} LeftTrims(x: string)
    ensures |TrimLeft(x)| <= |x| && IsLeftTrimmed(x, TrimLeft(x), |x| - |TrimLeft(x)|)
  {
    if x != "" && IsSpace(x[0]) {
      LeftTrims(x[1..]);
      LeftMore(x, TrimLeft(x[1..]));
    } else {
      NothingTrims(x);
    }
  }

  lemma NothingTrims(x: string)
    requires x != "" ==> !IsWhite(x[0])
    ensures IsLeftTrimmed(x, x, 0)
  {
  }

  lemma LeftMore(x: string, t: string)
    requires x != "" && IsWhite(x[0]) && |t| < |x| && IsLeftTrimmed(x[1..], t, |x| - 1 - |t|)
    ensures IsLeftTrimmed(x, t, |x| - |t|)
  {
    forall k | 0 <= k < |x| ensures k > 0 ==> x[k] == x[1..][k - 1] {
    }
    forall k | 0 <= k < |t| ensures x[|x| - |t| + k] == t[k] {
      assert x[1..][|x| - 1 - |t| + k] == t[k];
    }
  }

  predicate IsRightTrimmed(x: string, t: string) {
    t <= x && AreWhite(x, |t|, |x|) && (t != "" ==> !IsWhite(t[|t| - 1]))
  }

  lemma {:induction false} RightTrims(x: string)
    ensures IsRightTrimmed(x, TrimRight(x))
  {
    if x != "" && IsSpace(x[|x| - 1]) {
      RightTrims(x[..|x| - 1]);
    }
  }

  lemma TrimTrims(x: string)
    ensures IsTrimmed(x, TrimSpace(x))
  {
    var y, t := TrimLeft(x), TrimSpace(x);
    var n := |x| - |y|;
    LeftTrims(x);
    RightTrims(y);
    BothTrim(x, y, t, n);
  }

  lemma BothTrim(x: string, y: string, t: string, n: nat)
    requires IsLeftTrimmed(x, y, n) && IsRightTrimmed(y, t)
    ensures IsTrimmedAt(x, t, n)
  {
    forall k | n <= k < |x| ensures x[k] == y[k - n] {
      AtChar(x, n, y, k - n);
    }
  }

  // ---- The texts between them -----------------------------------------------------------------

  /** The texts from `from` on that the separators `ps` leave. */
  function Between(s: string, from: nat, ps: seq<nat>): (texts: seq<string>)
    ensures |texts| == |ps| + 1
    decreases |ps|
  {
    if ps == [] then [Slice(s, from, |s|)]
    else [Slice(s, from, ps[0])] + Between(s, ps[0] + 1, ps[1..])
  }

  /** Text `k` stands between separators `k - 1` and `k`. */
  lemma {:induction false} TextBetween(s: string, from: nat, ps: seq<nat>, k: nat)
    requires k <= |ps| && from <= |s| && (forall j :: 0 <= j < |ps| ==> from <= ps[j] < |s|)
    requires forall i, j :: 0 <= i < j < |ps| ==> ps[i] < ps[j]
    ensures var lo, hi := if k == 0 then from else ps[k - 1] + 1, if k == |ps| then |s| else ps[k];
            lo <= hi <= |s| && Between(s, from, ps)[k] == s[lo..hi]
    decreases k
  {
    if k > 0 {
      TextBetween(s, ps[0] + 1, ps[1..], k - 1);
    }
  }

  /** `out` are the texts without the white space around them, in order; blank ones are left out. */
  predicate AreStatements(out: seq<string>, texts: seq<string>)
    decreases |texts|
  {
    if texts == [] then out == []
    else if AreWhite(texts[0], 0, |texts[0]|) then AreStatements(out, texts[1..])
    else out != [] && IsTrimmed(texts[0], out[0]) && AreStatements(out[1..], texts[1..])
  }

  lemma TrimsToNothing(x: string)
    ensures TrimSpace(x) == "" <==> AreWhite(x, 0, |x|)
  {
    TrimTrims(x);
    var n :| 0 <= n <= |x| && IsTrimmedAt(x, TrimSpace(x), n);
    if TrimSpace(x) != "" {
      AtChar(x, n, TrimSpace(x), 0);
    }
  }

  lemma FlushedMore(text: string, out: seq<string>, texts: seq<string>)
    requires AreStatements(out, texts)
    ensures AreStatements(Flushed(text) + out, [text] + texts)
  {
    assert ([text] + texts)[1..] == texts;
    TrimsToNothing(text);
    if TrimSpace(text) == "" {
      assert [] + out == out;
    } else {
      TrimTrims(text);
      assert ([TrimSpace(text)] + out)[1..] == out;
    }
  }

  lemma Scans(s: string, start: nat, i: nat)
    requires start <= i < |s|
    ensures if s[i] == ';' then Cut(Normal, s, start, i) == More(start, i, Cut(Normal, s, i + 1, i + 1))
            else Cut(Normal, s, start, i) == Cut(Normal, s, start, Past(s, i))
  {
    if s[i] == ';' {
      Separate(Normal, s, start, i);
    } else if RegionLen(s[i..]) > 0 {
      CutRegion(s, start, i);
    } else if s[i] == '-' && i + 1 < |s| && s[i + 1] == '-' {
      CutLineComment(s, start, i);
    } else {
      CutPlain(s, start, i);
    }
  }

  lemma LastText(s: string, start: nat)
    requires start <= |s|
    ensures AreStatements(Statements(s, Last(start)), Between(s, start, []))
  {
    FlushedMore(Slice(s, start, |s|), [], []);
    assert Flushed(Slice(s, start, |s|)) + [] == Flushed(Slice(s, start, |s|));
    assert [Slice(s, start, |s|)] + [] == [Slice(s, start, |s|)];
  }

  lemma FirstText(s: string, start: nat, i: nat, fs: Fragments, ps: seq<nat>)
    requires AreStatements(Statements(s, fs), Between(s, i + 1, ps))
    ensures AreStatements(Statements(s, More(start, i, fs)), Between(s, start, [i] + ps))
  {
    assert Between(s, start, [i] + ps) == [Slice(s, start, i)] + Between(s, i + 1, ps) by {
      assert ([i] + ps)[1..] == ps;
    }
    FlushedMore(Slice(s, start, i), Statements(s, fs), Between(s, i + 1, ps));
  }

  lemma {:induction false} CutsAtSeparators(s: string, start: nat, i: nat)
    requires start <= i <= |s|
    ensures AreStatements(Statements(s, Cut(Normal, s, start, i)), Between(s, start, Separators(s, i)))
    decreases |s| - i
  {
    if i == |s| {
      LastText(s, start);
    } else {
      Scans(s, start, i);
      if s[i] == ';' {
        CutsAtSeparators(s, i + 1, i + 1);
        FirstText(s, start, i, Cut(Normal, s, i + 1, i + 1), Separators(s, i + 1));
      } else {
        CutsAtSeparators(s, start, Past(s, i));
      }
    }
  }

  /** For every payload: the statements are the texts between neighbouring separators, without the white
      space around them, in order, and every text left out is blank. */
  lemma SplitIsBetween(s: string)
    ensures AreStatements(Split(s), Between(s, 0, Separators(s, 0)))
  {
    CutsAtSeparators(s, 0, 0);
  }
}
