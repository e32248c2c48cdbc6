/** When a dollar quote comes through the later Postgres passes, which do not know dollar quotes. */
module PgDollar {
  import opened Text
  import opened PgRegions
  import opened PgRewrite
  import opened PgTranslate
  import opened PgPlain
  import opened PgCasts

  // ---- The end of a dollar quote --------------------------------------------------------------

  lemma {:induction false} FoundText(t: string, d: string)
    requires Find(t, d).Some?
    ensures var v := Find(t, d).value;
            v + |d| <= |t| && t[v..v + |d|] == d
  {
    if !(d <= t) {
      FoundText(t[1..], d);
      var v := Find(t[1..], d).value;
      assert t[1..][v..v + |d|] == t[v + 1..v + 1 + |d|];
    }
  }

  /** A dollar quote runs to the end of the text or ends in `$`. */
  lemma DollarEnds(t: string)
    requires TagLen(t) > 0
    ensures var n := DollarLen(t, TagLen(t));
            0 < n <= |t| && (n < |t| ==> t[n - 1] == '$')
  {
    var k := TagLen(t);
    if Find(t[k..], t[..k]).Some? {
      FoundText(t[k..], t[..k]);
      var v := Find(t[k..], t[..k]).value;
      assert t[k..][v..v + k][k - 1] == t[..k][k - 1];
    }
  }

  // ---- The second pass ------------------------------------------------------------------------

  /** The scan meets no cast among the first `n` bytes. */
  predicate NoCastBefore(t: string, n: int)
    decreases |t|
  {
    t != "" && n > 0 ==> !AtCast(t) && NoCastBefore(t[StripLen(t)..], n - StripLen(t))
  }

  lemma CastFreeHead(o: string)
    requires IsCastFree(None, o)
    ensures !AtCast(o)
  {
  }

  /** The first `n` bytes of `t` are those of `o`. */
  predicate Keeps(t: string, n: nat, o: string)
    requires n <= |t|
  {
    n <= |o| && forall k :: 0 <= k < n ==> o[k] == t[k]
  }

  lemma KeepsIsPrefix(t: string, n: nat, o: string)
    requires n <= |t|
    ensures Keeps(t, n, o) <==> t[..n] <= o
  {
    if t[..n] <= o {
      assert forall k :: 0 <= k < n ==> o[k] == t[..n][k];
    }
  }

  /** Comparing behind a common piece. */
  lemma KeepsBehind(t: string, m: nat, n: nat, o: string)
    requires m <= |t| && n <= |t|
    ensures Keeps(t, n, t[..m] + o) <==> n <= m || Keeps(t[m..], n - m, o)
  {
    var u := t[..m] + o;
    assert forall k :: 0 <= k < m ==> u[k] == t[k];
    assert forall k :: 0 <= k < |o| ==> u[m + k] == o[k];
    assert forall k :: 0 <= k < |t| - m ==> t[m..][k] == t[m + k];
    if m < n && Keeps(t, n, u) {
      forall k | 0 <= k < n - m ensures o[k] == t[m..][k] {
        assert u[m + k] == t[m + k];
      }
    }
    if m < n && Keeps(t[m..], n - m, o) {
      forall k | 0 <= k < n ensures u[k] == t[k] {
        if k >= m {
          assert o[k - m] == t[m..][k - m];
        }
      }
    }
  }

  lemma CastIsMissed(t: string, n: nat)
    requires AtCast(t) && 0 < n <= |t| && (n < |t| ==> t[n - 1] != ':')
    ensures !Keeps(t, n, StripCasts(t))
  {
    var o := StripCasts(t[StripLen(t)..]);
    StripsCast(t);
    CastsAreGone(t[StripLen(t)..]);
    CastFreeHead(o);
    assert n >= 2;
  }

  lemma StripKeepsHead(t: string, n: nat)
    requires t != "" && n <= |t| && !AtCast(t)
    ensures var m := StripLen(t);
            Keeps(t, n, StripCasts(t)) <==> n <= m || Keeps(t[m..], n - m, StripCasts(t[m..]))
  {
    var m := StripLen(t);
    OtherStep(t);
    KeepsBehind(t, m, n, StripCasts(t[m..]));
  }

  lemma NoCastStep(t: string, n: nat)
    requires t != "" && n > 0
    ensures NoCastBefore(t, n) <==> !AtCast(t) && NoCastBefore(t[StripLen(t)..], n - StripLen(t))
  {
  }

  lemma NoCastBeforeNothing(t: string, n: int)
    requires n <= 0
    ensures NoCastBefore(t, n)
  {
  }

  lemma StripStepIff(t: string, m: nat, n: nat)
    requires t != "" && 0 < n <= |t| && !AtCast(t) && m == StripLen(t)
    requires m < n ==> (Keeps(t[m..], n - m, StripCasts(t[m..])) <==> NoCastBefore(t[m..], n - m))
    ensures Keeps(t, n, StripCasts(t)) <==> NoCastBefore(t, n)
  {
    StripKeepsHead(t, n);
    NoCastStep(t, n);
    if n <= m {
      NoCastBeforeNothing(t[m..], n - m);
    }
  }

  lemma {:induction false} PrefixStripsIff(t: string, n: nat)
    requires n <= |t| && (0 < n < |t| ==> t[n - 1] != ':')
    ensures Keeps(t, n, StripCasts(t)) <==> NoCastBefore(t, n)
    decreases |t|
  {
    if n == 0 {
      NoCastBeforeNothing(t, n);
    } else if AtCast(t) {
      CastIsMissed(t, n);
    } else {
      var m := StripLen(t);
      if m < n {
        assert t[m..][n - m - 1] == t[n - 1];
        PrefixStripsIff(t[m..], n - m);
      }
      StripStepIff(t, m, n);
    }
  }

  /** A dollar quote that the second pass meets outside quotes comes through unchanged if and only if the
      pass meets no `::` in it. */
  lemma DollarIsStrippedIff(t: string)
    requires TagLen(t) > 0
    ensures var n := DollarLen(t, TagLen(t));
            t[..n] <= StripCasts(t) <==> NoCastBefore(t, n)
  {
    var n := DollarLen(t, TagLen(t));
    DollarEnds(t);
    PrefixStripsIff(t, n);
    KeepsIsPrefix(t, n, StripCasts(t));
  }

  // ---- The third pass -------------------------------------------------------------------------

  /** The scan meets no word among the first `n` bytes that it would write otherwise. */
  predicate NoChangeBefore(prev: Option<char>, t: string, n: int)
    decreases |t|
  {
    t != "" && n > 0 ==>
      var k := StepLen(prev, t);
      StepText(prev, t) == t[..k] && NoChangeBefore(Some(t[k - 1]), t[k..], n - k)
  }

  /** A replaced word and its replacement differ at a byte both have. */
  lemma SubstituteDiffers(word: string) returns (k: nat)
    requires Substitute(word) != word
    ensures k < |word| && k < |Substitute(word)| && word[k] != Substitute(word)[k]
  {
    var up := Upper(word);
    if up == "BOOLEAN" {
      k :| k < |word| && word[k] != Substitute(word)[k];
    } else if up == "BYTEA" {
      k := 1;
      assert up[1] == UpperChar(word[1]);
    } else {
      k := 0;
      assert up[0] == UpperChar(word[0]);
    }
  }

  lemma {:induction false} IdentRunWithin(t: string, n: nat)
    requires 0 < n <= |t| && (n < |t| ==> !IsIdentByte(t[n - 1]))
    ensures IdentLen(t) <= n
    decreases n
  {
    if IdentLen(t) > 0 && n > 1 {
      assert t[1..][n - 2] == t[n - 1];
      IdentRunWithin(t[1..], n - 1);
    }
  }

  lemma ReplaceHead(prev: Option<char>, t: string)
    requires t != ""
    ensures Replace(prev, t) == StepText(prev, t) + Replace(Some(t[StepLen(prev, t) - 1]), t[StepLen(prev, t)..])
  {
  }

  lemma ChangedWord(prev: Option<char>, t: string, n: nat)
    requires 0 < n <= |t| && (n < |t| ==> !IsIdentByte(t[n - 1])) && StepText(prev, t) != t[..StepLen(prev, t)]
    ensures !Keeps(t, n, Replace(prev, t))
  {
    var m := StepLen(prev, t);
    IdentRunWithin(t, n);
    ReplaceHead(prev, t);
    var k := SubstituteDiffers(t[..m]);
    assert t[k] == t[..m][k] && Replace(prev, t)[k] == StepText(prev, t)[k];
  }

  lemma ReplaceKeepsHead(prev: Option<char>, t: string, n: nat)
    requires t != "" && n <= |t| && StepText(prev, t) == t[..StepLen(prev, t)]
    ensures var m := StepLen(prev, t);
            Keeps(t, n, Replace(prev, t)) <==> n <= m || Keeps(t[m..], n - m, Replace(Some(t[m - 1]), t[m..]))
  {
    var m := StepLen(prev, t);
    ReplaceHead(prev, t);
    KeepsBehind(t, m, n, Replace(Some(t[m - 1]), t[m..]));
  }

  lemma NoChangeStep(prev: Option<char>, t: string, n: nat)
    requires t != "" && n > 0
    ensures var k := StepLen(prev, t);
            NoChangeBefore(prev, t, n) <==> StepText(prev, t) == t[..k] && NoChangeBefore(Some(t[k - 1]), t[k..], n - k)
  {
  }

  lemma NoChangeBeforeNothing(prev: Option<char>, t: string, n: int)
    requires n <= 0
    ensures NoChangeBefore(prev, t, n)
  {
  }

  lemma ReplaceStepIff(prev: Option<char>, t: string, m: nat, n: nat)
    requires t != "" && 0 < n <= |t| && m == StepLen(prev, t) && StepText(prev, t) == t[..m]
    requires m < n ==> (Keeps(t[m..], n - m, Replace(Some(t[m - 1]), t[m..])) <==> NoChangeBefore(Some(t[m - 1]), t[m..], n - m))
    ensures Keeps(t, n, Replace(prev, t)) <==> NoChangeBefore(prev, t, n)
  {
    ReplaceKeepsHead(prev, t, n);
    NoChangeStep(prev, t, n);
    if n <= m {
      NoChangeBeforeNothing(Some(t[m - 1]), t[m..], n - m);
    }
  }

  lemma {:induction false} PrefixReplacesIff(prev: Option<char>, t: string, n: nat)
    requires n <= |t| && (0 < n < |t| ==> !IsIdentByte(t[n - 1]))
    ensures Keeps(t, n, Replace(prev, t)) <==> NoChangeBefore(prev, t, n)
    decreases |t|
  {
    if n == 0 {
      NoChangeBeforeNothing(prev, t, n);
    } else {
      var m := StepLen(prev, t);
      if StepText(prev, t) != t[..m] {
        ChangedWord(prev, t, n);
        NoChangeStep(prev, t, n);
      } else {
        if m < n {
          assert t[m..][n - m - 1] == t[n - 1];
          PrefixReplacesIff(Some(t[m - 1]), t[m..], n - m);
        }
        ReplaceStepIff(prev, t, m, n);
      }
    }
  }

  /** A dollar quote that the third pass meets outside quotes comes through unchanged if and only if the
      pass meets no word in it that it replaces by something else. */
  lemma DollarIsReplacedIff(prev: Option<char>, t: string)
    requires TagLen(t) > 0
    ensures var n := DollarLen(t, TagLen(t));
            t[..n] <= Replace(prev, t) <==> NoChangeBefore(prev, t, n)
  {
    var n := DollarLen(t, TagLen(t));
    DollarEnds(t);
    PrefixReplacesIff(prev, t, n);
    KeepsIsPrefix(t, n, Replace(prev, t));
  }

  // ---- `$$BYTEA$$` ----------------------------------------------------------------------------

  lemma DollarByte(prev: Option<char>, t: string)
    ensures Replace(prev, "$" + t) == "$" + Replace(Some('$'), t)
  {
    var u := "$" + t;
    assert u[1..] == t && u[..1] == "$";
  }

  lemma WordStepIs(w: string, u: string)
    requires w != "" && !IsDigit(w[0]) && IsIdentByte(w[0]) && w <= u && IdentLen(u) == |w|
    ensures StepLen(Some('$'), u) == |w| && StepText(Some('$'), u) == Substitute(w)
  {
    assert u[..|w|] == w && u[0] == w[0];
  }

  lemma WordBehindDollar(w: string, t: string)
    requires w != "" && !IsDigit(w[0]) && (forall k :: 0 <= k < |w| ==> IsIdentByte(w[k])) && (t != "" ==> !IsIdentByte(t[0]))
    ensures Replace(Some('$'), w + t) == Substitute(w) + Replace(Some(w[|w| - 1]), t)
  {
    IdentRunEnds(w, t);
    WordStepIs(w, w + t);
    ReplaceHead(Some('$'), w + t);
    assert (w + t)[|w|..] == t && (w + t)[|w| - 1] == w[|w| - 1];
  }

  lemma DollarPair(prev: Option<char>, t: string, r: string)
    requires r == Replace(Some('$'), t)
    ensures Replace(prev, "$" + ("$" + t)) == "$" + ("$" + r)
  {
    DollarByte(prev, "$" + t);
    DollarByte(Some('$'), t);
  }

  /** A word between `$$` and `$$`, as the third pass writes it. */
  lemma DollarQuotedWord(w: string, e: string)
    requires w != "" && !IsDigit(w[0]) && forall k :: 0 <= k < |w| ==> IsIdentByte(w[k])
    requires e == "$" + ("$" + "")
    ensures Replace(None, "$" + ("$" + (w + e))) == "$" + ("$" + (Substitute(w) + e))
  {
    DollarPair(Some(w[|w| - 1]), "", "");
    WordBehindDollar(w, e);
    DollarPair(None, w + e, Substitute(w) + e);
  }

  /** `$$BYTEA$$` is one protected region, and the third pass makes `$$BLOB$$` of it. */
  lemma DollarQuoteIsRewritten(w: string, t: string)
    requires w == "BYTEA" && t == "$" + ("$" + (w + ("$" + ("$" + ""))))
    ensures Replace(None, t) == "$" + ("$" + ("BLOB" + ("$" + ("$" + "")))) && TagLen(t) == 2 && RegionLen(t) == 9
  {
    assert Upper(w) == w;
    assert Substitute(w) == "BLOB";
    DollarQuotedWord(w, "$" + ("$" + ""));
    TwoDollars(t, w);
  }

  lemma TwoDollars(t: string, w: string)
    requires '$' !in w && t == "$" + ("$" + (w + ("$" + ("$" + ""))))
    ensures TagLen(t) == 2 && RegionLen(t) == |w| + 4
  {
    assert t[1..] == "$" + (w + ("$" + ("$" + "")));
    assert IdentLen(t[1..]) == 0;
    var u := w + ("$" + ("$" + ""));
    assert t[2..] == u && t[..2] == "$$";
    DollarsFound(w);
    assert "$" + ("$" + "") == "$$";
  }

  lemma {:induction false} DollarsFound(w: string)
    requires '$' !in w
    ensures Find(w + "$$", "$$") == Some(|w|)
  {
    var u := w + "$$";
    if w == "" {
      assert u == "$$";
    } else {
      DollarsFound(w[1..]);
      assert u[0] != '$' && u[1..] == w[1..] + "$$";
    }
  }
}
