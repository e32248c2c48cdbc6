/** When a dollar quote comes through the second and the third pass in turn. */
module PgDollarKept {
  import opened Text
  import opened PgRegions
  import opened PgTranslate
  import opened PgPlain
  import opened PgRewrite
  import opened PgCasts
  import opened PgDollar

  // ---- What follows a cast --------------------------------------------------------------------

  predicate StartsOutside(t: string) { t != "" ==> !IsIdentByte(t[0]) }

  lemma {:induction false} CastEndsOutside(t: string)
    ensures StartsOutside(t[CastLen(t)..])
  {
    if CastLen(t) > 0 {
      CastEndsOutside(t[1..]);
      assert t[1..][CastLen(t[1..])..] == t[CastLen(t)..];
    }
  }

  lemma BehindCast(t: string)
    requires AtCast(t)
    ensures StartsOutside(t[StripLen(t)..])
  {
    CastEndsOutside(t[2..]);
    assert t[2..][CastLen(t[2..])..] == t[StripLen(t)..];
  }

  lemma {:induction false} StrippedStartsOutside(t: string)
    requires StartsOutside(t)
    ensures StartsOutside(StripCasts(t))
    decreases |t|
  {
    if AtCast(t) {
      BehindCast(t);
      StripsCast(t);
      StrippedStartsOutside(t[StripLen(t)..]);
    } else if t != "" {
      StripFirst(t);
    }
  }

  // ---- A dropped cast is not made up for ------------------------------------------------------

  lemma ReplaceFirst(prev: Option<char>, t: string)
    requires t != "" && !IsIdentByte(t[0])
    ensures Replace(prev, t) != "" && Replace(prev, t)[0] == t[0]
  {
  }

  lemma SubstituteIsWord(w: string)
    requires w != "" && w[0] != ':'
    ensures Substitute(w) != "" && Substitute(w)[0] != ':'
  {
  }

  lemma {:induction false} IdentRunIsShort(t: string, n: nat)
    requires n < |t| && !IsIdentByte(t[n])
    ensures IdentLen(t) <= n
    decreases n
  {
    if n > 0 && IdentLen(t) > 0 {
      IdentRunIsShort(t[1..], n - 1);
    }
  }

  /** No colon at the head, none after the third pass. */
  lemma NoColon(prev: Option<char>, t: string)
    requires t != "" ==> t[0] != ':'
    ensures Replace(prev, t) != "" ==> Replace(prev, t)[0] != ':'
  {
    if t != "" {
      ReplaceHead(prev, t);
      if !AtQuote(t) && WordStart(prev, t[0]) {
        SubstituteIsWord(t[..IdentLen(t)]);
      }
    }
  }

  /** Where no word and no cast starts, the third pass makes no `::`. */
  lemma NoCastMade(prev: Option<char>, t: string)
    requires StartsOutside(t) && !AtCast(t)
    ensures !AtCast(Replace(prev, t))
  {
    if t != "" {
      ReplaceHead(prev, t);
      if t[0] == ':' {
        NoColon(Some(t[0]), t[1..]);
        assert Replace(prev, t) == ":" + Replace(Some(':'), t[1..]);
      } else {
        NoColon(prev, t);
      }
    }
  }

  lemma {:induction false} InnerEndsInQuote(t: string, q: char)
    requires InnerLen(t, q) < |t|
    ensures var n := InnerLen(t, q);
            n > 0 && t[n - 1] == q
  {
    if t[0] != q {
      InnerEndsInQuote(t[1..], q);
    } else if t[1] == q {
      InnerEndsInQuote(t[2..], q);
    }
  }

  /** A turn over a quote that reaches beyond `p`. */
  lemma QuoteHidesCast(t: string, p: nat, o: string)
    requires AtQuote(t) && p < QuotedLen(t, t[0]) && !AtCast(t[p..]) && (QuotedLen(t, t[0]) == |t| ==> o == "")
    ensures !AtCast((t[..QuotedLen(t, t[0])] + o)[p..])
  {
    var m := QuotedLen(t, t[0]);
    var u := t[..m] + o;
    assert u[p] == t[p] && (p + 1 < m ==> u[p + 1] == t[p + 1]);
    if p + 1 == m && m < |t| {
      InnerEndsInQuote(t[1..], t[0]);
      assert t[1..][m - 2] == t[m - 1];
    }
  }

  /** The common head of `p` bytes goes on with a cast in `t` and with neither a cast nor a word in `u`. */
  predicate Parts(t: string, u: string, p: nat) {
    && p + 2 <= |t| && p <= |u| && (forall k :: 0 <= k < p ==> u[k] == t[k])
    && AtCast(t[p..]) && !AtCast(u[p..]) && StartsOutside(u[p..])
  }

  lemma PartsBehind(t: string, u: string, p: nat, m: nat)
    requires Parts(t, u, p) && m <= p
    ensures Parts(t[m..], u[m..], p - m)
  {
    assert t[m..][p - m..] == t[p..] && u[m..][p - m..] == u[p..];
  }

  lemma WordsStopAtParts(t: string, u: string, p: nat)
    requires Parts(t, u, p)
    ensures IdentLen(u) <= p
  {
    if p < |u| {
      assert u[p] == u[p..][0];
      IdentRunIsShort(u, p);
    }
  }

  lemma ChangeShows(prev: Option<char>, t: string, u: string, p: nat)
    requires Parts(t, u, p) && u != "" && StepText(prev, u) != u[..StepLen(prev, u)]
    ensures !Keeps(t, p + 2, Replace(prev, u))
  {
    var m := StepLen(prev, u);
    WordsStopAtParts(t, u, p);
    ReplaceHead(prev, u);
    var k := SubstituteDiffers(u[..m]);
    assert t[k] == u[k] == u[..m][k] && Replace(prev, u)[k] == StepText(prev, u)[k];
  }

  lemma NotKeptAt(t: string, p: nat, o: string)
    requires p + 2 <= |t| && AtCast(t[p..]) && (p <= |o| ==> !AtCast(o[p..]))
    ensures !Keeps(t, p + 2, o)
  {
  }

  lemma QuoteBeyond(prev: Option<char>, t: string, u: string, p: nat)
    requires Parts(t, u, p) && AtQuote(u) && p < StepLen(prev, u)
    ensures !Keeps(t, p + 2, Replace(prev, u))
  {
    var m := StepLen(prev, u);
    ReplaceHead(prev, u);
    QuoteHidesCast(u, p, Replace(Some(u[m - 1]), u[m..]));
    NotKeptAt(t, p, Replace(prev, u));
  }

  lemma {:induction false} CastIsMissing(prev: Option<char>, t: string, u: string, p: nat)
    requires Parts(t, u, p)
    ensures !Keeps(t, p + 2, Replace(prev, u))
    decreases p
  {
    if p == 0 {
      assert t[0..] == t && u[0..] == u;
      NoCastMade(prev, u);
      assert Replace(prev, u)[0..] == Replace(prev, u);
      NotKeptAt(t, 0, Replace(prev, u));
    } else {
      var m := StepLen(prev, u);
      WordsStopAtParts(t, u, p);
      if StepText(prev, u) != u[..m] {
        ChangeShows(prev, t, u, p);
      } else if p < m {
        QuoteBeyond(prev, t, u, p);
      } else {
        PartsBehind(t, u, p, m);
        CastIsMissing(Some(u[m - 1]), t[m..], u[m..], p - m);
        ReplaceHead(prev, u);
        assert u[..m] == t[..m];
        KeepsBehind(t, m, p + 2, Replace(Some(u[m - 1]), u[m..]));
      }
    }
  }

  // ---- The first cast -------------------------------------------------------------------------

  lemma CastIsBehind(t: string, n: nat)
    requires n <= |t| && !AtCast(t) && !NoCastBefore(t, n)
    ensures t != "" && StripLen(t) < n && !NoCastBefore(t[StripLen(t)..], n - StripLen(t))
  {
  }

  lemma {:induction false} FirstCast(t: string, n: nat) returns (p: nat)
    requires n <= |t| && !NoCastBefore(t, n)
    ensures p < n && Parts(t, StripCasts(t), p)
    decreases |t|
  {
    if AtCast(t) {
      p := 0;
      BehindCast(t);
      StripsCast(t);
      StrippedStartsOutside(t[StripLen(t)..]);
      CastsAreGone(t);
      CastFreeHead(StripCasts(t));
      assert t[0..] == t && StripCasts(t)[0..] == StripCasts(t);
    } else {
      var m := StripLen(t);
      CastIsBehind(t, n);
      var q := FirstCast(t[m..], n - m);
      p := m + q;
      OtherStep(t);
      PartsAhead(t, m, q, StripCasts(t[m..]));
    }
  }

  lemma PartsAhead(t: string, m: nat, q: nat, u: string)
    requires m <= |t| && Parts(t[m..], u, q)
    ensures Parts(t, t[..m] + u, m + q)
  {
    var v := t[..m] + u;
    assert t[m..][q..] == t[m + q..] && v[m + q..] == u[q..];
    forall k | 0 <= k < m + q ensures v[k] == t[k] {
      if k >= m {
        assert v[k] == u[k - m] && t[k] == t[m..][k - m];
      }
    }
  }

  lemma KeepsLess(t: string, n: nat, l: nat, o: string)
    requires l <= n <= |t|
    ensures Keeps(t, n, o) ==> Keeps(t, l, o)
  {
  }

  lemma LostCastShows(prev: Option<char>, t: string, n: nat)
    requires n <= |t| && !NoCastBefore(t, n) && (0 < n < |t| ==> t[n - 1] != ':')
    ensures !Keeps(t, n, Replace(prev, StripCasts(t)))
  {
    var p := FirstCast(t, n);
    CastIsMissing(prev, t, StripCasts(t), p);
    assert t[p..][0] == t[p] && p + 2 <= n;
    KeepsLess(t, n, p + 2, Replace(prev, StripCasts(t)));
  }

  // ---- The same changes in both texts ---------------------------------------------------------

  /** The texts share `n` bytes, the last of which is neither part of a word nor a quote. */
  predicate Share(t: string, u: string, n: nat) {
    && 0 < n <= |t| && n <= |u| && (forall k :: 0 <= k < n ==> u[k] == t[k])
    && !IsIdentByte(t[n - 1]) && t[n - 1] != '\'' && t[n - 1] != '"'
  }

  lemma ShareBehind(t: string, u: string, n: nat, m: nat)
    requires Share(t, u, n) && m < n
    ensures Share(t[m..], u[m..], n - m)
  {
    assert t[m..][n - m - 1] == t[n - 1];
  }

  lemma {:induction false} SameInner(q: char, t: string, u: string, n: nat)
    requires Share(t, u, n) && (q == '\'' || q == '"')
    ensures InnerLen(t, q) == InnerLen(u, q) < n || (InnerLen(t, q) >= n && InnerLen(u, q) >= n)
    decreases n
  {
    if t[0] != q {
      if n > 1 {
        ShareBehind(t, u, n, 1);
        SameInner(q, t[1..], u[1..], n - 1);
      }
    } else {
      assert n > 1 && u[1] == t[1];
      if t[1] == q {
        assert n > 2;
        ShareBehind(t, u, n, 2);
        SameInner(q, t[2..], u[2..], n - 2);
      }
    }
  }

  lemma {:induction false} SameIdent(t: string, u: string, n: nat)
    requires Share(t, u, n)
    ensures IdentLen(t) == IdentLen(u) < n
    decreases n
  {
    if IsIdentByte(t[0]) {
      ShareBehind(t, u, n, 1);
      SameIdent(t[1..], u[1..], n - 1);
    }
  }

  lemma SameStep(prev: Option<char>, t: string, u: string, n: nat)
    requires Share(t, u, n)
    ensures var k, l := StepLen(prev, t), StepLen(prev, u);
            k == l || (k >= n && l >= n && AtQuote(t) && AtQuote(u))
    ensures var k := StepLen(prev, t);
            k <= n && k == StepLen(prev, u) ==> t[..k] == u[..k] && StepText(prev, t) == StepText(prev, u)
  {
    SameIdent(t, u, n);
    if AtQuote(t) && n > 1 {
      ShareBehind(t, u, n, 1);
      SameInner(t[0], t[1..], u[1..], n - 1);
    }
  }

  lemma QuoteEndsChanges(prev: Option<char>, t: string, n: nat)
    requires AtQuote(t) && 0 < n <= StepLen(prev, t)
    ensures NoChangeBefore(prev, t, n)
  {
    var k := StepLen(prev, t);
    NoChangeBeforeNothing(Some(t[k - 1]), t[k..], n - k);
    NoChangeStep(prev, t, n);
  }

  lemma SameTurn(prev: Option<char>, t: string, u: string, k: nat, n: nat)
    requires Share(t, u, n) && k == StepLen(prev, t) == StepLen(prev, u) && k <= n
    requires k < n ==> (NoChangeBefore(Some(t[k - 1]), t[k..], n - k) <==> NoChangeBefore(Some(t[k - 1]), u[k..], n - k))
    ensures NoChangeBefore(prev, t, n) <==> NoChangeBefore(prev, u, n)
  {
    SameStep(prev, t, u, n);
    NoChangeStep(prev, t, n);
    NoChangeStep(prev, u, n);
    if k == n {
      NoChangeBeforeNothing(Some(t[k - 1]), t[k..], n - k);
      NoChangeBeforeNothing(Some(t[k - 1]), u[k..], n - k);
    }
  }

  lemma TurnIsWithin(prev: Option<char>, t: string, u: string, n: nat)
    requires Share(t, u, n) && !(AtQuote(t) && StepLen(prev, t) >= n)
    ensures StepLen(prev, t) == StepLen(prev, u) <= n
  {
    SameStep(prev, t, u, n);
    SameIdent(t, u, n);
  }

  lemma QuoteReaches(prev: Option<char>, t: string, u: string, n: nat)
    requires Share(t, u, n) && AtQuote(t) && StepLen(prev, t) >= n
    ensures AtQuote(u) && StepLen(prev, u) >= n
  {
    SameStep(prev, t, u, n);
  }

  lemma {:induction false} SameChanges(prev: Option<char>, t: string, u: string, n: nat)
    requires Share(t, u, n)
    ensures NoChangeBefore(prev, t, n) <==> NoChangeBefore(prev, u, n)
    decreases n
  {
    var k := StepLen(prev, t);
    if AtQuote(t) && k >= n {
      QuoteReaches(prev, t, u, n);
      QuoteEndsChanges(prev, t, n);
      QuoteEndsChanges(prev, u, n);
    } else {
      TurnIsWithin(prev, t, u, n);
      if k < n {
        ShareBehind(t, u, n, k);
        SameChanges(Some(t[k - 1]), t[k..], u[k..], n - k);
      }
      SameTurn(prev, t, u, k, n);
    }
  }

  // ---- Both passes ----------------------------------------------------------------------------

  lemma StrippedShares(t: string, n: nat)
    requires 0 < n <= |t| && (n < |t| ==> t[n - 1] == '$') && NoCastBefore(t, n)
    ensures Keeps(t, n, StripCasts(t)) && (StripCasts(t) == t || Share(t, StripCasts(t), n))
  {
    PrefixStripsIff(t, n);
    StrippedLength(t);
  }

  lemma KeepsSame(t: string, u: string, n: nat, o: string)
    requires n <= |t| && Keeps(t, n, u)
    ensures Keeps(t, n, o) <==> Keeps(u, n, o)
  {
  }

  /** A dollar quote met outside quotes comes through both passes unchanged if and only if it holds, as
      the passes read it, no `::` and no word that is replaced by another. */
  lemma DollarIsKeptIff(prev: Option<char>, t: string)
    requires TagLen(t) > 0
    ensures var n := DollarLen(t, TagLen(t));
            t[..n] <= Replace(prev, StripCasts(t)) <==> NoCastBefore(t, n) && NoChangeBefore(prev, t, n)
  {
    var n, u := DollarLen(t, TagLen(t)), StripCasts(t);
    DollarEnds(t);
    KeepsIsPrefix(t, n, Replace(prev, u));
    if NoCastBefore(t, n) {
      StrippedShares(t, n);
      KeepsSame(t, u, n, Replace(prev, u));
      PrefixReplacesIff(prev, u, n);
      if u != t {
        SameChanges(prev, t, u, n);
      }
    } else {
      LostCastShows(prev, t, n);
    }
  }
}
