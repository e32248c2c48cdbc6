/** What the three Postgres passes leave alone, and what the second one leaves behind. */
module PgPlain {
  import opened Text
  import opened PgRegions
  import opened PgRewrite
  import opened PgTranslate

  // ---- Statements that pass unchanged ---------------------------------------------------------

  lemma PieceRejoins(t: string, n: nat, rest: string)
    requires n <= |t| && rest == t[n..]
    ensures t[..n] + rest == t
  {
  }

  lemma HeadSpelling(s: string)
    requires s != ""
    ensures Head(s).Param? ==> HeadLen(s) >= 2 && |Spell(Head(s))| == 1
    ensures !Head(s).Param? ==> Spell(Head(s)) == s[..HeadLen(s)]
  {
    if StartsParam(s) {
      assert DigitLen(s[1..]) > 0;
    }
  }

  lemma {:induction false} RewrittenLength(s: string)
    ensures |Rewritten(s)| + |Order(Lex(s))| <= |s|
    ensures Order(Lex(s)) == [] ==> Rewritten(s) == s
    decreases |s|
  {
    if s != "" {
      HeadSpelling(s);
      RewrittenLength(s[HeadLen(s)..]);
      RewrittenStep(s);
      PieceRejoins(s, HeadLen(s), s[HeadLen(s)..]);
    }
  }

  /** The first pass changes exactly the statements with parameters. */
  lemma UnchangedIffNoParameter(s: string)
    ensures Rewritten(s) == s <==> Order(Lex(s)) == []
  {
    RewrittenLength(s);
  }

  predicate HasNoCast(t: string)
    decreases |t|
  {
    t != "" ==> !AtCast(t) && HasNoCast(t[StripLen(t)..])
  }

  lemma {:induction false} StrippedLength(t: string)
    ensures |StripCasts(t)| <= |t|
    ensures if HasNoCast(t) then StripCasts(t) == t else |StripCasts(t)| < |t|
    decreases |t|
  {
    if t != "" {
      StrippedLength(t[StripLen(t)..]);
      PieceRejoins(t, StripLen(t), t[StripLen(t)..]);
    }
  }

  /** The second pass changes exactly the statements with a cast outside quotes. */
  lemma UnchangedIffNoCast(t: string)
    ensures StripCasts(t) == t <==> HasNoCast(t)
  {
    StrippedLength(t);
  }

  predicate HasNoKeyword(prev: Option<char>, t: string)
    decreases |t|
  {
    t != "" ==>
      var n := StepLen(prev, t);
      (!AtQuote(t) && WordStart(prev, t[0]) ==> Upper(t[..n]) !in KEYWORDS) && HasNoKeyword(Some(t[n - 1]), t[n..])
  }

  lemma {:induction false} NoKeywordNoChange(prev: Option<char>, t: string)
    requires HasNoKeyword(prev, t)
    ensures Replace(prev, t) == t
    decreases |t|
  {
    if t != "" {
      var n := StepLen(prev, t);
      NoKeywordNoChange(Some(t[n - 1]), t[n..]);
      PieceRejoins(t, n, t[n..]);
    }
  }

  /** A statement without parameters, casts or serial and type keywords comes out byte for byte. */
  lemma PlainIsUnchanged(s: string)
    requires Order(Lex(s)) == [] && HasNoCast(s) && HasNoKeyword(None, s)
    ensures Translated(s) == s
  {
    UnchangedIffNoParameter(s);
    UnchangedIffNoCast(s);
    NoKeywordNoChange(None, s);
  }

  // ---- No cast is left ------------------------------------------------------------------------

  /** No `::` outside quotes, reading one byte at a time: a quote character opens or closes. */
  predicate IsCastFree(quote: Option<char>, t: string)
    decreases |t|
  {
    t != "" ==>
      if quote.Some? then IsCastFree(if t[0] == quote.value then None else quote, t[1..])
      else if AtQuote(t) then IsCastFree(Some(t[0]), t[1..])
      else !AtCast(t) && IsCastFree(None, t[1..])
  }

  lemma InsideStep(q: char, u: string, x: string)
    requires u != ""
    ensures IsCastFree(Some(q), u + x) <==> IsCastFree(if u[0] == q then None else Some(q), u[1..] + x)
  {
    assert (u + x)[1..] == u[1..] + x;
  }

  lemma ReopenStep(q: char, u: string, x: string)
    requires (q == '\'' || q == '"') && u != "" && u[0] == q
    ensures IsCastFree(None, u + x) <==> IsCastFree(Some(q), u[1..] + x)
  {
    assert (u + x)[1..] == u[1..] + x;
  }

  /** A quoted region passes as a whole, whatever is put behind it. */
  lemma {:induction false} InnerPasses(q: char, t: string, rest: string)
    requires (q == '\'' || q == '"') && IsCastFree(None, rest) && (!Terminated(t, q) ==> rest == "")
    ensures IsCastFree(Some(q), t[..InnerLen(t, q)] + rest)
    decreases |t|
  {
    if t != "" {
      var u := t[..InnerLen(t, q)];
      InnerHead(q, t);
      InsideStep(q, u, rest);
      if t[0] != q {
        InnerPasses(q, t[1..], rest);
      } else if |t| > 1 && t[1] == q {
        InnerPasses(q, t[2..], rest);
        ReopenStep(q, u[1..], rest);
        assert u[1..][1..] == u[2..];
      } else {
        assert u[1..] + rest == rest;
      }
    }
  }

  lemma StripFirst(t: string)
    requires t != "" && !AtCast(t)
    ensures StripCasts(t) != "" && StripCasts(t)[0] == t[0]
  {
  }

  lemma QuotedPasses(t: string, rest: string)
    requires AtQuote(t) && IsCastFree(None, rest) && (t[QuotedLen(t, t[0])..] == "" ==> rest == "")
    ensures IsCastFree(None, t[..QuotedLen(t, t[0])] + rest)
  {
    var n := QuotedLen(t, t[0]);
    InnerEnds(t[1..], t[0]);
    InnerPasses(t[0], t[1..], rest);
    ReopenStep(t[0], t[..n], rest);
    assert t[..n][1..] == t[1..][..n - 1];
  }

  lemma BytePasses(t: string, rest: string)
    requires t != "" && !AtQuote(t) && IsCastFree(None, rest) && !(t[0] == ':' && rest != "" && rest[0] == ':')
    ensures IsCastFree(None, t[..1] + rest)
  {
    assert (t[..1] + rest)[1..] == rest;
  }

  /** For every statement: what the second pass leaves holds no cast outside quotes. */
  lemma {:induction false} CastsAreGone(t: string)
    ensures IsCastFree(None, StripCasts(t))
    decreases |t|
  {
    if t != "" {
      var n := StripLen(t);
      var rest := StripCasts(t[n..]);
      CastsAreGone(t[n..]);
      if AtCast(t) {
        assert "" + rest == rest;
      } else if AtQuote(t) {
        QuotedPasses(t, rest);
      } else {
        if |t| > 1 && !AtCast(t[1..]) {
          StripFirst(t[1..]);
        }
        BytePasses(t, rest);
      }
    }
  }
}
