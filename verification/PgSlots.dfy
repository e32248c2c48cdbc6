/** The later Postgres passes move no slot into or out of quotes. */
module PgSlots {
  import opened Text
  import opened PgRegions
  import opened PgRewrite
  import opened PgTranslate

  function Mark(c: char, outside: bool): seq<bool> { if c == '?' then [outside] else [] }

  /** For each `?` in turn whether it stands outside quotes, reading one byte at a time. */
  function Marks(quote: Option<char>, t: string): seq<bool>
    decreases |t|
  {
    if t == "" then []
    else if quote.Some? then Mark(t[0], false) + Marks(if t[0] == quote.value then None else quote, t[1..])
    else if AtQuote(t) then Marks(Some(t[0]), t[1..])
    else Mark(t[0], true) + Marks(None, t[1..])
  }

  predicate IsInert(c: char) { c != '\'' && c != '"' && c != '?' }

  predicate AllInert(t: string) { forall i :: 0 <= i < |t| ==> IsInert(t[i]) }

  lemma {:induction false} InertHasNoMarks(t: string, rest: string)
    requires AllInert(t)
    ensures Marks(None, t + rest) == Marks(None, rest)
  {
    if t == "" {
      assert t + rest == rest;
    } else {
      InertHasNoMarks(t[1..], rest);
      assert IsInert(t[0]) && (t + rest)[1..] == t[1..] + rest;
      assert Mark(t[0], true) + Marks(None, rest) == Marks(None, rest);
    }
  }

  lemma InertHead(t: string, n: nat)
    requires n <= |t| && AllInert(t[..n])
    ensures Marks(None, t) == Marks(None, t[n..])
  {
    InertHasNoMarks(t[..n], t[n..]);
    assert t[..n] + t[n..] == t;
  }

  lemma MarksStep(q: char, u: string, x: string)
    requires u != ""
    ensures Marks(Some(q), u + x) == Mark(u[0], false) + Marks(if u[0] == q then None else Some(q), u[1..] + x)
  {
    assert (u + x)[1..] == u[1..] + x;
  }

  /** The second quote of a pair opens again at once. */
  lemma PairStep(q: char, u: string, x: string)
    requires (q == '\'' || q == '"') && |u| >= 2 && u[0] == q && u[1] == q
    ensures Marks(Some(q), u + x) == Marks(Some(q), u[2..] + x)
  {
    MarksStep(q, u, x);
    assert (u[1..] + x)[1..] == u[2..] + x && AtQuote(u[1..] + x);
  }

  /** A quoted region is read as a whole: its marks, then those of what follows. */
  lemma {:induction false} InnerMarks(q: char, t: string, x: string)
    requires (q == '\'' || q == '"') && (!Terminated(t, q) ==> x == "")
    ensures Marks(Some(q), t[..InnerLen(t, q)] + x) == Marks(Some(q), t[..InnerLen(t, q)] + "") + Marks(None, x)
    decreases |t|
  {
    var u := t[..InnerLen(t, q)];
    if t == "" {
      assert u + x == "" && u + "" == "";
    } else {
      InnerHead(q, t);
      if t[0] != q {
        InnerMarks(q, t[1..], x);
        MarksStep(q, u, x);
        MarksStep(q, u, "");
        Assoc(Mark(t[0], false), Marks(Some(q), u[1..] + ""), Marks(None, x));
      } else if |t| > 1 && t[1] == q {
        InnerMarks(q, t[2..], x);
        PairStep(q, u, x);
        PairStep(q, u, "");
      } else {
        MarksStep(q, u, x);
        MarksStep(q, u, "");
        assert u[1..] + x == x && u[1..] + "" == "";
      }
    }
  }

  lemma QuotedMarks(t: string, rest: string)
    requires AtQuote(t) && Marks(None, rest) == Marks(None, t[QuotedLen(t, t[0])..])
    requires t[QuotedLen(t, t[0])..] == "" ==> rest == ""
    ensures Marks(None, t[..QuotedLen(t, t[0])] + rest) == Marks(None, t)
  {
    var q := t[0];
    var n := QuotedLen(t, q);
    InnerEnds(t[1..], q);
    InnerMarks(q, t[1..], rest);
    InnerMarks(q, t[1..], t[n..]);
    assert (t[..n] + rest)[1..] == t[1..][..n - 1] + rest;
    assert t[1..] == t[1..][..n - 1] + t[n..];
  }

  lemma ByteMarks(t: string, rest: string)
    requires t != "" && !AtQuote(t) && Marks(None, rest) == Marks(None, t[1..])
    ensures Marks(None, t[..1] + rest) == Marks(None, t)
  {
    assert (t[..1] + rest)[1..] == rest;
  }

  // ---- stripCasts -----------------------------------------------------------------------------

  lemma {:induction false} CastIsInert(t: string)
    ensures AllInert(t[..CastLen(t)])
  {
    if CastLen(t) > 0 {
      CastIsInert(t[1..]);
      assert t[..CastLen(t)] == [t[0]] + t[1..][..CastLen(t) - 1];
    }
  }

  lemma WholeCastIsInert(t: string)
    requires t != "" && AtCast(t)
    ensures AllInert(t[..StripLen(t)])
  {
    CastIsInert(t[2..]);
    assert t[..StripLen(t)] == [t[0], t[1]] + t[2..][..CastLen(t[2..])];
  }

  /** The second pass keeps every slot where it is, inside or outside quotes. */
  lemma {:induction false} StripKeepsMarks(t: string)
    ensures Marks(None, StripCasts(t)) == Marks(None, t)
    decreases |t|
  {
    if t != "" {
      var n := StripLen(t);
      var rest := StripCasts(t[n..]);
      StripKeepsMarks(t[n..]);
      if AtCast(t) {
        WholeCastIsInert(t);
        InertHead(t, n);
        assert "" + rest == rest;
      } else if AtQuote(t) {
        QuotedMarks(t, rest);
      } else {
        ByteMarks(t, rest);
      }
    }
  }

  // ---- replaceKeywords ------------------------------------------------------------------------

  lemma {:induction false} IdentIsInert(t: string)
    ensures AllInert(t[..IdentLen(t)])
  {
    if IdentLen(t) > 0 {
      IdentIsInert(t[1..]);
      assert t[..IdentLen(t)] == [t[0]] + t[1..][..IdentLen(t) - 1];
    }
  }

  lemma SubstituteIsInert(word: string)
    requires AllInert(word)
    ensures AllInert(Substitute(word))
  {
  }

  /** So does the third. */
  lemma {:induction false} ReplaceKeepsMarks(prev: Option<char>, t: string)
    ensures Marks(None, Replace(prev, t)) == Marks(None, t)
    decreases |t|
  {
    if t != "" {
      var n := StepLen(prev, t);
      var rest := Replace(Some(t[n - 1]), t[n..]);
      ReplaceKeepsMarks(Some(t[n - 1]), t[n..]);
      if AtQuote(t) {
        QuotedMarks(t, rest);
      } else if WordStart(prev, t[0]) {
        IdentIsInert(t);
        InertHead(t, n);
        SubstituteIsInert(t[..n]);
        InertHasNoMarks(Substitute(t[..n]), rest);
      } else {
        ByteMarks(t, rest);
      }
    }
  }

  /** For every statement: the k-th `?` of the translation is outside quotes exactly if the k-th `?`
      after the first pass is, and there are as many as `?` bytes in the statement and parameters. */
  lemma SlotsStayPut(s: string)
    ensures Marks(None, Translated(s)) == Marks(None, Rewritten(s))
    ensures |Marks(None, Translated(s))| == Slots(Translated(s)) == Slots(s) + |Order(Lex(s))|
  {
    StripKeepsMarks(Rewritten(s));
    ReplaceKeepsMarks(None, StripCasts(Rewritten(s)));
    MarksCount(None, Translated(s));
    MarksCount(None, Rewritten(s));
    RewriteSlots(s);
  }

  /** There is one mark for every `?`. */
  lemma {:induction false} MarksCount(quote: Option<char>, t: string)
    requires quote.Some? ==> quote.value != '?'
    ensures |Marks(quote, t)| == Slots(t)
    decreases |t|
  {
    if t != "" {
      MarksCount(if quote.Some? then (if t[0] == quote.value then None else quote) else if AtQuote(t) then Some(t[0]) else None, t[1..]);
      SlotsSplit(t, 1);
    }
  }
}
