/** The translator's output as pieces, and exactly when reading it again finds the regions copied into it. */
module MySqlRereadTheorems {
  import opened Text
  import opened MySqlLexemes
  import opened MySqlTranslate
  import opened MySqlRegions
  import opened MySqlReread

  // ---- The translator makes such pieces -------------------------------------------------------

  predicate HasNoQuote(t: string) { forall k :: 0 <= k < |t| ==> !IsQuoteByte(t[k]) }

  /** The pieces may be followed by `t`. */
  predicate Takes(ps: seq<Piece>, t: string) {
    t != "" && ps != [] && ps[|ps| - 1].Kept? ==>
      IsWhole(ps[|ps| - 1].region) && (IsLine(ps[|ps| - 1].region) ==> t[0] == '\n')
  }

  /** What follows a region at the end is the newline of a line comment, or it is closed. */
  predicate IsReady(ps: seq<Piece>, s: string, i: nat)
    requires i <= |s|
  {
    Takes(ps, s[i..])
  }

  /** Nothing is awaited. */
  predicate IsClosed(ps: seq<Piece>) {
    ps != [] && ps[|ps| - 1].Kept? ==> IsWhole(ps[|ps| - 1].region) && !IsLine(ps[|ps| - 1].region)
  }

  lemma ClosedIsReady(ps: seq<Piece>, s: string, i: nat)
    requires i <= |s| && IsClosed(ps)
    ensures IsReady(ps, s, i)
  {
  }

  lemma AddPiece(ps: seq<Piece>, p: Piece)
    requires IsSequel(ps) && IsPiece(p) && (ps != [] ==> MayPrecede(ps[|ps| - 1], p))
    ensures IsSequel(ps + [p])
  {
  }

  lemma PiecesMore(c: Cloth, t: string)
    ensures Pieces(Append(c, t)) == Pieces(c) + MadeOf(t)
  {
    assert MadeOf(c.made + t) == MadeOf(c.made) + MadeOf(t);
  }

  lemma {:induction false} AddMade(ps: seq<Piece>, t: string)
    requires IsSequel(ps) && HasNoQuote(t) && Takes(ps, t)
    ensures IsSequel(ps + MadeOf(t)) && (t != "" ==> IsClosed(ps + MadeOf(t)))
    decreases |t|
  {
    if t == "" {
      assert ps + MadeOf(t) == ps;
    } else {
      var qs := ps + [Made(t[0])];
      AddPiece(ps, Made(t[0]));
      AddMade(qs, t[1..]);
      assert ps + MadeOf(t) == qs + MadeOf(t[1..]);
    }
  }

  lemma AppendSequel(c: Cloth, t: string)
    requires IsSequel(Pieces(c)) && HasNoQuote(t) && Takes(Pieces(c), t)
    ensures var ps := Pieces(Append(c, t));
            IsSequel(ps) && (t != "" || IsClosed(Pieces(c)) ==> IsClosed(ps))
  {
    PiecesMore(c, t);
    AddMade(Pieces(c), t);
    assert t == "" ==> Pieces(c) + MadeOf(t) == Pieces(c);
  }

  lemma KeptSequel(c: Cloth, s: string, i: nat)
    requires i < |s| && IsSequel(Pieces(c)) && IsReady(Pieces(c), s, i) && RegionEnd(s, i) > i
    ensures var j := RegionEnd(s, i);
            var ps := Pieces(Sewn(c, s[i..j], ""));
            IsSequel(ps) && IsReady(ps, s, j)
  {
    var j := RegionEnd(s, i);
    var r := s[i..j];
    RegionAlone(s, i);
    AddPiece(Pieces(c), Kept(r));
    assert Pieces(Sewn(c, r, "")) == Pieces(c) + [Kept(r)];
  }

  lemma {:induction false} TrimIsPrefix(m: string)
    ensures |TrimBlanks(m)| <= |m| && MadeOf(m)[..|TrimBlanks(m)|] == MadeOf(TrimBlanks(m))
    ensures |TrimBlanks(m)| < |m| ==> IsBlank(m[|TrimBlanks(m)|])
  {
    if m != "" && IsBlank(m[|m| - 1]) {
      TrimIsPrefix(m[..|m| - 1]);
    }
  }

  lemma CutSequel(ps: seq<Piece>, n: nat)
    requires n < |ps| && IsSequel(ps) && ps[n].Made? && IsBlank(ps[n].byte)
    ensures IsSequel(ps[..n]) && IsClosed(ps[..n])
  {
    if n > 0 {
      assert MayPrecede(ps[n - 1], ps[n]);
    }
  }

  lemma TrimSequel(c: Cloth)
    requires IsSequel(Pieces(c)) && IsClosed(Pieces(c))
    ensures IsSequel(Pieces(Trimmed(c))) && IsClosed(Pieces(Trimmed(c)))
  {
    var n := |TrimBlanks(c.made)|;
    TrimIsPrefix(c.made);
    if n < |c.made| {
      var l := |Pieces(c)| - |c.made| + n;
      assert Pieces(Trimmed(c)) == Pieces(c)[..l];
      assert Pieces(c)[l] == MadeOf(c.made)[n];
      CutSequel(Pieces(c), l);
    } else {
      assert TrimBlanks(c.made) == c.made;
    }
  }

  // ---- Every turn -----------------------------------------------------------------------------

  lemma {:induction false} IdentsHaveNoQuote(s: string, j: nat)
    requires j <= |s|
    ensures HasNoQuote(s[j..IdentEnd(s, j)]) && HasNoQuote(s[j..BlankEnd(s, j)])
    decreases |s| - j
  {
    if j < |s| && (IsIdentByte(s[j]) || IsBlank(s[j])) {
      IdentsHaveNoQuote(s, j + 1);
      assert IsIdentByte(s[j]) ==> s[j..IdentEnd(s, j)] == [s[j]] + s[j + 1..IdentEnd(s, j)];
      assert IsBlank(s[j]) ==> s[j..BlankEnd(s, j)] == [s[j]] + s[j + 1..BlankEnd(s, j)];
    }
  }

  lemma TypesHaveNoQuote(up: string)
    requires up in TypeReplacements
    ensures HasNoQuote(TypeReplacements[up])
  {
    assert TypeReplacements[up] in {"INTEGER", "REAL", "DATETIME", "TEXT", "BLOB"};
  }

  /** Nothing but a region holds a quote. */
  lemma CutHasNoQuote(s: string, i: nat)
    requires i < |s|
    ensures var x := CutAt(s, i).lexeme;
            (x.Plain? ==> HasNoQuote(x.text)) && (x.Auto? ==> HasNoQuote(x.blanks))
  {
    if RegionEnd(s, i) == i && IsWordStart(s, i) {
      WordIsNotEmpty(s, i);
      var j := IdentEnd(s, i);
      IdentsHaveNoQuote(s, i);
      IdentsHaveNoQuote(s, j);
      if Upper(s[i..j]) in TypeReplacements {
        TypesHaveNoQuote(Upper(s[i..j]));
      }
    }
  }

  lemma ClosedTakes(ps: seq<Piece>, t: string)
    requires IsClosed(ps)
    ensures Takes(ps, t)
  {
  }

  lemma ClosedAppend(c: Cloth, t: string)
    requires IsSequel(Pieces(c)) && IsClosed(Pieces(c)) && HasNoQuote(t)
    ensures IsSequel(Pieces(Append(c, t))) && IsClosed(Pieces(Append(c, t)))
  {
    ClosedTakes(Pieces(c), t);
    AppendSequel(c, t);
  }

  lemma ClosedEnd(c: Cloth, st: State, t: string)
    requires IsSequel(Pieces(c)) && IsClosed(Pieces(c)) && HasNoQuote(t)
    ensures var d := Append(if st.pending == Some(st.depth) then Trimmed(c) else c, t);
            IsSequel(Pieces(d)) && IsClosed(Pieces(d))
  {
    TrimSequel(c);
    ClosedAppend(if st.pending == Some(st.depth) then Trimmed(c) else c, t);
  }

  lemma JoinQuoteFree(a: string, b: string)
    requires HasNoQuote(a) && HasNoQuote(b)
    ensures HasNoQuote(a + b)
  {
  }

  lemma ClosedAuto(c: Cloth, st: State, blanks: string)
    requires IsSequel(Pieces(c)) && IsClosed(Pieces(c)) && HasNoQuote(blanks)
    ensures var d := ClothAfter(c, st, Auto(blanks));
            IsSequel(Pieces(d)) && IsClosed(Pieces(d))
  {
    JoinQuoteFree("AUTOINCREMENT", blanks);
    ClosedAppend(c, "AUTOINCREMENT" + blanks);
  }

  lemma KeyHasNoQuote(t: string)
    requires t == "PRIMARY KEY AUTOINCREMENT" || t == "PRIMARY KEY"
    ensures HasNoQuote(t)
  {
  }

  lemma ClosedKey(c: Cloth, st: State)
    requires IsSequel(Pieces(c)) && IsClosed(Pieces(c))
    ensures var d := ClothAfter(c, st, Key);
            IsSequel(Pieces(d)) && IsClosed(Pieces(d))
  {
    var t := if st.pending == Some(st.depth) then "PRIMARY KEY AUTOINCREMENT" else "PRIMARY KEY";
    KeyHasNoQuote(t);
    ClosedAppend(c, t);
  }

  lemma ClosedTurn(c: Cloth, st: State, x: Lexeme)
    requires IsSequel(Pieces(c)) && IsClosed(Pieces(c)) && !x.Region?
    requires (x.Plain? ==> HasNoQuote(x.text)) && (x.Auto? ==> HasNoQuote(x.blanks))
    ensures var d := ClothAfter(c, st, x);
            IsSequel(Pieces(d)) && IsClosed(Pieces(d))
  {
    match x
    case Open => ClosedAppend(c, "(");
    case Close => ClosedEnd(c, st, ")");
    case Comma => ClosedEnd(c, st, ",");
    case Plain(text) => ClosedAppend(c, text);
    case Setting => TrimSequel(c);
    case Auto(blanks) => ClosedAuto(c, st, blanks);
    case Key => ClosedKey(c, st);
  }

  lemma NewlineTurn(c: Cloth, st: State, s: string, i: nat)
    requires i < |s| && s[i] == '\n' && IsSequel(Pieces(c)) && IsReady(Pieces(c), s, i)
    ensures var d := ClothAfter(c, st, CutAt(s, i).lexeme);
            IsSequel(Pieces(d)) && IsClosed(Pieces(d))
  {
    NewlineCut(s, i);
    assert s[i..][0] == s[i];
    AppendSequel(c, "\n");
  }

  lemma ReadyIsClosed(ps: seq<Piece>, s: string, i: nat)
    requires i < |s| && IsReady(ps, s, i) && s[i] != '\n'
    ensures IsClosed(ps)
  {
    assert s[i..][0] == s[i];
  }

  lemma EveryTurn(c: Cloth, st: State, s: string, i: nat)
    requires i < |s| && IsSequel(Pieces(c)) && IsReady(Pieces(c), s, i)
    ensures var cut := CutAt(s, i);
            var ps := Pieces(ClothAfter(c, st, cut.lexeme));
            IsSequel(ps) && IsReady(ps, s, cut.next)
  {
    var cut := CutAt(s, i);
    if RegionEnd(s, i) > i {
      KeptSequel(c, s, i);
    } else {
      if s[i] == '\n' {
        NewlineTurn(c, st, s, i);
      } else {
        ReadyIsClosed(Pieces(c), s, i);
        CutHasNoQuote(s, i);
        ClosedTurn(c, st, cut.lexeme);
      }
      ClosedIsReady(Pieces(ClothAfter(c, st, cut.lexeme)), s, cut.next);
    }
  }

  lemma {:induction false} SewnIsSequel(c: Cloth, st: State, s: string, i: nat)
    requires i <= |s| && IsSequel(Pieces(c)) && IsReady(Pieces(c), s, i)
    ensures IsSequel(Pieces(Sew(c, st, LexemesFrom(s, i))))
    decreases |s| - i
  {
    if i < |s| {
      var cut := CutAt(s, i);
      EveryTurn(c, st, s, i);
      SewnIsSequel(ClothAfter(c, st, cut.lexeme), StateAfter(st, cut.lexeme), s, cut.next);
    }
  }

  // ---- Reading the translation ----------------------------------------------------------------

  lemma {:induction false} FlatMade(t: string)
    ensures Flat(MadeOf(t)) == t
  {
    if t != "" {
      FlatMade(t[1..]);
      assert MadeOf(t)[1..] == MadeOf(t[1..]);
    }
  }

  lemma FlatStep(ps: seq<Piece>, qs: seq<Piece>)
    requires ps != []
    ensures Flat(ps + qs) == TextOf(ps[0]) + Flat(ps[1..] + qs)
  {
    assert (ps + qs)[0] == ps[0] && (ps + qs)[1..] == ps[1..] + qs;
  }

  lemma {:induction false} FlatConcat(ps: seq<Piece>, qs: seq<Piece>)
    ensures Flat(ps + qs) == Flat(ps) + Flat(qs)
  {
    if ps == [] {
      assert ps + qs == qs;
    } else {
      FlatConcat(ps[1..], qs);
      FlatStep(ps, qs);
      Assoc(TextOf(ps[0]), Flat(ps[1..]), Flat(qs));
    }
  }

  lemma {:induction false} PiecesSpell(c: Cloth)
    ensures Flat(Pieces(c)) == ClothText(c)
  {
    FlatMade(c.made);
    if c.Sewn? {
      PiecesSpell(c.before);
      FlatConcat(Pieces(c.before), [Kept(c.region)]);
      FlatConcat(Pieces(c.before) + [Kept(c.region)], MadeOf(c.made));
      assert Flat([Kept(c.region)]) == c.region;
    }
  }

  lemma {:induction false} KeptInMade(t: string)
    ensures KeptTexts(MadeOf(t)) == []
  {
    if t != "" {
      KeptInMade(t[1..]);
      assert MadeOf(t)[1..] == MadeOf(t[1..]);
    }
  }

  function KeptHead(ps: seq<Piece>): seq<string>
    requires ps != []
  {
    if ps[0].Kept? then [ps[0].region] else []
  }

  lemma KeptAhead(ps: seq<Piece>, qs: seq<Piece>)
    requires ps != []
    ensures KeptTexts(ps + qs) == KeptHead(ps) + KeptTexts(ps[1..] + qs) && KeptTexts(ps) == KeptHead(ps) + KeptTexts(ps[1..])
  {
    assert (ps + qs)[0] == ps[0] && (ps + qs)[1..] == ps[1..] + qs;
  }

  lemma {:induction false} KeptConcat(ps: seq<Piece>, qs: seq<Piece>)
    ensures KeptTexts(ps + qs) == KeptTexts(ps) + KeptTexts(qs)
  {
    if ps == [] {
      assert ps + qs == qs;
    } else {
      KeptConcat(ps[1..], qs);
      KeptAhead(ps, qs);
      Assoc(KeptHead(ps), KeptTexts(ps[1..]), KeptTexts(qs));
    }
  }

  lemma {:induction false} KeptInCloth(c: Cloth)
    ensures KeptTexts(Pieces(c)) == ClothRegions(c)
  {
    KeptInMade(c.made);
    if c.Sewn? {
      KeptInCloth(c.before);
      KeptConcat(Pieces(c.before), [Kept(c.region)]);
      KeptConcat(Pieces(c.before) + [Kept(c.region)], MadeOf(c.made));
      assert KeptTexts([Kept(c.region)]) == [c.region];
    }
  }

  lemma {:induction false} SpansCount(ps: seq<Piece>, i: nat)
    ensures |Spans(ps, i)| == |KeptTexts(ps)|
  {
    if ps != [] {
      SpansCount(ps[1..], i + |TextOf(ps[0])|);
    }
  }

  /** The translation of a statement, in pieces. */
  function Output(s: string): seq<Piece> { Pieces(Sew(Bare(""), Start, LexemesFrom(s, 0))) }

  /** For every statement: a scan of the translation finds exactly the regions that were copied, each where
      it was put, if and only if no two neighbouring pieces join. */
  lemma RereadIff(s: string)
    ensures Flat(Output(s)) == Translated(s) && KeptTexts(Output(s)) == RegionsOf(LexemesFrom(s, 0))
    ensures |Spans(Output(s), 0)| == |RegionsOf(LexemesFrom(s, 0))|
    ensures Found(Translated(s), 0) == Spans(Output(s), 0) <==> Apart(Output(s))
  {
    var c, t := Sew(Bare(""), Start, LexemesFrom(s, 0)), Translated(s);
    SewingIsRunning(s, 0, Bare(""), Start);
    SewnRegions(Bare(""), Start, LexemesFrom(s, 0));
    KeptInCloth(c);
    SpansCount(Output(s), 0);
    PiecesSpell(c);
    SewnIsSequel(Bare(""), Start, s, 0);
    assert t[0..] == t;
    FoundIff(t, 0, Output(s));
  }
}
