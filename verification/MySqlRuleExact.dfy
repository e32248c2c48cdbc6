/** When the documented rule for AUTO_INCREMENT is what comes out, and when it is not. */
module MySqlRuleExact {
  import opened Text
  import opened MySqlLexemes
  import opened MySqlTranslate
  import opened MySqlRegions
  import opened MySqlColumns
  import opened MySqlRule

  // ---- Text that does not end in a blank stays in front ---------------------------------------

  lemma TextPrefix(o: string, x: string, l: Level, y: Lexeme)
    requires !EndsBlank(o) && IsInner(y)
    ensures TextAfter(o + x, l, y) == o + TextAfter(x, l, y)
  {
    match y
    case Region(text) => Assoc(o, x, text);
    case Plain(text) => Assoc(o, x, text);
    case Setting => TrimWithin(o, x);
    case Auto(blanks) => Assoc(o, x, "AUTOINCREMENT" + blanks);
    case Key => Assoc(o, x, if l.pending then "PRIMARY KEY AUTOINCREMENT" else "PRIMARY KEY");
  }

  lemma ClosedPrefix(o: string, x: string, l: Level, t: string)
    requires !EndsBlank(o)
    ensures Closed(o + x, l) + t == o + (Closed(x, l) + t)
  {
    TrimWithin(o, x);
    Assoc(o, Closed(x, l), t);
  }

  lemma {:induction false} WalkPrefix(o: string, x: string, l: Level, xs: Items)
    requires !EndsBlank(o) && WellNested(xs)
    ensures Walk(o + x, l, xs).out == o + Walk(x, l, xs).out && Walk(o + x, l, xs).level == Walk(x, l, xs).level
    decreases xs
  {
    match xs
    case End =>
    case Item(y, rest) =>
      TextPrefix(o, x, l, y);
      WalkPrefix(o, TextAfter(x, l, y), LevelAfter(l, y), rest);
    case Sep(rest) =>
      ClosedPrefix(o, x, l, ",");
      WalkPrefix(o, Closed(x, l) + ",", NewColumn(l), rest);
    case Group(inner, rest) =>
      Assoc(o, x, "(");
      WalkPrefix(o, x + "(", Fresh, inner);
      var w := Walk(x + "(", Fresh, inner);
      ClosedPrefix(o, w.out, w.level, ")");
      WalkPrefix(o, Closed(w.out, w.level) + ")", Around(l, w.level), rest);
  }

  /** The rule for a column with AUTO_INCREMENT before PRIMARY KEY holds exactly if no AUTO_INCREMENT
      waits in a parenthesis between the two. */
  lemma AutoLandsOnItsKeyIff(out: string, a: Items, blanks: string, b: Items, c: Items)
    requires IsPart(a) && IsPart(b) && IsPart(c) && WellNested(c)
    ensures ColumnText(out, Then(a, Item(Auto(blanks), Then(b, Item(Key, c))))) ==
            PartText(PartText(PartText(out, a), b) + "PRIMARY KEY AUTOINCREMENT", c)
            <==> !Waits(b, false)
  {
    AutoBeforeKey(out, a, blanks, b, c);
    var o := PartText(PartText(out, a), b);
    BehindKey(o, "PRIMARY KEY", c);
    BehindKey(o, "PRIMARY KEY AUTOINCREMENT", c);
  }

  lemma BehindKey(o: string, kw: string, c: Items)
    requires kw != "" && !EndsBlank(kw) && WellNested(c)
    ensures |PartText(o + kw, c)| == |o| + |kw| + |PartText("", c)|
  {
    EndOfPair(o, kw);
    WalkPrefix(o + kw, "", Fresh, c);
    assert (o + kw) + "" == o + kw;
  }

  // ---- A part adds no more behind one text than behind another --------------------------------

  /** The two texts end alike, behind at most `n` bytes of the first. */
  ghost predicate EndAlike(x: string, y: string, n: nat) {
    exists p, q, z :: Splits(x, y, n, p, q, z)
  }

  predicate Splits(x: string, y: string, n: nat, p: string, q: string, z: string) {
    x == p + z && y == q + z && |p| <= n
  }

  lemma AlikeAppend(x: string, y: string, n: nat, t: string)
    requires EndAlike(x, y, n)
    ensures EndAlike(x + t, y + t, n)
  {
    var p, q, z :| Splits(x, y, n, p, q, z);
    Assoc(p, z, t);
    Assoc(q, z, t);
    assert Splits(x + t, y + t, n, p, q, z + t);
  }

  lemma {:induction false} TrimAllBlank(p: string, z: string)
    requires TrimBlanks(z) == ""
    ensures TrimBlanks(p + z) == TrimBlanks(p)
    decreases |z|
  {
    if z == "" {
      assert p + z == p;
    } else {
      var n := |z| - 1;
      assert (p + z)[..|p + z| - 1] == p + z[..n];
      TrimAllBlank(p, z[..n]);
    }
  }

  lemma AlikeTrim(x: string, y: string, n: nat)
    requires EndAlike(x, y, n)
    ensures EndAlike(TrimBlanks(x), TrimBlanks(y), n)
  {
    var p, q, z :| Splits(x, y, n, p, q, z);
    if TrimBlanks(z) == "" {
      TrimAllBlank(p, z);
      TrimAllBlank(q, z);
      assert Splits(TrimBlanks(x), TrimBlanks(y), n, TrimBlanks(p), TrimBlanks(q), "");
    } else {
      TrimWithin(p, z);
      TrimWithin(q, z);
      assert Splits(TrimBlanks(x), TrimBlanks(y), n, p, q, TrimBlanks(z));
    }
  }

  lemma TextAlike(x: string, y: string, n: nat, l: Level, e: Lexeme)
    requires EndAlike(x, y, n) && IsInner(e)
    ensures EndAlike(TextAfter(x, l, e), TextAfter(y, l, e), n)
  {
    match e
    case Region(text) => AlikeAppend(x, y, n, text);
    case Plain(text) => AlikeAppend(x, y, n, text);
    case Setting => AlikeTrim(x, y, n);
    case Auto(blanks) => AlikeAppend(x, y, n, "AUTOINCREMENT" + blanks);
    case Key => AlikeAppend(x, y, n, if l.pending then "PRIMARY KEY AUTOINCREMENT" else "PRIMARY KEY");
  }

  lemma ClosedAlike(x: string, y: string, n: nat, l: Level, t: string)
    requires EndAlike(x, y, n)
    ensures EndAlike(Closed(x, l) + t, Closed(y, l) + t, n)
  {
    AlikeTrim(x, y, n);
    AlikeAppend(Closed(x, l), Closed(y, l), n, t);
  }

  lemma {:induction false} WalkAlike(x: string, y: string, n: nat, l: Level, xs: Items)
    requires EndAlike(x, y, n) && WellNested(xs)
    ensures EndAlike(Walk(x, l, xs).out, Walk(y, l, xs).out, n) && Walk(x, l, xs).level == Walk(y, l, xs).level
    decreases xs
  {
    match xs
    case End =>
    case Item(e, rest) =>
      TextAlike(x, y, n, l, e);
      WalkAlike(TextAfter(x, l, e), TextAfter(y, l, e), n, LevelAfter(l, e), rest);
    case Sep(rest) =>
      ClosedAlike(x, y, n, l, ",");
      WalkAlike(Closed(x, l) + ",", Closed(y, l) + ",", n, NewColumn(l), rest);
    case Group(inner, rest) =>
      AlikeAppend(x, y, n, "(");
      WalkAlike(x + "(", y + "(", n, Fresh, inner);
      var v, w := Walk(x + "(", Fresh, inner), Walk(y + "(", Fresh, inner);
      ClosedAlike(v.out, w.out, n, v.level, ")");
      WalkAlike(Closed(v.out, v.level) + ")", Closed(w.out, w.level) + ")", n, Around(l, v.level), rest);
  }

  lemma PartAddsNoMore(x: string, y: string, c: Items)
    requires WellNested(c)
    ensures |PartText(x, c)| <= |x| + |PartText(y, c)|
  {
    assert x + "" == x && y + "" == y;
    assert Splits(x, y, |x|, x, y, "");
    WalkAlike(x, y, |x|, Fresh, c);
    var p, q, z :| Splits(PartText(x, c), PartText(y, c), |x|, p, q, z);
  }

  /** The rule for a column with PRIMARY KEY before AUTO_INCREMENT holds exactly if no PRIMARY KEY is
      nested between the two. */
  lemma AutoStaysBehindItsKeyIff(out: string, a: Items, b: Items, blanks: string, c: Items)
    requires IsPart(a) && IsPart(b) && IsPart(c) && WellNested(c)
    ensures ColumnText(out, Then(a, Item(Key, Then(b, Item(Auto(blanks), c))))) ==
            PartText(PartText(PartText(out, a) + "PRIMARY KEY", b) + ("AUTOINCREMENT" + blanks), c)
            <==> !Prints(b)
  {
    KeyBeforeAuto(out, a, b, blanks, c);
    var o := PartText(PartText(out, a) + "PRIMARY KEY", b);
    var kw := "AUTOINCREMENT";
    PartAddsNoMore(o, blanks, c);
    EndOfPair(o, kw);
    WalkPrefix(o + kw, blanks, Fresh, c);
    Assoc(o, kw, blanks);
  }
}
