/** Two statements on which the documented rule for AUTO_INCREMENT fails, from text to text. */
module MySqlWitness {
  import opened Text
  import opened MySqlLexemes
  import opened MySqlTranslate

  // ---- Cutting known words --------------------------------------------------------------------

  lemma {:induction false} IdentRun(s: string, i: nat, hi: nat)
    requires i <= hi <= |s| && (forall k :: i <= k < hi ==> IsIdentByte(s[k])) && (hi < |s| ==> !IsIdentByte(s[hi]))
    ensures IdentEnd(s, i) == hi
    decreases hi - i
  {
    if i < hi {
      IdentRun(s, i + 1, hi);
    }
  }

  predicate IsUpperWord(w: string) {
    w != "" && forall k :: 0 <= k < |w| ==> IsIdentByte(w[k]) && !IsDigit(w[k]) && !('a' <= w[k] <= 'z')
  }

  predicate IsMark(c: char) { c == '(' || c == ')' || c == ',' || c == ' ' }

  /** A byte that is part of no word. */
  predicate IsEdge(c: char) { !IsLatin1Letter(c) && !IsDigit(c) && c != '_' }

  /** An upper-case word behind an edge or at the start, and before an edge. */
  predicate StandsAt(s: string, i: nat, w: string) {
    IsUpperWord(w) && At(s, i, w) && (i > 0 ==> IsEdge(s[i - 1])) && i + |w| < |s| && IsEdge(s[i + |w|])
  }

  lemma UpperIsSame(w: string)
    requires IsUpperWord(w)
    ensures Upper(w) == w
  {
  }

  lemma WordAt(s: string, i: nat, w: string)
    requires StandsAt(s, i, w)
    ensures RegionEnd(s, i) == i && IsWordStart(s, i) && IdentEnd(s, i) == i + |w| && Upper(s[i..i + |w|]) == w
  {
    AtSlice(s, i, w);
    AtChar(s, i, w, 0);
    forall k | i <= k < i + |w| ensures IsIdentByte(s[k]) {
      AtChar(s, i, w, k - i);
    }
    IdentRun(s, i, i + |w|);
    UpperIsSame(w);
  }

  const AUTO := "AUTO_INCREMENT"

  lemma WordsAreUpper()
    ensures |AUTO| == 14 && IsUpperWord(AUTO) && IsUpperWord("PRIMARY") && IsUpperWord("KEY")
  {
  }

  lemma AtMostOneBlank(s: string, k: nat, j: nat)
    requires k <= j <= k + 1 && j <= |s| && (k < j ==> s[k] == ' ')
    ensures s[k..j] == if k < j then " " else ""
  {
  }

  /** The keyword with at most one blank behind it, and then a parenthesis. */
  lemma AutoAt(s: string, i: nat, j: nat)
    requires StandsAt(s, i, AUTO) && i + 14 <= j <= i + 15 && j < |s| && IsMark(s[j]) && s[j] != ' '
    requires j == i + 15 ==> s[i + 14] == ' '
    ensures CutAt(s, i) == Cut(Auto(if j == i + 15 then " " else ""), j)
  {
    WordsAreUpper();
    WordAt(s, i, AUTO);
    assert BlankEnd(s, j) == j;
    assert BlankEnd(s, i + 14) == j;
    assert ValueEnd(s, i + 14) == 0;
    AtMostOneBlank(s, i + 14, j);
  }

  lemma KeyAt(s: string, i: nat)
    requires StandsAt(s, i, "PRIMARY") && s[i + 7] == ' ' && StandsAt(s, i + 8, "KEY")
    ensures CutAt(s, i) == Cut(Key, i + 11)
  {
    WordAt(s, i, "PRIMARY");
    WordAt(s, i + 8, "KEY");
    AtChar(s, i + 8, "KEY", 0);
    assert BlankEnd(s, i + 8) == i + 8;
    assert BlankEnd(s, i + 7) == i + 8;
  }

  lemma MarkAt(s: string, i: nat)
    requires i < |s| && IsMark(s[i])
    ensures CutAt(s, i) == Cut(PunctuationAt(s[i]), i + 1)
  {
  }

  lemma RunOne(out: string, st: State, x: Lexeme, xs: Lexemes)
    ensures Run(out, st, Next(x, xs)) == Run(OutAfter(out, st, x), StateAfter(st, x), xs)
  {
  }

  lemma KeyIsTwoWords(s: string, i: nat)
    requires At(s, i, "PRIMARY KEY") && (i > 0 ==> IsMark(s[i - 1])) && i + 11 < |s| && IsMark(s[i + 11])
    ensures StandsAt(s, i, "PRIMARY") && s[i + 7] == ' ' && StandsAt(s, i + 8, "KEY")
  {
    WordsAreUpper();
    assert "PRIMARY" + (" " + "KEY") == "PRIMARY KEY";
    AtSplit(s, i, "PRIMARY", " " + "KEY");
    AtSplit(s, i + 7, " ", "KEY");
    AtChar(s, i + 7, " ", 0);
  }

  // ---- Spelling lexemes -----------------------------------------------------------------------

  function SpelledOne(x: Lexeme): string {
    match x
    case Open => "("
    case Close => ")"
    case Comma => ","
    case Auto(blanks) => AUTO + blanks
    case Key => "PRIMARY KEY"
    case _ => " "
  }

  function Spelled(xs: Lexemes): string {
    if xs.Done? then "" else SpelledOne(xs.head) + Spelled(xs.tail)
  }

  predicate IsMarkLexeme(x: Lexeme) { x.Open? || x.Close? || x.Comma? || x == Plain(" ") }

  /** A keyword that can be told apart from what follows: AUTO_INCREMENT takes in all blanks. */
  predicate IsWordLexeme(x: Lexeme, next: Lexeme) {
    IsMarkLexeme(next) && (x == Key || ((x == Auto("") || x == Auto(" ")) && next != Plain(" ")))
  }

  /** Marks and keywords, each keyword behind and before a mark. */
  predicate CutsBack(behindMark: bool, xs: Lexemes)
    decreases xs
  {
    xs.Next? ==>
      && (IsMarkLexeme(xs.head) || (behindMark && xs.tail.Next? && IsWordLexeme(xs.head, xs.tail.head)))
      && CutsBack(IsMarkLexeme(xs.head), xs.tail)
  }

  lemma MarkSpelled(x: Lexeme)
    requires IsMarkLexeme(x)
    ensures |SpelledOne(x)| == 1 && IsMark(SpelledOne(x)[0]) && PunctuationAt(SpelledOne(x)[0]) == x
    ensures SpelledOne(x)[0] == ' ' <==> x == Plain(" ")
  {
  }

  /** The mark at the head of what is spelled at `i`. */
  lemma MarkHead(s: string, i: nat, xs: Lexemes)
    requires At(s, i, Spelled(xs)) && xs.Next? && IsMarkLexeme(xs.head)
    ensures i < |s| && IsMark(s[i]) && PunctuationAt(s[i]) == xs.head && (s[i] == ' ' <==> xs.head == Plain(" "))
  {
    MarkSpelled(xs.head);
    AtChar(s, i, Spelled(xs), 0);
  }

  lemma AutoSpelled(s: string, i: nat, blanks: string, rest: Lexemes)
    requires At(s, i, AUTO + blanks) && (blanks == "" || blanks == " ") && (i > 0 ==> IsMark(s[i - 1]))
    requires At(s, i + 14 + |blanks|, Spelled(rest)) && rest.Next? && IsMarkLexeme(rest.head) && rest.head != Plain(" ")
    ensures CutAt(s, i) == Cut(Auto(blanks), i + 14 + |blanks|)
  {
    WordsAreUpper();
    AtSplit(s, i, AUTO, blanks);
    MarkHead(s, i + 14 + |blanks|, rest);
    if blanks == " " {
      AtChar(s, i + 14, blanks, 0);
    }
    AutoAt(s, i, i + 14 + |blanks|);
  }

  lemma KeySpelled(s: string, i: nat, rest: Lexemes)
    requires At(s, i, "PRIMARY KEY") && (i > 0 ==> IsMark(s[i - 1]))
    requires At(s, i + 11, Spelled(rest)) && rest.Next? && IsMarkLexeme(rest.head)
    ensures CutAt(s, i) == Cut(Key, i + 11)
  {
    MarkHead(s, i + 11, rest);
    KeyIsTwoWords(s, i);
    KeyAt(s, i);
  }

  lemma MarkIsCut(s: string, i: nat, x: Lexeme)
    requires IsMarkLexeme(x) && At(s, i, SpelledOne(x))
    ensures i < |s| && IsMark(s[i]) && CutAt(s, i) == Cut(x, i + 1) && |SpelledOne(x)| == 1
  {
    MarkSpelled(x);
    AtChar(s, i, SpelledOne(x), 0);
    MarkAt(s, i);
  }

  lemma WordIsCut(s: string, i: nat, x: Lexeme, j: nat, rest: Lexemes)
    requires At(s, i, SpelledOne(x)) && j == i + |SpelledOne(x)| && At(s, j, Spelled(rest))
    requires rest.Next? && IsWordLexeme(x, rest.head) && (i > 0 ==> IsMark(s[i - 1]))
    ensures i < |s| && CutAt(s, i) == Cut(x, j)
  {
    WordsAreUpper();
    match x
    case Key => KeySpelled(s, i, rest);
    case Auto(blanks) => AutoSpelled(s, i, blanks, rest);
  }

  lemma LexemesHead(s: string, i: nat, x: Lexeme, j: nat)
    requires i < |s| && CutAt(s, i) == Cut(x, j)
    ensures LexemesFrom(s, i) == Next(x, LexemesFrom(s, j))
  {
  }

  lemma HeadIsCut(s: string, i: nat, x: Lexeme, j: nat, rest: Lexemes, behindMark: bool)
    requires At(s, i, SpelledOne(x)) && j == i + |SpelledOne(x)| && At(s, j, Spelled(rest))
    requires IsMarkLexeme(x) || (behindMark && rest.Next? && IsWordLexeme(x, rest.head))
    requires behindMark && i > 0 ==> IsMark(s[i - 1])
    ensures i < |s| && CutAt(s, i) == Cut(x, j) && (IsMarkLexeme(x) ==> j == i + 1 && IsMark(s[i]))
  {
    if IsMarkLexeme(x) {
      MarkIsCut(s, i, x);
    } else {
      WordIsCut(s, i, x, j, rest);
    }
  }

  lemma HeadIsNext(s: string, i: nat, x: Lexeme, j: nat, rest: Lexemes, behindMark: bool)
    requires At(s, i, SpelledOne(x)) && j == i + |SpelledOne(x)| && At(s, j, Spelled(rest))
    requires IsMarkLexeme(x) || (behindMark && rest.Next? && IsWordLexeme(x, rest.head))
    requires behindMark && i > 0 ==> IsMark(s[i - 1])
    ensures i < j <= |s| && LexemesFrom(s, i) == Next(x, LexemesFrom(s, j))
    ensures IsMarkLexeme(x) ==> IsMark(s[j - 1])
  {
    HeadIsCut(s, i, x, j, rest, behindMark);
    LexemesHead(s, i, x, j);
  }

  /** Spelled lexemes are cut back to themselves. */
  lemma {:induction false} SpelledIsCut(s: string, i: nat, xs: Lexemes, behindMark: bool)
    requires CutsBack(behindMark, xs) && At(s, i, Spelled(xs)) && i + |Spelled(xs)| == |s|
    requires behindMark && i > 0 ==> IsMark(s[i - 1])
    ensures LexemesFrom(s, i) == xs
    decreases xs
  {
    match xs
    case Done =>
    case Next(x, rest) =>
      var j := i + |SpelledOne(x)|;
      AtSplit(s, i, SpelledOne(x), Spelled(rest));
      HeadIsNext(s, i, x, j, rest, behindMark);
      SpelledIsCut(s, j, rest, IsMarkLexeme(x));
  }

  // ---- A keyword that is lost between itself and its key --------------------------------------

  const LOST := Next(Open, Next(Auto(" "), Next(Open, Next(Auto(""), Next(Close, Next(Key, Next(Close, Done)))))))

  lemma SpelledMore(x: Lexeme, xs: Lexemes, t: string)
    requires Spelled(xs) == t
    ensures Spelled(Next(x, xs)) == SpelledOne(x) + t
  {
  }

  lemma LostInnerText()
    ensures "(" + (AUTO + (")" + ("PRIMARY KEY" + ")"))) == "(AUTO_INCREMENT)PRIMARY KEY)"
  {
  }

  lemma LostOuterText()
    ensures "(" + (AUTO + " ") == "(AUTO_INCREMENT "
  {
  }

  lemma LostSpelled()
    ensures Spelled(LOST) == "(AUTO_INCREMENT " + "(AUTO_INCREMENT)PRIMARY KEY)"
  {
    var end := Next(Close, Done);
    var keyed := Next(Close, Next(Key, end));
    var t := ")" + ("PRIMARY KEY" + ")");
    assert Spelled(Done) == "" && ")" + "" == ")" && AUTO + "" == AUTO;
    SpelledMore(Close, Done, "");
    SpelledMore(Key, end, ")");
    SpelledMore(Close, Next(Key, end), "PRIMARY KEY" + ")");
    SpelledMore(Auto(""), keyed, t);
    SpelledMore(Open, Next(Auto(""), keyed), AUTO + t);
    SpelledMore(Auto(" "), Next(Open, Next(Auto(""), keyed)), "(" + (AUTO + t));
    SpelledMore(Open, LOST.tail, (AUTO + " ") + ("(" + (AUTO + t)));
    LostInnerText();
    LostOuterText();
    Assoc("(", AUTO + " ", "(" + (AUTO + t));
  }

  lemma CutsBackMore(x: Lexeme, xs: Lexemes, behindMark: bool)
    requires IsMarkLexeme(x) || (behindMark && xs.Next? && IsWordLexeme(x, xs.head))
    requires CutsBack(IsMarkLexeme(x), xs)
    ensures CutsBack(behindMark, Next(x, xs))
  {
  }

  lemma LostCutsBack()
    ensures CutsBack(true, LOST)
  {
    var end := Next(Close, Done);
    var keyed := Next(Close, Next(Key, end));
    assert CutsBack(true, Done);
    CutsBackMore(Close, Done, false);
    CutsBackMore(Key, end, true);
    CutsBackMore(Close, Next(Key, end), false);
    CutsBackMore(Auto(""), keyed, true);
    CutsBackMore(Open, Next(Auto(""), keyed), false);
    CutsBackMore(Auto(" "), Next(Open, Next(Auto(""), keyed)), true);
    CutsBackMore(Open, LOST.tail, true);
  }

  lemma OpensRun(out: string, d: int, p: Option<int>, k: Option<int>, xs: Lexemes)
    ensures Run(out, State(d, p, k), Next(Open, xs)) == Run(out + "(", State(d + 1, p, k), xs)
  {
  }

  lemma DefersRun(o: string, d: int, p: Option<int>, blanks: string, xs: Lexemes)
    ensures Run(o, State(d, p, None), Next(Auto(blanks), xs)) == Run(o, State(d, Some(d), None), xs)
  {
  }

  lemma ClosesRun(o: string, d: int, xs: Lexemes)
    requires TrimBlanks(o) == o
    ensures Run(o, State(d, Some(d), None), Next(Close, xs)) == Run(o + ")", State(d - 1, None, None), xs)
  {
  }

  lemma KeyRuns(o: string)
    ensures Run(o, State(1, None, None), Next(Key, Next(Close, Done))) == (o + "PRIMARY KEY") + ")"
  {
    RunOne(o, State(1, None, None), Key, Next(Close, Done));
    RunOne(o + "PRIMARY KEY", State(1, None, Some(1)), Close, Done);
  }

  lemma OpenIsNoBlank(o: string)
    ensures TrimBlanks(o + "(") == o + "("
  {
  }

  /** Past the outer keyword: the nested one takes over the pending mark, and its parenthesis drops it. */
  lemma LostRuns(o: string, keyed: Lexemes)
    requires keyed == Next(Key, Next(Close, Done))
    ensures Run(o, State(1, None, None), Next(Auto(" "), Next(Open, Next(Auto(""), Next(Close, keyed))))) ==
            (((o + "(") + ")") + "PRIMARY KEY") + ")"
  {
    var nested := Next(Auto(""), Next(Close, keyed));
    DefersRun(o, 1, None, " ", Next(Open, nested));
    OpensRun(o, 1, Some(1), None, nested);
    DefersRun(o + "(", 2, Some(1), "", Next(Close, keyed));
    OpenIsNoBlank(o);
    ClosesRun(o + "(", 2, keyed);
    KeyRuns((o + "(") + ")");
  }

  lemma LostOutput()
    ensures ((("(" + "(") + ")") + "PRIMARY KEY") + ")" == "(()PRIMARY KEY)" && TrimBlanks("(") == "("
  {
  }

  /** The keyword nested between AUTO_INCREMENT and PRIMARY KEY costs the column its AUTOINCREMENT. */
  lemma NestedAutoIsLost(s: string)
    requires s == "(AUTO_INCREMENT " + "(AUTO_INCREMENT)PRIMARY KEY)"
    ensures Translated(s) == "(()PRIMARY KEY)"
  {
    LostSpelled();
    LostCutsBack();
    SpelledIsCut(s, 0, LOST, true);
    OpensRun("", 0, None, None, LOST.tail);
    assert "" + "(" == "(";
    LostOutput();
    LostRuns("(", Next(Key, Next(Close, Done)));
  }

  // ---- A keyword that is lost behind its key --------------------------------------------------

  const DROPPED :=
    Next(Open, Next(Key, Next(Plain(" "), Next(Open, Next(Key, Next(Close, Next(Plain(" "), Next(Auto(""), Next(Close, Done)))))))))

  lemma DroppedOuterText()
    ensures "(" + ("PRIMARY KEY" + " ") == "(PRIMARY KEY "
  {
  }

  lemma DroppedInnerText()
    ensures "(" + ("PRIMARY KEY" + (")" + (" " + (AUTO + ")")))) == "(PRIMARY KEY) AUTO_INCREMENT)"
  {
  }

  lemma DroppedSpelled()
    ensures Spelled(DROPPED) == "(PRIMARY KEY " + "(PRIMARY KEY) AUTO_INCREMENT)"
  {
    var end := Next(Plain(" "), Next(Auto(""), Next(Close, Done)));
    var t := " " + (AUTO + ")");
    var inner := Next(Open, Next(Key, Next(Close, end)));
    var u := "(" + ("PRIMARY KEY" + (")" + t));
    assert Spelled(Done) == "" && ")" + "" == ")" && AUTO + "" == AUTO;
    SpelledMore(Close, Done, "");
    SpelledMore(Auto(""), Next(Close, Done), ")");
    SpelledMore(Plain(" "), end.tail, AUTO + ")");
    SpelledMore(Close, end, t);
    SpelledMore(Key, Next(Close, end), ")" + t);
    SpelledMore(Open, inner.tail, "PRIMARY KEY" + (")" + t));
    SpelledMore(Plain(" "), inner, u);
    SpelledMore(Key, Next(Plain(" "), inner), " " + u);
    SpelledMore(Open, DROPPED.tail, "PRIMARY KEY" + (" " + u));
    DroppedOuterText();
    DroppedInnerText();
    Assoc("PRIMARY KEY", " ", u);
    Assoc("(", "PRIMARY KEY" + " ", u);
  }

  lemma DroppedCutsBack()
    ensures CutsBack(true, DROPPED)
  {
    var end := Next(Plain(" "), Next(Auto(""), Next(Close, Done)));
    var inner := Next(Open, Next(Key, Next(Close, end)));
    assert CutsBack(true, Done);
    CutsBackMore(Close, Done, false);
    CutsBackMore(Auto(""), Next(Close, Done), true);
    CutsBackMore(Plain(" "), end.tail, true);
    CutsBackMore(Close, end, false);
    CutsBackMore(Key, Next(Close, end), true);
    CutsBackMore(Open, inner.tail, true);
    CutsBackMore(Plain(" "), inner, false);
    CutsBackMore(Key, Next(Plain(" "), inner), true);
    CutsBackMore(Open, DROPPED.tail, true);
  }

  /** Past the nested key: its parenthesis has made the translator forget the outer one. */
  lemma DroppedTail(o: string)
    requires TrimBlanks(o) == o
    ensures Run(o, State(1, None, None), Next(Plain(" "), Next(Auto(""), Next(Close, Done)))) == o + ")"
  {
    assert (o + " ")[..|o|] == o;
    assert TrimBlanks(o + " ") == o;
    RunOne(o, State(1, None, None), Plain(" "), Next(Auto(""), Next(Close, Done)));
    RunOne(o + " ", State(1, None, None), Auto(""), Next(Close, Done));
    RunOne(o + " ", State(1, Some(1), None), Close, Done);
  }

  lemma DroppedRuns(o: string)
    ensures var i := ((o + "PRIMARY KEY") + " ") + "(";
            Run(o, State(1, None, None), DROPPED.tail) == ((i + "PRIMARY KEY") + ")") + ")"
  {
    var end := Next(Plain(" "), Next(Auto(""), Next(Close, Done)));
    var p := o + "PRIMARY KEY";
    var i := (p + " ") + "(";
    var last := (i + "PRIMARY KEY") + ")";
    RunOne(o, State(1, None, None), Key, DROPPED.tail.tail);
    RunOne(p, State(1, None, Some(1)), Plain(" "), Next(Open, Next(Key, Next(Close, end))));
    OpensRun(p + " ", 1, None, Some(1), Next(Key, Next(Close, end)));
    RunOne(i, State(2, None, Some(1)), Key, Next(Close, end));
    RunOne(i + "PRIMARY KEY", State(2, None, Some(2)), Close, end);
    assert TrimBlanks(last) == last;
    DroppedTail(last);
  }

  lemma DroppedOutput()
    ensures ((((((("(" + "PRIMARY KEY") + " ") + "(") + "PRIMARY KEY") + ")") + ")")) == "(PRIMARY KEY (PRIMARY KEY))"
  {
  }

  /** The key nested between PRIMARY KEY and AUTO_INCREMENT makes the translator drop the keyword. */
  lemma NestedKeyDropsAuto(s: string)
    requires s == "(PRIMARY KEY " + "(PRIMARY KEY) AUTO_INCREMENT)"
    ensures Translated(s) == "(PRIMARY KEY (PRIMARY KEY))"
  {
    DroppedSpelled();
    DroppedCutsBack();
    SpelledIsCut(s, 0, DROPPED, true);
    OpensRun("", 0, None, None, DROPPED.tail);
    assert "" + "(" == "(";
    DroppedRuns("(");
    DroppedOutput();
  }
}
