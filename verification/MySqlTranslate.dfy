/**
 The MySQL translator as a machine over lexemes: nesting depth, an AUTO_INCREMENT waiting for its
 PRIMARY KEY, and the PRIMARY KEY already printed, each with the depth it was met at.
 */
module MySqlTranslate {
  import opened Text
  import opened MySqlLexemes

  datatype State = State(depth: int, pending: Option<int>, key: Option<int>)

  const Start := State(0, None, None)

  function TrimBlanks(out: string): (r: string)
    ensures r <= out
  {
    if out != "" && IsBlank(out[|out| - 1]) then TrimBlanks(out[..|out| - 1]) else out
  }

  method TrimTrailingHSpace(out: string) returns (r: string)
    ensures r == TrimBlanks(out)
  {
    r := out;
    while |r| > 0 && (r[|r| - 1] == ' ' || r[|r| - 1] == '\t')
      invariant TrimBlanks(r) == TrimBlanks(out)
    {
      r := r[..|r| - 1];
    }
  }

  /** A column ends here: what was met at this depth is forgotten. */
  function Leave(st: State): State {
    State(st.depth,
          if st.pending == Some(st.depth) then None else st.pending,
          if st.key == Some(st.depth) then None else st.key)
  }

  function Ended(out: string, st: State): string {
    if st.pending == Some(st.depth) then TrimBlanks(out) else out
  }

  function StateAfter(st: State, x: Lexeme): State {
    match x
    case Open => st.(depth := st.depth + 1)
    case Close => Leave(st).(depth := st.depth - 1)
    case Comma => Leave(st)
    case Auto(_) => if st.key == Some(st.depth) then st else st.(pending := Some(st.depth))
    case Key => State(st.depth, if st.pending == Some(st.depth) then None else st.pending, Some(st.depth))
    case _ => st
  }

  function OutAfter(out: string, st: State, x: Lexeme): string {
    match x
    case Region(text) => out + text
    case Open => out + "("
    case Close => Ended(out, st) + ")"
    case Comma => Ended(out, st) + ","
    case Plain(text) => out + text
    case Setting => TrimBlanks(out)
    case Auto(blanks) => if st.key == Some(st.depth) then out + ("AUTOINCREMENT" + blanks) else out
    case Key => out + (if st.pending == Some(st.depth) then "PRIMARY KEY AUTOINCREMENT" else "PRIMARY KEY")
  }

  function Run(out: string, st: State, xs: Lexemes): string
    decreases xs
  {
    if xs.Done? then out else Run(OutAfter(out, st, xs.head), StateAfter(st, xs.head), xs.tail)
  }

  function Translated(s: string): string { Run("", Start, LexemesFrom(s, 0)) }

  // ---- The single pass ------------------------------------------------------------------------

  lemma OneTurn(s: string, i: nat, out: string, st: State)
    requires i < |s|
    ensures var c := CutAt(s, i);
            Run(out, st, LexemesFrom(s, i)) == Run(OutAfter(out, st, c.lexeme), StateAfter(st, c.lexeme), LexemesFrom(s, c.next))
  {
  }

  lemma BlankCut(s: string, i: nat)
    requires i < |s| && IsBlank(s[i])
    ensures CutAt(s, i) == Cut(Plain([s[i]]), i + 1)
  {
  }

  lemma FirstByte(s: string, i: nat, j: nat, out: string)
    requires i < j <= |s|
    ensures (out + [s[i]]) + s[i + 1..j] == out + s[i..j]
  {
  }

  /** Blanks come out one by one as they stand. */
  lemma {:induction false} BlanksPass(s: string, i: nat, out: string, st: State)
    requires i <= |s|
    ensures Run(out, st, LexemesFrom(s, i)) == Run(out + s[i..BlankEnd(s, i)], st, LexemesFrom(s, BlankEnd(s, i)))
    decreases |s| - i
  {
    if i < |s| && IsBlank(s[i]) {
      BlankCut(s, i);
      OneTurn(s, i, out, st);
      BlanksPass(s, i + 1, out + [s[i]], st);
      FirstByte(s, i, BlankEnd(s, i), out);
    } else {
      assert out + s[i..i] == out;
    }
  }

  method TranslateSQL(s: string) returns (out: string)
    ensures out == Translated(s)
  {
    out := "";
    var st := Start;
    var i := 0;
    while i < |s|
      invariant 0 <= i <= |s|
      invariant Run(out, st, LexemesFrom(s, i)) == Translated(s)
    {
      OneTurn(s, i, out, st);
      var c := s[i];
      var j := SkipRegion(s, i);
      if j > i {
        out := out + s[i..j];
        i := j;
      } else if !IsWordStart(s, i) {
        out, st := Punctuate(c, out, st);
        i := i + 1;
      } else {
        out, st, i := Word(s, i, out, st);
      }
    }
  }

  /** The turn over one word. */
  method Word(s: string, i: nat, out: string, st: State) returns (r: string, after: State, next: nat)
    requires i < |s| && RegionEnd(s, i) == i && IsWordStart(s, i)
    ensures i < next <= |s| && Run(r, after, LexemesFrom(s, next)) == Run(out, st, LexemesFrom(s, i))
  {
    OneTurn(s, i, out, st);
    WordIsNotEmpty(s, i);
    var j := SkipIdent(s, i);
    var up := Upper(s[i..j]);
    if up == "AUTO_INCREMENT" {
      r, after, next := AutoIncrement(s, i, j, out, st);
    } else if up == "PRIMARY" {
      r, after, next := Primary(s, i, j, out, st);
    } else {
      r, next := RewriteWord(s, i, j, out);
      after := st;
    }
  }

  /** Parentheses and commas end or nest columns; then the byte itself goes out. */
  method Punctuate(c: char, out: string, st: State) returns (r: string, after: State)
    ensures r == OutAfter(out, st, PunctuationAt(c)) && after == StateAfter(st, PunctuationAt(c))
  {
    r, after := out, st;
    if c == '(' {
      after := after.(depth := after.depth + 1);
    } else if c == ')' || c == ',' {
      if after.pending == Some(after.depth) {
        r := TrimTrailingHSpace(r);
        after := after.(pending := None);
      }
      if after.key == Some(after.depth) {
        after := after.(key := None);
      }
      if c == ')' {
        after := after.(depth := after.depth - 1);
      }
    }
    r := r + [c];
  }

  /** Behind a printed PRIMARY KEY the keyword comes out in place, and its blanks in later turns. */
  method AutoIncrement(s: string, i: nat, j: nat, out: string, st: State) returns (r: string, after: State, next: nat)
    requires i < j <= |s| && Upper(s[i..j]) == "AUTO_INCREMENT"
    ensures i < next <= |s|
    ensures var c := WordCut(s, i, j);
            Run(r, after, LexemesFrom(s, next)) ==
            Run(OutAfter(out, st, c.lexeme), StateAfter(st, c.lexeme), LexemesFrom(s, c.next))
  {
    r, after := out, st;
    next := MatchTableOption(s, i, j);
    if next > 0 {
      r := TrimTrailingHSpace(out);
    } else if st.key == Some(st.depth) {
      r := out + "AUTOINCREMENT";
      BlanksPass(s, j, r, st);
      Assoc(out, "AUTOINCREMENT", s[j..BlankEnd(s, j)]);
      next := j;
    } else {
      after := st.(pending := Some(st.depth));
      next := SkipBlanks(s, j);
    }
  }

  method Primary(s: string, i: nat, j: nat, out: string, st: State) returns (r: string, after: State, next: nat)
    requires i < j <= |s| && Upper(s[i..j]) == "PRIMARY"
    ensures var c := WordCut(s, i, j);
            r == OutAfter(out, st, c.lexeme) && after == StateAfter(st, c.lexeme) && next == c.next
  {
    r, after := out, st;
    var k := SkipBlanks(s, j);
    if KeywordAt(s, k, "KEY") {
      r := out + "PRIMARY KEY";
      after := after.(key := Some(st.depth));
      if after.pending == Some(after.depth) {
        Assoc(out, "PRIMARY KEY", " AUTOINCREMENT");
        assert "PRIMARY KEY" + " AUTOINCREMENT" == "PRIMARY KEY AUTOINCREMENT";
        r := r + " AUTOINCREMENT";
        after := after.(pending := None);
      }
      next := k + 3;
    } else {
      r := out + s[i..j];
      next := j;
    }
  }

  /** The words that leave the column state alone. */
  method RewriteWord(s: string, i: nat, j: nat, out: string) returns (r: string, next: nat)
    requires i < j <= |s| && Upper(s[i..j]) != "AUTO_INCREMENT" && Upper(s[i..j]) != "PRIMARY"
    ensures WordCut(s, i, j).next == next && r == OutAfter(out, Start, WordCut(s, i, j).lexeme)
    ensures WordCut(s, i, j).lexeme.Plain? || WordCut(s, i, j).lexeme.Setting?
  {
    var word := s[i..j];
    var up := Upper(word);
    if up == "UNSIGNED" || up == "ZEROFILL" {
      assert out + "" == out;
      return out, if j < |s| && IsBlank(s[j]) then j + 1 else j;
    }
    if up in TypeReplacements {
      next := j;
      if j < |s| && s[j] == '(' {
        var numeric := CheckNumericLen(s, j);
        if numeric {
          var end := IndexByte(s[j..], ')');
          if end >= 0 {
            next := j + end + 1;
          }
        }
      }
      return out + TypeReplacements[up], next;
    }
    var k := MatchTableOption(s, i, j);
    if k > 0 {
      r := TrimTrailingHSpace(out);
      return r, k;
    }
    return out + word, j;
  }
}
