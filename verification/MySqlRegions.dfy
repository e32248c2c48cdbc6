/** What the MySQL translator leaves alone: statements without its vocabulary, and protected regions. */
module MySqlRegions {
  import opened Text
  import opened MySqlLexemes
  import opened MySqlTranslate

  // ---- Statements without the vocabulary ------------------------------------------------------

  const Vocabulary: set<string> :=
    {"UNSIGNED", "ZEROFILL", "PRIMARY", "DEFAULT"} + OptionWords + TypeReplacements.Keys

  /** No word outside protected regions is in the vocabulary. */
  predicate IsForeign(s: string, i: nat)
    requires i <= |s|
    decreases |s| - i
  {
    if i == |s| then true
    else if RegionEnd(s, i) > i then IsForeign(s, RegionEnd(s, i))
    else if IsWordStart(s, i) then
      WordIsNotEmpty(s, i);
      Upper(s[i..IdentEnd(s, i)]) !in Vocabulary && IsForeign(s, IdentEnd(s, i))
    else IsForeign(s, i + 1)
  }

  lemma ForeignWord(s: string, i: nat, j: nat)
    requires i < j <= |s| && Upper(s[i..j]) !in Vocabulary
    ensures WordCut(s, i, j) == Cut(Plain(s[i..j]), j)
  {
    var up := Upper(s[i..j]);
    assert up !in OptionWords && up !in TypeReplacements;
    assert "AUTO_INCREMENT" in OptionWords;
  }

  lemma Rejoin(s: string, i: nat, j: nat, out: string)
    requires i <= j <= |s|
    ensures (out + s[i..j]) + s[j..] == out + s[i..]
  {
  }

  lemma PunctuationTurn(c: char, out: string, st: State)
    requires st.pending.None? && st.key.None?
    ensures var after := StateAfter(st, PunctuationAt(c));
            OutAfter(out, st, PunctuationAt(c)) == out + [c] && after.pending.None? && after.key.None?
  {
  }

  lemma ForeignTurn(s: string, i: nat, out: string, st: State)
    requires i < |s| && IsForeign(s, i) && st.pending.None? && st.key.None?
    ensures var c := CutAt(s, i);
            var after := StateAfter(st, c.lexeme);
            && OutAfter(out, st, c.lexeme) == out + s[i..c.next] && IsForeign(s, c.next)
            && after.pending.None? && after.key.None?
  {
    if RegionEnd(s, i) == i {
      if IsWordStart(s, i) {
        ForeignWord(s, i, IdentEnd(s, i));
      } else {
        PunctuationTurn(s[i], out, st);
        assert s[i..i + 1] == [s[i]];
      }
    }
  }

  lemma {:induction false} ForeignFrom(s: string, i: nat, out: string, st: State)
    requires i <= |s| && IsForeign(s, i) && st.pending.None? && st.key.None?
    ensures Run(out, st, LexemesFrom(s, i)) == out + s[i..]
    decreases |s| - i
  {
    if i < |s| {
      var c := CutAt(s, i);
      ForeignTurn(s, i, out, st);
      OneTurn(s, i, out, st);
      ForeignFrom(s, c.next, out + s[i..c.next], StateAfter(st, c.lexeme));
      Rejoin(s, i, c.next, out);
    }
  }

  /** A statement without the vocabulary comes out byte for byte. */
  lemma ForeignIsUnchanged(s: string)
    requires IsForeign(s, 0)
    ensures Translated(s) == s
  {
    ForeignFrom(s, 0, "", Start);
  }

  // ---- Protected regions ----------------------------------------------------------------------

  /** Output as made text with protected regions sewn in; trimming and appending reach only the made
      text behind the last region. */
  datatype Cloth = Bare(made: string) | Sewn(before: Cloth, region: string, made: string)

  function ClothText(c: Cloth): string {
    match c
    case Bare(made) => made
    case Sewn(before, region, made) => ClothText(before) + region + made
  }

  function ClothRegions(c: Cloth): seq<string> {
    match c
    case Bare(_) => []
    case Sewn(before, region, _) => ClothRegions(before) + [region]
  }

  function Append(c: Cloth, t: string): Cloth { c.(made := c.made + t) }

  function Trimmed(c: Cloth): Cloth { c.(made := TrimBlanks(c.made)) }

  /** The same turn as `OutAfter`, on cloth. */
  function ClothAfter(c: Cloth, st: State, x: Lexeme): Cloth {
    var ended := if st.pending == Some(st.depth) then Trimmed(c) else c;
    match x
    case Region(text) => Sewn(c, text, "")
    case Open => Append(c, "(")
    case Close => Append(ended, ")")
    case Comma => Append(ended, ",")
    case Plain(text) => Append(c, text)
    case Setting => Trimmed(c)
    case Auto(blanks) => if st.key == Some(st.depth) then Append(c, "AUTOINCREMENT" + blanks) else c
    case Key => Append(c, if st.pending == Some(st.depth) then "PRIMARY KEY AUTOINCREMENT" else "PRIMARY KEY")
  }

  function Sew(c: Cloth, st: State, xs: Lexemes): Cloth
    decreases xs
  {
    if xs.Done? then c else Sew(ClothAfter(c, st, xs.head), StateAfter(st, xs.head), xs.tail)
  }

  predicate EndsBlank(t: string) { t != "" && IsBlank(t[|t| - 1]) }

  /** A region that ends in a blank is a line comment: its newline follows. */
  predicate IsSound(c: Cloth) { c.Sewn? && EndsBlank(c.region) ==> c.made == "" || c.made[0] == '\n' }

  predicate AtSeam(c: Cloth) { c.Sewn? && EndsBlank(c.region) && c.made == "" }

  lemma {:induction false} TrimWithin(a: string, m: string)
    requires !EndsBlank(a) || TrimBlanks(m) != ""
    ensures TrimBlanks(a + m) == a + TrimBlanks(m)
    decreases |m|
  {
    if m == "" {
      assert a + m == a;
    } else if IsBlank(m[|m| - 1]) {
      var n := |m| - 1;
      assert (a + m)[..|a + m| - 1] == a + m[..n];
      TrimWithin(a, m[..n]);
    }
  }

  lemma {:induction false} TrimKeepsHead(m: string)
    requires m != "" && !IsBlank(m[0])
    ensures TrimBlanks(m) != "" && TrimBlanks(m)[0] == m[0]
    decreases |m|
  {
    if IsBlank(m[|m| - 1]) {
      TrimKeepsHead(m[..|m| - 1]);
    }
  }

  lemma EndOfPair(a: string, b: string)
    requires b != ""
    ensures EndsBlank(a + b) <==> EndsBlank(b)
  {
  }

  lemma TrimCloth(c: Cloth)
    requires IsSound(c) && !AtSeam(c) && (c.Sewn? ==> c.region != "")
    ensures ClothText(Trimmed(c)) == TrimBlanks(ClothText(c)) && IsSound(Trimmed(c)) && !AtSeam(Trimmed(c))
  {
    if c.Sewn? {
      EndOfPair(ClothText(c.before), c.region);
      if EndsBlank(c.region) {
        TrimKeepsHead(c.made);
      }
      TrimWithin(ClothText(c.before) + c.region, c.made);
    }
  }

  predicate HasThread(c: Cloth) { IsSound(c) && (c.Sewn? ==> c.region != "") }

  lemma AppendCloth(c: Cloth, t: string)
    requires HasThread(c) && (AtSeam(c) ==> t == "\n")
    ensures var d := Append(c, t);
            ClothText(d) == ClothText(c) + t && HasThread(d) && !AtSeam(d)
  {
    if c.Sewn? {
      Assoc(ClothText(c.before) + c.region, c.made, t);
    }
  }

  /** The end of a column, if its AUTO_INCREMENT is still pending. */
  lemma EndCloth(c: Cloth, st: State, t: string)
    requires HasThread(c) && !AtSeam(c)
    ensures var d := Append(if st.pending == Some(st.depth) then Trimmed(c) else c, t);
            ClothText(d) == Ended(ClothText(c), st) + t && HasThread(d) && !AtSeam(d)
  {
    TrimCloth(c);
    AppendCloth(if st.pending == Some(st.depth) then Trimmed(c) else c, t);
  }

  /** One turn on cloth is the turn on text, if a seam meets nothing but its newline. */
  lemma ClothTurn(c: Cloth, st: State, x: Lexeme)
    requires HasThread(c) && (AtSeam(c) ==> x == Plain("\n")) && (x.Region? ==> x.text != "")
    ensures var d := ClothAfter(c, st, x);
            HasThread(d) && ClothText(d) == OutAfter(ClothText(c), st, x) &&
            (AtSeam(d) ==> x.Region? && EndsBlank(x.text))
  {
    match x
    case Region(text) =>
      assert ClothText(c) + text + "" == ClothText(c) + text;
    case Open => AppendCloth(c, "(");
    case Close => EndCloth(c, st, ")");
    case Comma => EndCloth(c, st, ",");
    case Plain(text) => AppendCloth(c, text);
    case Setting => TrimCloth(c);
    case Auto(blanks) => AppendCloth(c, "AUTOINCREMENT" + blanks);
    case Key => AppendCloth(c, if st.pending == Some(st.depth) then "PRIMARY KEY AUTOINCREMENT" else "PRIMARY KEY");
  }

  // ---- Regions end where nothing is trimmed ---------------------------------------------------

  lemma {:induction false} SingleCloses(s: string, j: nat)
    requires 0 < j <= |s|
    ensures SingleEnd(s, j) == |s| || s[SingleEnd(s, j) - 1] == '\''
    decreases |s| - j
  {
    if j < |s| {
      if s[j] == '\\' && j + 1 < |s| {
        SingleCloses(s, j + 2);
      } else if s[j] == '\'' {
        if j + 1 < |s| && s[j + 1] == '\'' {
          SingleCloses(s, j + 2);
        }
      } else {
        SingleCloses(s, j + 1);
      }
    }
  }

  lemma {:induction false} DoubleCloses(s: string, j: nat)
    requires 0 < j <= |s|
    ensures DoubleEnd(s, j) == |s| || s[DoubleEnd(s, j) - 1] == '"'
    decreases |s| - j
  {
    if j < |s| {
      if s[j] == '"' {
        if j + 1 < |s| && s[j + 1] == '"' {
          DoubleCloses(s, j + 2);
        }
      } else {
        DoubleCloses(s, j + 1);
      }
    }
  }

  lemma {:induction false} BackquoteCloses(s: string, j: nat)
    requires 0 < j <= |s|
    ensures BackquoteEnd(s, j) == |s| || s[BackquoteEnd(s, j) - 1] == '`'
    decreases |s| - j
  {
    if j < |s| && s[j] != '`' {
      BackquoteCloses(s, j + 1);
    }
  }

  lemma {:induction false} BlockCloses(s: string, j: nat)
    requires 0 < j <= |s|
    ensures BlockEnd(s, j) == |s| || s[BlockEnd(s, j) - 1] == '/'
    decreases |s| - j
  {
    if j + 1 < |s| && !(s[j] == '*' && s[j + 1] == '/') {
      BlockCloses(s, j + 1);
    }
  }

  lemma BlankEndsLine(s: string, i: nat)
    requires i < |s| && RegionEnd(s, i) > i && IsBlank(s[RegionEnd(s, i) - 1])
    ensures var j := RegionEnd(s, i);
            j == |s| || s[j] == '\n'
  {
    SingleCloses(s, i + 1);
    DoubleCloses(s, i + 1);
    BackquoteCloses(s, i + 1);
    if i + 2 <= |s| {
      BlockCloses(s, i + 2);
    }
  }

  lemma NewlineCut(s: string, i: nat)
    requires i < |s| && s[i] == '\n'
    ensures CutAt(s, i).lexeme == Plain("\n")
  {
  }

  lemma RegionCut(s: string, i: nat)
    requires i < |s| && CutAt(s, i).lexeme.Region?
    ensures var c := CutAt(s, i);
            c.lexeme.text != "" && (EndsBlank(c.lexeme.text) ==> c.next == |s| || s[c.next] == '\n')
  {
    if RegionEnd(s, i) > i && IsBlank(s[RegionEnd(s, i) - 1]) {
      BlankEndsLine(s, i);
    }
  }

  lemma {:induction false} SewingIsRunning(s: string, i: nat, c: Cloth, st: State)
    requires i <= |s| && HasThread(c) && (AtSeam(c) ==> i == |s| || s[i] == '\n')
    ensures ClothText(Sew(c, st, LexemesFrom(s, i))) == Run(ClothText(c), st, LexemesFrom(s, i))
    decreases |s| - i
  {
    if i < |s| {
      var cut := CutAt(s, i);
      if AtSeam(c) {
        NewlineCut(s, i);
      }
      if cut.lexeme.Region? {
        RegionCut(s, i);
      }
      ClothTurn(c, st, cut.lexeme);
      SewingIsRunning(s, cut.next, ClothAfter(c, st, cut.lexeme), StateAfter(st, cut.lexeme));
    }
  }

  function RegionsOf(xs: Lexemes): seq<string>
    decreases xs
  {
    if xs.Done? then [] else if xs.head.Region? then [xs.head.text] + RegionsOf(xs.tail) else RegionsOf(xs.tail)
  }

  lemma {:induction false} SewnRegions(c: Cloth, st: State, xs: Lexemes)
    ensures ClothRegions(Sew(c, st, xs)) == ClothRegions(c) + RegionsOf(xs)
    decreases xs
  {
    if xs.Next? {
      SewnRegions(ClothAfter(c, st, xs.head), StateAfter(st, xs.head), xs.tail);
      if xs.head.Region? {
        Assoc(ClothRegions(c), [xs.head.text], RegionsOf(xs.tail));
      }
    } else {
      assert ClothRegions(c) + [] == ClothRegions(c);
    }
  }
}
