/** Two statements whose translation reads otherwise: a dropped word joins what stood around it. */
module MySqlRejoined {
  import opened Text
  import opened MySqlLexemes
  import opened MySqlTranslate
  import opened MySqlRegions
  import opened MySqlReread
  import opened MySqlRereadTheorems
  import opened MySqlWitness

  const WORD := "UNSIGNED"

  lemma WordIsUpper()
    ensures |WORD| == 8 && IsUpperWord(WORD)
  {
  }

  /** The word with one blank behind it is dropped. */
  lemma DroppedAt(s: string, i: nat)
    requires StandsAt(s, i, WORD) && s[i + 8] == ' '
    ensures CutAt(s, i) == Cut(Plain(""), i + 9)
  {
    WordIsUpper();
    WordAt(s, i, WORD);
  }

  lemma LexemesAre(s: string, i: nat, x: Lexeme, j: nat, xs: Lexemes)
    requires i < |s| && CutAt(s, i) == Cut(x, j) && LexemesFrom(s, j) == xs
    ensures LexemesFrom(s, i) == Next(x, xs)
  {
  }

  lemma PlainRuns(out: string, st: State, t: string, xs: Lexemes)
    ensures Run(out, st, Next(Plain(t), xs)) == Run(out + t, st, xs)
  {
  }

  lemma RegionRuns(out: string, st: State, t: string, xs: Lexemes)
    ensures Run(out, st, Next(Region(t), xs)) == Run(out + t, st, xs)
  {
  }

  lemma WholeText(t: string)
    requires t != "" && RegionEnd(t, 0) == |t|
    ensures Found(t, 0) == [Span(0, |t|)]
  {
    assert Found(t, |t|) == [];
  }

  // ---- A comment that was none ----------------------------------------------------------------

  predicate AreDashes(s: string) { |s| == 11 && s[0] == '-' && At(s, 1, WORD) && s[9] == ' ' && s[10] == '-' }

  lemma DashesCut(s: string)
    requires AreDashes(s)
    ensures CutAt(s, 0) == Cut(Plain("-"), 1) && CutAt(s, 1) == Cut(Plain(""), 10) && CutAt(s, 10) == Cut(Plain("-"), 11)
  {
    WordIsUpper();
    AtChar(s, 1, WORD, 0);
    DroppedAt(s, 1);
  }

  lemma DashesLexemes(s: string)
    requires AreDashes(s)
    ensures LexemesFrom(s, 0) == Next(Plain("-"), Next(Plain(""), Next(Plain("-"), Done)))
  {
    DashesCut(s);
    assert LexemesFrom(s, 11) == Done;
    LexemesAre(s, 10, Plain("-"), 11, Done);
    LexemesAre(s, 1, Plain(""), 10, Next(Plain("-"), Done));
    LexemesAre(s, 0, Plain("-"), 1, Next(Plain(""), Next(Plain("-"), Done)));
  }

  lemma DashesSpelled(s: string)
    requires s == "-UNSIGNED -"
    ensures AreDashes(s)
  {
  }

  /** `-UNSIGNED -` holds no comment, and its translation `--` is one. */
  lemma DashesBecomeComment(s: string, t: string)
    requires s == "-UNSIGNED -" && t == "--"
    ensures Translated(s) == t && RegionsOf(LexemesFrom(s, 0)) == [] && Found(t, 0) == [Span(0, 2)] && !Apart(Output(s))
  {
    DashesSpelled(s);
    DashesLexemes(s);
    PlainRuns("", Start, "-", Next(Plain(""), Next(Plain("-"), Done)));
    PlainRuns("-", Start, "", Next(Plain("-"), Done));
    PlainRuns("-", Start, "-", Done);
    assert "" + "-" == "-" && "-" + "" == "-" && "-" + "-" == "--";
    WholeText(t);
    RereadIff(s);
  }

  // ---- Two strings that become one ------------------------------------------------------------

  predicate AreStrings(s: string) {
    && |s| == 15 && s[0] == '\'' && s[1] == 'a' && s[2] == '\'' && At(s, 3, WORD) && s[11] == ' '
    && s[12] == '\'' && s[13] == 'b' && s[14] == '\''
  }

  lemma StringsCut(s: string)
    requires AreStrings(s)
    ensures CutAt(s, 0) == Cut(Region("'a'"), 3) && CutAt(s, 3) == Cut(Plain(""), 12) && CutAt(s, 12) == Cut(Region("'b'"), 15)
  {
    WordIsUpper();
    AtChar(s, 3, WORD, 0);
    DroppedAt(s, 3);
    assert SingleEnd(s, 2) == 3 && SingleEnd(s, 1) == 3 && SingleEnd(s, 14) == 15 && SingleEnd(s, 13) == 15;
    assert s[0..3] == "'a'" && s[12..15] == "'b'";
  }

  lemma StringsLexemes(s: string)
    requires AreStrings(s)
    ensures LexemesFrom(s, 0) == Next(Region("'a'"), Next(Plain(""), Next(Region("'b'"), Done)))
  {
    StringsCut(s);
    assert LexemesFrom(s, 15) == Done;
    LexemesAre(s, 12, Region("'b'"), 15, Done);
    LexemesAre(s, 3, Plain(""), 12, Next(Region("'b'"), Done));
    LexemesAre(s, 0, Region("'a'"), 3, Next(Plain(""), Next(Region("'b'"), Done)));
  }

  lemma StringsSpelled(s: string)
    requires s == "'a'UNSIGNED 'b'"
    ensures AreStrings(s)
  {
  }

  lemma OneString(t: string)
    requires t == "'a''b'"
    ensures RegionEnd(t, 0) == 6
  {
    assert SingleEnd(t, 5) == 6 && SingleEnd(t, 4) == 6;
    assert SingleEnd(t, 2) == 6 && SingleEnd(t, 1) == 6;
  }

  /** `'a'UNSIGNED 'b'` holds two strings, and its translation `'a''b'` is one. */
  lemma StringsBecomeOne(s: string, t: string)
    requires s == "'a'UNSIGNED 'b'" && t == "'a''b'"
    ensures Translated(s) == t && RegionsOf(LexemesFrom(s, 0)) == ["'a'", "'b'"] && Found(t, 0) == [Span(0, 6)] && !Apart(Output(s))
  {
    StringsSpelled(s);
    StringsLexemes(s);
    RegionRuns("", Start, "'a'", Next(Plain(""), Next(Region("'b'"), Done)));
    PlainRuns("'a'", Start, "", Next(Region("'b'"), Done));
    RegionRuns("'a'", Start, "'b'", Done);
    assert "" + "'a'" == "'a'" && "'a'" + "" == "'a'" && "'a'" + "'b'" == t;
    OneString(t);
    WholeText(t);
    RereadIff(s);
  }
}
