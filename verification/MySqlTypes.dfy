/** What the single pass makes of each type name, table option and modifier, from text to text. */
module MySqlTypes {
  import opened Text
  import opened Words
  import opened MySqlLexemes
  import opened MySqlTranslate
  import opened MySqlRegions

  // ---- Words in any case ----------------------------------------------------------------------

  predicate IsKeyword(up: string) { up != "" && forall k :: 0 <= k < |up| ==> IsCapital(up[k]) || up[k] == '_' }

  lemma SameWordIsUpper(w: string, up: string)
    requires SameWord(w, up) && IsKeyword(up)
    ensures Upper(w) == up && forall k :: 0 <= k < |w| ==> IsIdentByte(w[k]) && !IsDigit(w[k])
  {
    forall k | 0 <= k < |w| ensures UpperChar(w[k]) == up[k] && IsIdentByte(w[k]) && !IsDigit(w[k]) {
    }
  }

  /** The word `s[i..j]` is `up` in some case, with no letter, digit or underscore beside it. */
  predicate IsWordAt(s: string, i: nat, j: nat, up: string) {
    && i < j <= |s| && IsKeyword(up) && SameWord(s[i..j], up)
    && (i > 0 ==> !Glues(s[i - 1])) && (j < |s| ==> !IsNameByte(s[j]))
  }

  lemma {:induction false} WordRuns(s: string, i: nat, j: nat)
    requires i <= j <= |s| && (forall k :: i <= k < j ==> IsIdentByte(s[k])) && (j < |s| ==> !IsIdentByte(s[j]))
    ensures IdentEnd(s, i) == j
    decreases j - i
  {
    if i < j {
      WordRuns(s, i + 1, j);
    }
  }

  lemma WordIsCut(s: string, i: nat, j: nat, up: string)
    requires IsWordAt(s, i, j, up)
    ensures i < |s| && RegionEnd(s, i) == i && IsWordStart(s, i) && IdentEnd(s, i) == j && Upper(s[i..j]) == up
    ensures CutAt(s, i) == WordCut(s, i, j)
  {
    var w := s[i..j];
    SameWordIsUpper(w, up);
    forall k | i <= k < j ensures IsIdentByte(s[k]) && !IsDigit(s[k]) {
      assert s[k] == w[k - i];
    }
    WordRuns(s, i, j);
  }

  // ---- The pass up to a position --------------------------------------------------------------

  datatype Progress = Progress(out: string, st: State)

  /** The pass starts a turn at position `p`. */
  predicate Reaches(s: string, i: nat, p: nat)
    requires i <= |s|
    decreases |s| - i
  {
    i == p || (i < |s| && Reaches(s, CutAt(s, i).next, p))
  }

  /** What has been written, and what is remembered, when it does. */
  function UpTo(s: string, i: nat, p: nat, out: string, st: State): Progress
    requires i <= |s|
    decreases |s| - i
  {
    if i == p || i == |s| then Progress(out, st)
    else
      var c := CutAt(s, i);
      UpTo(s, c.next, p, OutAfter(out, st, c.lexeme), StateAfter(st, c.lexeme))
  }

  lemma {:induction false} ReachesWithin(s: string, i: nat, p: nat)
    requires i <= |s| && Reaches(s, i, p)
    ensures i <= p <= |s|
    decreases |s| - i
  {
    if i != p {
      ReachesWithin(s, CutAt(s, i).next, p);
    }
  }

  lemma {:induction false} RunUpTo(s: string, i: nat, p: nat, out: string, st: State)
    requires i <= |s| && p <= |s| && Reaches(s, i, p)
    ensures var g := UpTo(s, i, p, out, st);
            Run(out, st, LexemesFrom(s, i)) == Run(g.out, g.st, LexemesFrom(s, p))
    decreases |s| - i
  {
    if i != p {
      var c := CutAt(s, i);
      OneTurn(s, i, out, st);
      RunUpTo(s, c.next, p, OutAfter(out, st, c.lexeme), StateAfter(st, c.lexeme));
    }
  }

  /** The progress when the pass reaches `p`. */
  function Before(s: string, p: nat): Progress { UpTo(s, 0, p, "", Start) }

  /** The rest of the pass from `p` on, with `out` written. */
  function Onwards(s: string, p: nat, out: string, st: State): string
    requires p <= |s|
  {
    Run(out, st, LexemesFrom(s, p))
  }

  lemma TurnAt(s: string, p: nat)
    requires p < |s| && Reaches(s, 0, p)
    ensures var g, c := Before(s, p), CutAt(s, p);
            Translated(s) == Onwards(s, c.next, OutAfter(g.out, g.st, c.lexeme), StateAfter(g.st, c.lexeme))
  {
    RunUpTo(s, 0, p, "", Start);
    var g := Before(s, p);
    OneTurn(s, p, g.out, g.st);
  }

  // ---- Types ----------------------------------------------------------------------------------

  /** The SQLite name of a MySQL type, class by class. */
  function SqliteName(up: string): Option<string> {
    if up in ["TINYINT", "SMALLINT", "MEDIUMINT", "INT", "BIGINT"] then Some("INTEGER")
    else if up in ["DOUBLE", "FLOAT", "DECIMAL", "NUMERIC"] then Some("REAL")
    else if up in ["DATETIME", "TIMESTAMP"] then Some("DATETIME")
    else if up in ["LONGTEXT", "MEDIUMTEXT", "TINYTEXT"] then Some("TEXT")
    else if up in ["LONGBLOB", "MEDIUMBLOB", "TINYBLOB", "VARBINARY", "BINARY"] then Some("BLOB")
    else None
  }

  /** A size hint from `j` to `e`: a parenthesis whose first byte but blanks is a digit, up to the first
      closing one. */
  predicate IsHint(s: string, j: nat, d: nat, e: nat) {
    && j < d < e <= |s| && s[j] == '(' && (forall k :: j < k < d ==> s[k] == ' ' || s[k] == '\t') && '0' <= s[d] <= '9'
    && s[e - 1] == ')' && forall k :: j < k < e - 1 ==> s[k] != ')'
  }

  lemma {:induction false} BlanksEnd(s: string, i: nat, d: nat)
    requires i <= d <= |s| && (forall k :: i <= k < d ==> IsBlank(s[k])) && (d < |s| ==> !IsBlank(s[d]))
    ensures BlankEnd(s, i) == d
    decreases d - i
  {
    if i < d {
      BlanksEnd(s, i + 1, d);
    }
  }

  lemma {:induction false} BlankEndSkips(s: string, i: nat)
    requires i <= |s|
    ensures var d := BlankEnd(s, i);
            (forall k :: i <= k < d ==> IsBlank(s[k])) && (d < |s| ==> !IsBlank(s[d]))
    decreases |s| - i
  {
    if i < |s| && IsBlank(s[i]) {
      BlankEndSkips(s, i + 1);
    }
  }

  lemma FirstByte(t: string, c: char, n: nat)
    requires n < |t| && t[n] == c && forall k :: 0 <= k < n ==> t[k] != c
    ensures IndexByte(t, c) == n
  {
    var r := IndexByte(t, c);
    assert c in t;
    StandsBefore(t, n, r);
  }

  lemma StandsBefore(t: string, n: nat, r: nat)
    requires r <= |t|
    ensures n < r ==> t[n] in t[..r]
  {
    assert n < r ==> t[..r][n] == t[n];
  }

  lemma HintIsSkipped(s: string, j: nat, d: nat, e: nat)
    requires IsHint(s, j, d, e)
    ensures HintEnd(s, j) == e
  {
    BlanksEnd(s, j + 1, d);
    FirstByte(s[j..], ')', e - 1 - j);
  }

  lemma NoHintIsKept(s: string, j: nat)
    requires j <= |s| && forall d: nat, e: nat :: !IsHint(s, j, d, e)
    ensures HintEnd(s, j) == j
  {
    if j < |s| && s[j] == '(' && IsNumericLen(s, j) && IndexByte(s[j..], ')') >= 0 {
      var d, n := BlankEnd(s, j + 1), IndexByte(s[j..], ')');
      BlankEndSkips(s, j + 1);
      forall k | j < k < j + n ensures s[k] != ')' {
        assert s[k] == s[j..][..n][k - j];
      }
      assert s[j + n] == ')' && s[j..][0] == '(';
      assert IsHint(s, j, d, j + n + 1);
    }
  }

  lemma TypesAreNamed(up: string)
    ensures up in TypeReplacements <==> SqliteName(up).Some?
    ensures SqliteName(up).Some? ==>
              TypeReplacements[up] == SqliteName(up).value &&
              up != "UNSIGNED" && up != "ZEROFILL" && up != "AUTO_INCREMENT" && up != "PRIMARY"
  {
  }

  lemma TypeCut(s: string, i: nat, j: nat, up: string, h: nat)
    requires IsWordAt(s, i, j, up) && SqliteName(up).Some? && h == HintEnd(s, j)
    ensures i < |s| && CutAt(s, i) == Cut(Plain(SqliteName(up).value), h)
  {
    WordIsCut(s, i, j, up);
    TypesAreNamed(up);
  }

  lemma TypeTurn(s: string, i: nat, j: nat, up: string, h: nat)
    requires Reaches(s, 0, i) && IsWordAt(s, i, j, up) && SqliteName(up).Some? && h == HintEnd(s, j)
    ensures var g := Before(s, i);
            Translated(s) == Onwards(s, h, g.out + SqliteName(up).value, g.st)
  {
    TypeCut(s, i, j, up, h);
    TurnAt(s, i);
  }

  /** A type name in any case, where the pass reaches it, comes out as its SQLite name; its size hint goes,
      and what is around is translated as before. */
  lemma TypeIsRenamed(s: string, i: nat, j: nat, up: string, d: nat, e: nat)
    requires Reaches(s, 0, i) && IsWordAt(s, i, j, up) && SqliteName(up).Some? && IsHint(s, j, d, e)
    ensures var g := Before(s, i);
            Translated(s) == Onwards(s, e, g.out + SqliteName(up).value, g.st)
  {
    HintIsSkipped(s, j, d, e);
    TypeTurn(s, i, j, up, e);
  }

  /** Without a hint only the name changes. */
  lemma BareTypeIsRenamed(s: string, i: nat, j: nat, up: string)
    requires Reaches(s, 0, i) && IsWordAt(s, i, j, up) && SqliteName(up).Some?
    requires forall d: nat, e: nat :: !IsHint(s, j, d, e)
    ensures var g := Before(s, i);
            Translated(s) == Onwards(s, j, g.out + SqliteName(up).value, g.st)
  {
    NoHintIsKept(s, j);
    TypeTurn(s, i, j, up, j);
  }

  // ---- Table options --------------------------------------------------------------------------

  /** The value of an option from `v` to `e`: a quoted text, or a word. */
  predicate IsValue(s: string, v: nat, e: nat) {
    && v < e <= |s|
    && if s[v] == '\'' then e == SingleEnd(s, v + 1)
       else (forall k :: v <= k < e ==> IsNameByte(s[k])) && (e < |s| ==> !IsNameByte(s[e]))
  }

  predicate AreBlanks(s: string, i: nat, j: nat) { i <= j <= |s| && forall k :: i <= k < j ==> s[k] == ' ' || s[k] == '\t' }

  /** From `j` on: `=` and a value, with any blanks around the sign. */
  predicate IsSetting(s: string, j: nat, q: nat, v: nat, e: nat) {
    && AreBlanks(s, j, q) && q < |s| && s[q] == '=' && AreBlanks(s, q + 1, v) && IsValue(s, v, e)
  }

  lemma SettingEnds(s: string, j: nat, q: nat, v: nat, e: nat)
    requires IsSetting(s, j, q, v, e)
    ensures j <= |s| && ValueEnd(s, j) == e
  {
    BlanksEnd(s, j, q);
    BlanksEnd(s, q + 1, v);
    if s[v] != '\'' {
      WordRuns(s, v, e);
    }
  }

  predicate IsOption(up: string) { up in ["ENGINE", "CHARSET", "COLLATE", "AUTO_INCREMENT", "ROW_FORMAT", "COMMENT"] }

  lemma OptionsAreNamed(up: string)
    ensures up in OptionWords <==> IsOption(up)
    ensures IsOption(up) ==> up !in TypeReplacements && up != "UNSIGNED" && up != "ZEROFILL" && up != "PRIMARY"
    ensures "DEFAULT" !in TypeReplacements && "DEFAULT" !in OptionWords
  {
  }

  lemma OptionCut(s: string, i: nat, j: nat, up: string, q: nat, v: nat, e: nat)
    requires IsWordAt(s, i, j, up) && IsOption(up) && IsSetting(s, j, q, v, e)
    ensures i < |s| && CutAt(s, i) == Cut(Setting, e)
  {
    WordIsCut(s, i, j, up);
    OptionsAreNamed(up);
    SettingEnds(s, j, q, v, e);
  }

  lemma CharsetBehind(s: string, j: nat, k: nat)
    requires AreBlanks(s, j, k) && IsWordAt(s, k, k + 7, "CHARSET")
    ensures BlankEnd(s, j) == k && KeywordAt(s, k, "CHARSET")
  {
    WordIsCut(s, k, k + 7, "CHARSET");
    BlanksEnd(s, j, k);
  }

  lemma CharsetCut(s: string, i: nat, j: nat, k: nat, q: nat, v: nat, e: nat)
    requires IsWordAt(s, i, j, "DEFAULT") && AreBlanks(s, j, k) && j < k && IsWordAt(s, k, k + 7, "CHARSET")
    requires IsSetting(s, k + 7, q, v, e)
    ensures i < |s| && CutAt(s, i) == Cut(Setting, e)
  {
    CharsetEnds(s, i, j, k, e) by {
      SettingEnds(s, k + 7, q, v, e);
    }
    DefaultCut(s, i, j);
  }

  lemma CharsetEnds(s: string, i: nat, j: nat, k: nat, e: nat)
    requires IsWordAt(s, i, j, "DEFAULT") && AreBlanks(s, j, k) && IsWordAt(s, k, k + 7, "CHARSET") && ValueEnd(s, k + 7) == e
    ensures OptionEnd(s, i, j) == e
  {
    CharsetBehind(s, j, k);
    WordIsCut(s, i, j, "DEFAULT");
    OptionsAreNamed("DEFAULT");
  }

  lemma DefaultCut(s: string, i: nat, j: nat)
    requires IsWordAt(s, i, j, "DEFAULT") && OptionEnd(s, i, j) > 0
    ensures i < |s| && CutAt(s, i) == Cut(Setting, OptionEnd(s, i, j))
  {
    WordIsCut(s, i, j, "DEFAULT");
    OptionsAreNamed("DEFAULT");
  }

  /** `r` is `out` without the blanks at its end. */
  predicate WithoutBlanks(out: string, r: string) {
    && r <= out && (forall k :: |r| <= k < |out| ==> out[k] == ' ' || out[k] == '\t')
    && (r != "" ==> r[|r| - 1] != ' ' && r[|r| - 1] != '\t')
  }

  lemma {:induction false} TrimmedHasNoBlanks(out: string)
    ensures WithoutBlanks(out, TrimBlanks(out))
  {
    if out != "" && IsBlank(out[|out| - 1]) {
      TrimmedHasNoBlanks(out[..|out| - 1]);
    }
  }

  /** A table option and its value are dropped, with the blanks in front. */
  lemma OptionIsDropped(s: string, i: nat, j: nat, up: string, q: nat, v: nat, e: nat) returns (r: string)
    requires Reaches(s, 0, i) && IsWordAt(s, i, j, up) && IsOption(up) && IsSetting(s, j, q, v, e)
    ensures var g := Before(s, i);
            WithoutBlanks(g.out, r) && Translated(s) == Onwards(s, e, r, g.st)
  {
    r := TrimBlanks(Before(s, i).out);
    OptionCut(s, i, j, up, q, v, e);
    TurnAt(s, i);
    TrimmedHasNoBlanks(Before(s, i).out);
  }

  /** So is DEFAULT CHARSET. */
  lemma CharsetIsDropped(s: string, i: nat, j: nat, k: nat, q: nat, v: nat, e: nat) returns (r: string)
    requires Reaches(s, 0, i) && IsWordAt(s, i, j, "DEFAULT") && AreBlanks(s, j, k) && j < k
    requires IsWordAt(s, k, k + 7, "CHARSET") && IsSetting(s, k + 7, q, v, e)
    ensures var g := Before(s, i);
            WithoutBlanks(g.out, r) && Translated(s) == Onwards(s, e, r, g.st)
  {
    r := TrimBlanks(Before(s, i).out);
    CharsetCut(s, i, j, k, q, v, e);
    TurnAt(s, i);
    TrimmedHasNoBlanks(Before(s, i).out);
  }

  // ---- Modifiers, and all other words ---------------------------------------------------------

  /** UNSIGNED and ZEROFILL go with one blank behind them. */
  lemma ModifierIsDropped(s: string, i: nat, j: nat, up: string)
    requires Reaches(s, 0, i) && IsWordAt(s, i, j, up) && up in ["UNSIGNED", "ZEROFILL"]
    ensures var g := Before(s, i);
            Translated(s) == Onwards(s, if j < |s| && (s[j] == ' ' || s[j] == '\t') then j + 1 else j, g.out, g.st)
  {
    WordIsCut(s, i, j, up);
    TurnAt(s, i);
    assert Before(s, i).out + "" == Before(s, i).out;
  }

  /** A word that is neither a type, an option with a value, a modifier nor one of the two key words. */
  ghost predicate IsOther(s: string, j: nat, up: string)
    requires j <= |s|
  {
    && SqliteName(up).None? && up !in ["UNSIGNED", "ZEROFILL", "PRIMARY", "AUTO_INCREMENT", "DEFAULT"]
    && (IsOption(up) ==> forall q: nat, v: nat, e: nat :: !IsSetting(s, j, q, v, e))
  }

  lemma NoSettingNoValue(s: string, j: nat)
    requires j <= |s| && forall q: nat, v: nat, e: nat :: !IsSetting(s, j, q, v, e)
    ensures ValueEnd(s, j) == 0
  {
    if ValueEnd(s, j) > 0 {
      var q := BlankEnd(s, j);
      var v := BlankEnd(s, q + 1);
      BlankEndSkips(s, j);
      BlankEndSkips(s, q + 1);
      IdentsRun(s, v);
      assert IsSetting(s, j, q, v, ValueEnd(s, j));
    }
  }

  lemma {:induction false} IdentsRun(s: string, i: nat)
    requires i <= |s|
    ensures var d := IdentEnd(s, i);
            (forall k :: i <= k < d ==> IsIdentByte(s[k])) && (d < |s| ==> !IsIdentByte(s[d]))
    decreases |s| - i
  {
    if i < |s| && IsIdentByte(s[i]) {
      IdentsRun(s, i + 1);
    }
  }

  /** Every other word is written as it stands. */
  lemma OtherWordIsKept(s: string, i: nat, j: nat, up: string)
    requires Reaches(s, 0, i) && IsWordAt(s, i, j, up) && IsOther(s, j, up)
    ensures var g := Before(s, i);
            Translated(s) == Onwards(s, j, g.out + s[i..j], g.st)
  {
    WordIsCut(s, i, j, up);
    TypesAreNamed(up);
    OptionsAreNamed(up);
    if IsOption(up) {
      NoSettingNoValue(s, j);
    }
    TurnAt(s, i);
  }

  /** PRIMARY and KEY with blanks between are one key. */
  lemma KeyIsRead(s: string, i: nat, j: nat, k: nat)
    requires IsWordAt(s, i, j, "PRIMARY") && AreBlanks(s, j, k) && IsWordAt(s, k, k + 3, "KEY")
    ensures i < |s| && CutAt(s, i) == Cut(Key, k + 3)
  {
    WordIsCut(s, i, j, "PRIMARY");
    WordIsCut(s, k, k + 3, "KEY");
    BlanksEnd(s, j, k);
  }

  /** AUTO_INCREMENT without a value is a keyword that takes the blanks behind it along. */
  lemma AutoIsRead(s: string, i: nat, j: nat, k: nat)
    requires IsWordAt(s, i, j, "AUTO_INCREMENT") && forall q: nat, v: nat, e: nat :: !IsSetting(s, j, q, v, e)
    requires AreBlanks(s, j, k) && (k < |s| ==> s[k] != ' ' && s[k] != '\t')
    ensures i < |s| && CutAt(s, i) == Cut(Auto(s[j..k]), k)
  {
    WordIsCut(s, i, j, "AUTO_INCREMENT");
    OptionsAreNamed("AUTO_INCREMENT");
    NoSettingNoValue(s, j);
    BlanksEnd(s, j, k);
  }

  // ---- From text to text ----------------------------------------------------------------------

  /** Up to `p` there are regions, marks and words outside the vocabulary only. */
  predicate PlainUpTo(s: string, i: nat, p: nat)
    requires i <= |s|
    decreases |s| - i, 1
  {
    i == p || (i < |s| && PlainAt(s, i, p))
  }

  predicate PlainAt(s: string, i: nat, p: nat)
    requires i < |s|
    decreases |s| - i, 0
  {
    && (RegionEnd(s, i) == i && IsWordStart(s, i) ==> Upper(s[i..IdentEnd(s, i)]) !in Vocabulary)
    && PlainUpTo(s, CutAt(s, i).next, p)
  }

  lemma PlainNext(s: string, i: nat, p: nat)
    requires i < |s| && i != p
    ensures PlainUpTo(s, i, p) <==> PlainAt(s, i, p)
  {
  }

  lemma PlainTurn(s: string, i: nat, out: string, st: State)
    requires i < |s| && st.pending.None? && st.key.None?
    requires RegionEnd(s, i) == i && IsWordStart(s, i) ==> Upper(s[i..IdentEnd(s, i)]) !in Vocabulary
    ensures var c := CutAt(s, i);
            var after := StateAfter(st, c.lexeme);
            OutAfter(out, st, c.lexeme) == out + s[i..c.next] && after.pending.None? && after.key.None?
  {
    if RegionEnd(s, i) == i {
      if IsWordStart(s, i) {
        WordIsNotEmpty(s, i);
        ForeignWord(s, i, IdentEnd(s, i));
      } else {
        PunctuationTurn(s[i], out, st);
        assert s[i..i + 1] == [s[i]];
      }
    }
  }

  lemma SlicesJoin(out: string, s: string, i: nat, j: nat, p: nat)
    requires i <= j <= p <= |s|
    ensures (out + s[i..j]) + s[j..p] == out + s[i..p]
  {
  }

  lemma {:induction false} PlainPrefix(s: string, i: nat, p: nat, out: string, st: State)
    requires i <= |s| && PlainUpTo(s, i, p) && st.pending.None? && st.key.None?
    ensures Reaches(s, i, p) && i <= p <= |s|
    ensures var g := UpTo(s, i, p, out, st);
            g.out == out + s[i..p] && g.st.pending.None? && g.st.key.None?
    decreases |s| - i
  {
    if i == p {
      assert out + s[i..i] == out;
    } else {
      var c := CutAt(s, i);
      PlainTurn(s, i, out, st);
      PlainPrefix(s, c.next, p, out + s[i..c.next], StateAfter(st, c.lexeme));
      SlicesJoin(out, s, i, c.next, p);
    }
  }

  lemma PlainBefore(s: string, p: nat)
    requires PlainUpTo(s, 0, p)
    ensures Reaches(s, 0, p) && p <= |s|
    ensures var g := Before(s, p); g.out == s[..p] && g.st.pending.None? && g.st.key.None?
  {
    PlainPrefix(s, 0, p, "", Start);
    assert "" + s[0..p] == s[..p];
  }

  /** A type between plain text: the statement comes out with that name and its hint replaced. */
  lemma OnlyTypeChanges(s: string, i: nat, j: nat, up: string, d: nat, e: nat)
    requires PlainUpTo(s, 0, i) && IsWordAt(s, i, j, up) && SqliteName(up).Some?
    requires IsHint(s, j, d, e) && IsForeign(s, e)
    ensures Translated(s) == s[..i] + SqliteName(up).value + s[e..]
  {
    PlainBefore(s, i);
    TypeIsRenamed(s, i, j, up, d, e);
    ForeignFrom(s, e, Before(s, i).out + SqliteName(up).value, Before(s, i).st);
  }

  lemma OnlyNameChanges(s: string, i: nat, j: nat, up: string)
    requires PlainUpTo(s, 0, i) && IsWordAt(s, i, j, up) && SqliteName(up).Some?
    requires (forall d: nat, e: nat :: !IsHint(s, j, d, e)) && IsForeign(s, j)
    ensures Translated(s) == s[..i] + SqliteName(up).value + s[j..]
  {
    PlainBefore(s, i);
    BareTypeIsRenamed(s, i, j, up);
    ForeignFrom(s, j, Before(s, i).out + SqliteName(up).value, Before(s, i).st);
  }

  /** An option between plain text: it goes, with the blanks in front. */
  lemma OnlyOptionGoes(s: string, i: nat, j: nat, up: string, q: nat, v: nat, e: nat) returns (r: string)
    requires PlainUpTo(s, 0, i) && IsWordAt(s, i, j, up) && IsOption(up) && IsSetting(s, j, q, v, e) && IsForeign(s, e)
    ensures WithoutBlanks(s[..i], r) && Translated(s) == r + s[e..]
  {
    PlainBefore(s, i);
    r := OptionIsDropped(s, i, j, up, q, v, e);
    ForeignFrom(s, e, r, Before(s, i).st);
  }
}
