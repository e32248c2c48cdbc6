/**
 How the MySQL translator cuts a statement: quoted text and comments, punctuation, and words with the
 rewriting each of them calls for. Functions give end positions in the whole statement; methods are
 the source's index loops.
 */
module MySqlLexemes {
  import opened Text
  import opened Quotes

  predicate IsBlank(c: char) { c == ' ' || c == '\t' }

  // ---- Runs of bytes --------------------------------------------------------------------------

  function BlankEnd(s: string, j: nat): (r: nat)
    requires j <= |s|
    ensures j <= r <= |s|
    decreases |s| - j
  {
    if j < |s| && IsBlank(s[j]) then BlankEnd(s, j + 1) else j
  }

  function IdentEnd(s: string, j: nat): (r: nat)
    requires j <= |s|
    ensures j <= r <= |s|
    decreases |s| - j
  {
    if j < |s| && IsIdentByte(s[j]) then IdentEnd(s, j + 1) else j
  }

  method SkipBlanks(s: string, i: nat) returns (j: nat)
    requires i <= |s|
    ensures j == BlankEnd(s, i)
  {
    j := i;
    while j < |s| && (s[j] == ' ' || s[j] == '\t')
      invariant i <= j <= |s| && BlankEnd(s, j) == BlankEnd(s, i)
    {
      j := j + 1;
    }
  }

  method SkipIdent(s: string, i: nat) returns (j: nat)
    requires i <= |s|
    ensures j == IdentEnd(s, i)
  {
    j := i;
    while j < |s| && IsIdentByte(s[j])
      invariant i <= j <= |s| && IdentEnd(s, j) == IdentEnd(s, i)
    {
      j := j + 1;
    }
  }

  // ---- Protected regions ----------------------------------------------------------------------

  /** Behind an opening apostrophe: a backslash or a doubled apostrophe does not close. */
  function SingleEnd(s: string, j: nat): (r: nat)
    requires j <= |s|
    ensures j <= r <= |s|
    decreases |s| - j
  {
    if j == |s| then j
    else if s[j] == '\\' && j + 1 < |s| then SingleEnd(s, j + 2)
    else if s[j] == '\'' then
      if j + 1 < |s| && s[j + 1] == '\'' then SingleEnd(s, j + 2) else j + 1
    else SingleEnd(s, j + 1)
  }

  function DoubleEnd(s: string, j: nat): (r: nat)
    requires j <= |s|
    ensures j <= r <= |s|
    decreases |s| - j
  {
    if j == |s| then j
    else if s[j] == '"' then
      if j + 1 < |s| && s[j + 1] == '"' then DoubleEnd(s, j + 2) else j + 1
    else DoubleEnd(s, j + 1)
  }

  function BackquoteEnd(s: string, j: nat): (r: nat)
    requires j <= |s|
    ensures j <= r <= |s|
    decreases |s| - j
  {
    if j == |s| then j else if s[j] == '`' then j + 1 else BackquoteEnd(s, j + 1)
  }

  function LineEnd(s: string, j: nat): (r: nat)
    requires j <= |s|
    ensures j <= r <= |s| && (r < |s| ==> s[r] == '\n')
    decreases |s| - j
  {
    if j < |s| && s[j] != '\n' then LineEnd(s, j + 1) else j
  }

  function BlockEnd(s: string, j: nat): (r: nat)
    requires j <= |s|
    ensures j <= r <= |s|
    decreases |s| - j
  {
    if j + 1 >= |s| then |s|
    else if s[j] == '*' && s[j + 1] == '/' then j + 2
    else BlockEnd(s, j + 1)
  }

  method SkipSingleQuoted(s: string, i: nat) returns (r: nat)
    requires i < |s|
    ensures r == SingleEnd(s, i + 1) && IsFirstEnd('\'', true, s, i + 1, r)
  {
    var j := i + 1;
    while j < |s|
      invariant i < j <= |s| && SingleEnd(s, j) == SingleEnd(s, i + 1)
      invariant j < |s| ==> SpotAt('\'', true, s, i + 1, j) == Spot.Text
      invariant StaysOpen('\'', true, s, i + 1, j)
    {
      if s[j] == '\\' && j + 1 < |s| {
        assert SpotAt('\'', true, s, i + 1, j + 1) == Escaped;
        j := j + 2;
      } else if s[j] == '\'' {
        assert SpotAt('\'', true, s, i + 1, j + 1) == Half;
        if j + 1 < |s| && s[j + 1] == '\'' {
          j := j + 2;
        } else {
          return j + 1;
        }
      } else {
        j := j + 1;
      }
    }
    return |s|;
  }

  method SkipDoubleQuoted(s: string, i: nat) returns (r: nat)
    requires i < |s|
    ensures r == DoubleEnd(s, i + 1) && IsFirstEnd('"', false, s, i + 1, r)
  {
    var j := i + 1;
    while j < |s|
      invariant i < j <= |s| && DoubleEnd(s, j) == DoubleEnd(s, i + 1)
      invariant SpotAt('"', false, s, i + 1, j) == Spot.Text
      invariant StaysOpen('"', false, s, i + 1, j)
    {
      if s[j] == '"' {
        assert SpotAt('"', false, s, i + 1, j + 1) == Half;
        if j + 1 < |s| && s[j + 1] == '"' {
          j := j + 2;
        } else {
          return j + 1;
        }
      } else {
        j := j + 1;
      }
    }
    return |s|;
  }

  method SkipBackquoted(s: string, i: nat) returns (r: nat)
    requires i < |s|
    ensures r == BackquoteEnd(s, i + 1)
    ensures (r < |s| ==> s[r - 1] == '`') && forall k :: i < k < r - 1 ==> s[k] != '`'
  {
    var j := i + 1;
    while j < |s|
      invariant i < j <= |s| && BackquoteEnd(s, j) == BackquoteEnd(s, i + 1)
      invariant forall k :: i < k < j ==> s[k] != '`'
    {
      if s[j] == '`' {
        return j + 1;
      }
      j := j + 1;
    }
    return |s|;
  }

  method SkipLineComment(s: string, i: nat) returns (j: nat)
    requires i + 2 <= |s|
    ensures j == LineEnd(s, i + 2)
    ensures (j < |s| ==> s[j] == '\n') && forall k :: i + 2 <= k < j ==> s[k] != '\n'
  {
    j := i + 2;
    while j < |s| && s[j] != '\n'
      invariant i + 2 <= j <= |s| && LineEnd(s, j) == LineEnd(s, i + 2)
      invariant forall k :: i + 2 <= k < j ==> s[k] != '\n'
    {
      j := j + 1;
    }
  }

  /** A comment mark that ends a block starts at `k`. */
  predicate IsBlockMark(s: string, k: nat) { k + 1 < |s| && s[k] == '*' && s[k + 1] == '/' }

  method SkipBlockComment(s: string, i: nat) returns (r: nat)
    requires i + 2 <= |s|
    ensures r == BlockEnd(s, i + 2)
    ensures (r < |s| ==> IsBlockMark(s, r - 2)) && forall k :: i + 2 <= k < r - 2 ==> !IsBlockMark(s, k)
  {
    var j := i + 2;
    while j + 1 < |s|
      invariant i + 2 <= j <= |s| && BlockEnd(s, j) == BlockEnd(s, i + 2)
      invariant forall k :: i + 2 <= k < j ==> !IsBlockMark(s, k)
    {
      if s[j] == '*' && s[j + 1] == '/' {
        return j + 2;
      }
      j := j + 1;
    }
    return |s|;
  }

  /** The end of the protected region that opens at `i`, or `i` if none does. */
  function RegionEnd(s: string, i: nat): (r: nat)
    requires i < |s|
    ensures i <= r <= |s|
  {
    var c := s[i];
    if c == '\'' then SingleEnd(s, i + 1)
    else if c == '"' then DoubleEnd(s, i + 1)
    else if c == '`' then BackquoteEnd(s, i + 1)
    else if c == '-' && i + 1 < |s| && s[i + 1] == '-' then LineEnd(s, i + 2)
    else if c == '/' && i + 1 < |s| && s[i + 1] == '*' then BlockEnd(s, i + 2)
    else i
  }

  method SkipRegion(s: string, i: nat) returns (j: nat)
    requires i < |s|
    ensures j == RegionEnd(s, i)
  {
    var c := s[i];
    if c == '\'' {
      j := SkipSingleQuoted(s, i);
    } else if c == '"' {
      j := SkipDoubleQuoted(s, i);
    } else if c == '`' {
      j := SkipBackquoted(s, i);
    } else if c == '-' && i + 1 < |s| && s[i + 1] == '-' {
      j := SkipLineComment(s, i);
    } else if c == '/' && i + 1 < |s| && s[i + 1] == '*' {
      j := SkipBlockComment(s, i);
    } else {
      j := i;
    }
  }

  // ---- Words ----------------------------------------------------------------------------------

  predicate IsWordStart(s: string, i: nat)
    requires i < |s|
  {
    && IsIdentByte(s[i]) && !IsDigit(s[i])
    && (i > 0 ==> !IsLatin1Letter(s[i - 1]) && !IsDigit(s[i - 1]) && s[i - 1] != '_')
  }

  const TypeReplacements: map<string, string> :=
    map["TINYINT" := "INTEGER", "SMALLINT" := "INTEGER", "MEDIUMINT" := "INTEGER", "BIGINT" := "INTEGER",
        "INT" := "INTEGER", "DOUBLE" := "REAL", "FLOAT" := "REAL", "DECIMAL" := "REAL", "NUMERIC" := "REAL",
        "DATETIME" := "DATETIME", "TIMESTAMP" := "DATETIME", "LONGTEXT" := "TEXT", "MEDIUMTEXT" := "TEXT",
        "TINYTEXT" := "TEXT", "LONGBLOB" := "BLOB", "MEDIUMBLOB" := "BLOB", "TINYBLOB" := "BLOB",
        "VARBINARY" := "BLOB", "BINARY" := "BLOB"]

  const OptionWords: set<string> := {"ENGINE", "CHARSET", "COLLATE", "AUTO_INCREMENT", "ROW_FORMAT", "COMMENT"}

  /** `strings.EqualFold` of the text at `k` with an upper-case keyword, and no identifier byte behind. */
  predicate KeywordAt(s: string, k: nat, kw: string) {
    && k + |kw| <= |s| && Upper(s[k..k + |kw|]) == kw
    && (k + |kw| < |s| ==> !IsIdentByte(s[k + |kw|]))
  }

  /** Behind a table option's keyword: the end of `= value`, or 0. */
  function ValueEnd(s: string, j: nat): (r: nat)
    requires j <= |s|
    ensures r == 0 || j < r <= |s|
  {
    var eq := BlankEnd(s, j);
    if eq == |s| || s[eq] != '=' then 0
    else
      var v := BlankEnd(s, eq + 1);
      if v == |s| then 0
      else if s[v] == '\'' then SingleEnd(s, v + 1)
      else if !IsIdentByte(s[v]) then 0
      else IdentEnd(s, v)
  }

  /** The end of the table option that the word `s[i..j]` introduces, or 0. */
  function OptionEnd(s: string, i: nat, j: nat): (r: nat)
    requires i < j <= |s|
    ensures r == 0 || j < r <= |s|
  {
    var up := Upper(s[i..j]);
    if up in OptionWords then ValueEnd(s, j)
    else if up == "DEFAULT" then
      var k := BlankEnd(s, j);
      if KeywordAt(s, k, "CHARSET") then ValueEnd(s, k + 7) else 0
    else 0
  }

  method MatchValue(s: string, afterKey: nat) returns (r: nat)
    requires afterKey <= |s|
    ensures r == ValueEnd(s, afterKey)
  {
    var j := SkipBlanks(s, afterKey);
    if j >= |s| || s[j] != '=' {
      return 0;
    }
    j := SkipBlanks(s, j + 1);
    if j >= |s| {
      return 0;
    }
    if s[j] == '\'' {
      r := SkipSingleQuoted(s, j);
      return;
    }
    if !IsIdentByte(s[j]) {
      return 0;
    }
    r := SkipIdent(s, j);
  }

  method MatchTableOption(s: string, i: nat, j: nat) returns (r: nat)
    requires i < j <= |s|
    ensures r == OptionEnd(s, i, j)
  {
    var up := Upper(s[i..j]);
    if up in OptionWords {
      r := MatchValue(s, j);
    } else if up == "DEFAULT" {
      var k := SkipBlanks(s, j);
      if !KeywordAt(s, k, "CHARSET") {
        return 0;
      }
      r := MatchValue(s, k + 7);
    } else {
      r := 0;
    }
  }

  /** A parenthesis with a digit as its first non-blank byte. */
  predicate IsNumericLen(s: string, j: nat)
    requires j < |s|
  {
    var k := BlankEnd(s, j + 1);
    k < |s| && IsDigit(s[k])
  }

  method CheckNumericLen(s: string, j: nat) returns (ok: bool)
    requires j < |s|
    ensures ok <==> IsNumericLen(s, j)
  {
    var k := SkipBlanks(s, j + 1);
    return k < |s| && '0' <= s[k] <= '9';
  }

  /** The end of the size hint at `j`: behind the first closing parenthesis, whatever lies between. */
  function HintEnd(s: string, j: nat): (r: nat)
    requires j <= |s|
    ensures j <= r <= |s|
  {
    if j < |s| && s[j] == '(' && IsNumericLen(s, j) then
      var end := IndexByte(s[j..], ')');
      if end >= 0 then j + end + 1 else j
    else j
  }

  // ---- Lexemes --------------------------------------------------------------------------------

  /** One turn of the translator: text it emits, or what makes it look at its column. `Auto` takes in
      the blanks behind the keyword; `Setting` is a table option. */
  datatype Lexeme =
    | Region(text: string)
    | Open | Close | Comma
    | Plain(text: string)
    | Setting
    | Auto(blanks: string)
    | Key

  datatype Cut = Cut(lexeme: Lexeme, next: nat)

  function PunctuationAt(c: char): Lexeme {
    if c == '(' then Open else if c == ')' then Close else if c == ',' then Comma else Plain([c])
  }

  /** The word from `i` to `j`. */
  function WordCut(s: string, i: nat, j: nat): (r: Cut)
    requires i < j <= |s|
    ensures i < r.next <= |s|
  {
    var word := s[i..j];
    var up := Upper(word);
    if up == "UNSIGNED" || up == "ZEROFILL" then
      Cut(Plain(""), if j < |s| && IsBlank(s[j]) then j + 1 else j)
    else if up == "AUTO_INCREMENT" then
      if OptionEnd(s, i, j) > 0 then Cut(Setting, OptionEnd(s, i, j))
      else Cut(Auto(s[j..BlankEnd(s, j)]), BlankEnd(s, j))
    else if up == "PRIMARY" then
      var k := BlankEnd(s, j);
      if KeywordAt(s, k, "KEY") then Cut(Key, k + 3) else Cut(Plain(word), j)
    else if up in TypeReplacements then Cut(Plain(TypeReplacements[up]), HintEnd(s, j))
    else if OptionEnd(s, i, j) > 0 then Cut(Setting, OptionEnd(s, i, j))
    else Cut(Plain(word), j)
  }

  lemma WordIsNotEmpty(s: string, i: nat)
    requires i < |s| && IsWordStart(s, i)
    ensures i < IdentEnd(s, i)
  {
  }

  function CutAt(s: string, i: nat): (r: Cut)
    requires i < |s|
    ensures i < r.next <= |s|
  {
    var j := RegionEnd(s, i);
    if j > i then Cut(Region(s[i..j]), j)
    else if IsWordStart(s, i) then WordIsNotEmpty(s, i); WordCut(s, i, IdentEnd(s, i))
    else Cut(PunctuationAt(s[i]), i + 1)
  }

  datatype Lexemes = Done | Next(head: Lexeme, tail: Lexemes)

  /** The lexemes of a statement from position `i` on. */
  function LexemesFrom(s: string, i: nat): Lexemes
    requires i <= |s|
    decreases |s| - i
  {
    if i == |s| then Done
    else
      var c := CutAt(s, i);
      Next(c.lexeme, LexemesFrom(s, c.next))
  }
}
