/** Which protected regions the MySQL translator keeps, measured by a plain scan of the statement. */
module MySqlProtected {
  import opened Text
  import opened MySqlLexemes
  import opened MySqlTranslate
  import opened MySqlRegions

  // ---- The plain scan, and what the translator meets ------------------------------------------

  /** Where the protected regions of a statement start, byte by byte, past the values of table options;
      up to `hi`, the end of the size hint the scan is in, there are no options. */
  function Scanned(s: string, i: nat, hi: nat): seq<nat>
    requires i <= |s|
    decreases |s| - i
  {
    if i == |s| then []
    else if RegionEnd(s, i) > i then [i] + Scanned(s, RegionEnd(s, i), hi)
    else if i >= hi && OptionAt(s, i) > 0 then Scanned(s, OptionAt(s, i), hi)
    else Scanned(s, i + 1, if i >= hi && IsTypeAt(s, i) then HintEnd(s, IdentEnd(s, i)) else hi)
  }

  /** The end of the table option whose keyword is the word at `i`, or 0. */
  function OptionAt(s: string, i: nat): (r: nat)
    requires i < |s|
    ensures r == 0 || i < r <= |s|
  {
    if IsWordStart(s, i) then WordIsNotEmpty(s, i); OptionEnd(s, i, IdentEnd(s, i)) else 0
  }

  /** Where the regions start that the translator copies. */
  function Met(s: string, i: nat): seq<nat>
    requires i <= |s|
    decreases |s| - i
  {
    if i == |s| then []
    else if RegionEnd(s, i) > i then [i] + Met(s, RegionEnd(s, i))
    else Met(s, CutAt(s, i).next)
  }

  function TextsAt(s: string, starts: seq<nat>): seq<string> {
    if starts == [] then []
    else [if starts[0] < |s| then s[starts[0]..RegionEnd(s, starts[0])] else ""] + TextsAt(s, starts[1..])
  }

  // ---- Size hints -----------------------------------------------------------------------------

  /** The word at `i` is a replaced type. */
  predicate IsTypeAt(s: string, i: nat)
    requires i < |s|
  {
    RegionEnd(s, i) == i && IsWordStart(s, i) && Upper(s[i..IdentEnd(s, i)]) in TypeReplacements
  }

  /** No byte from `j` up to `hi` opens a protected region. */
  predicate IsRegionFree(s: string, j: nat, hi: nat)
    decreases hi - j
  {
    j < hi ==> (j < |s| ==> RegionEnd(s, j) == j) && IsRegionFree(s, j + 1, hi)
  }

  predicate HintsHoldNoRegion(s: string, i: nat)
    requires i <= |s|
    decreases |s| - i
  {
    i < |s| ==>
      && (IsTypeAt(s, i) ==> IsRegionFree(s, IdentEnd(s, i), HintEnd(s, IdentEnd(s, i))))
      && HintsHoldNoRegion(s, CutAt(s, i).next)
  }

  // ---- Stretches without regions --------------------------------------------------------------

  /** Once a hint is passed it does not matter which it was. */
  lemma {:induction false} HintPassed(s: string, i: nat, h: nat, hi: nat)
    requires h <= i && hi <= i <= |s|
    ensures Scanned(s, i, h) == Scanned(s, i, hi)
    decreases |s| - i
  {
    if i < |s| {
      if RegionEnd(s, i) > i {
        HintPassed(s, RegionEnd(s, i), h, hi);
      } else if OptionAt(s, i) > 0 {
        HintPassed(s, OptionAt(s, i), h, hi);
      } else if !IsTypeAt(s, i) {
        HintPassed(s, i + 1, h, hi);
      }
    }
  }

  lemma CalmByte(s: string, k: nat, hi: nat)
    requires k < |s| && RegionEnd(s, k) == k && (k >= hi ==> OptionAt(s, k) == 0 && !IsTypeAt(s, k))
    ensures Scanned(s, k, hi) == Scanned(s, k + 1, hi)
  {
  }

  lemma {:induction false} CalmStretch(s: string, j: nat, hi: nat)
    requires j <= hi <= |s| && IsRegionFree(s, j, hi)
    ensures Scanned(s, j, hi) == Scanned(s, hi, hi)
    decreases hi - j
  {
    if j < hi {
      CalmByte(s, j, hi);
      CalmStretch(s, j + 1, hi);
    }
  }

  /** The scan stops at the first region that opens on the way. */
  lemma {:induction false} RegionOnTheWay(s: string, j: nat, hi: nat)
    requires j <= hi <= |s| && !IsRegionFree(s, j, hi)
    ensures Scanned(s, j, hi) != [] && Scanned(s, j, hi)[0] < hi
    decreases hi - j
  {
    if RegionEnd(s, j) == j {
      CalmByte(s, j, hi);
      RegionOnTheWay(s, j + 1, hi);
    }
  }

  lemma BlankIsCalm(s: string, k: nat)
    requires k < |s| && (IsBlank(s[k]) || (k > 0 && IsIdentByte(s[k]) && IsIdentByte(s[k - 1])))
    ensures RegionEnd(s, k) == k && OptionAt(s, k) == 0 && !IsTypeAt(s, k)
  {
  }

  lemma OneBlankIsCalm(s: string, j: nat)
    requires j < |s| && IsBlank(s[j])
    ensures Scanned(s, j, 0) == Scanned(s, j + 1, 0)
  {
    BlankIsCalm(s, j);
    CalmByte(s, j, 0);
  }

  lemma {:induction false} BlanksAreCalm(s: string, j: nat)
    requires j <= |s|
    ensures Scanned(s, j, 0) == Scanned(s, BlankEnd(s, j), 0)
    decreases |s| - j
  {
    if j < |s| && IsBlank(s[j]) {
      OneBlankIsCalm(s, j);
      BlanksAreCalm(s, j + 1);
    }
  }

  lemma {:induction false} InnerBytesAreCalm(s: string, k: nat, hi: nat)
    requires 0 < k <= |s| && IsIdentByte(s[k - 1])
    ensures Scanned(s, k, hi) == Scanned(s, IdentEnd(s, k), hi)
    decreases |s| - k
  {
    if k < IdentEnd(s, k) {
      BlankIsCalm(s, k);
      CalmByte(s, k, hi);
      InnerBytesAreCalm(s, k + 1, hi);
    }
  }

  lemma WordHead(s: string, i: nat)
    requires i < |s| && IsWordStart(s, i)
    ensures RegionEnd(s, i) == i && IdentEnd(s, i) == IdentEnd(s, i + 1)
  {
  }

  /** A word that is no option and no type opens nothing. */
  lemma WordIsCalm(s: string, i: nat)
    requires i < |s| && IsWordStart(s, i) && OptionAt(s, i) == 0 && !IsTypeAt(s, i)
    ensures Scanned(s, i, 0) == Scanned(s, IdentEnd(s, i), 0)
  {
    WordHead(s, i);
    CalmByte(s, i, 0);
    InnerBytesAreCalm(s, i + 1, 0);
  }

  lemma TypeHead(s: string, i: nat, hi: nat)
    requires i < |s| && IsTypeAt(s, i) && OptionAt(s, i) == 0 && hi == HintEnd(s, IdentEnd(s, i))
    ensures Scanned(s, i, 0) == Scanned(s, i + 1, hi)
  {
  }

  /** A type opens nothing but its size hint. */
  lemma TypeIsCalm(s: string, i: nat, hi: nat)
    requires i < |s| && IsTypeAt(s, i) && OptionAt(s, i) == 0 && hi == HintEnd(s, IdentEnd(s, i))
    ensures Scanned(s, i, 0) == Scanned(s, IdentEnd(s, i), hi)
  {
    WordHead(s, i);
    TypeHead(s, i, hi);
    InnerBytesAreCalm(s, i + 1, hi);
  }

  // ---- Words ----------------------------------------------------------------------------------

  lemma KeywordIsWord(s: string, k: nat)
    requires k > 0 && KeywordAt(s, k, "KEY") && IsBlank(s[k - 1])
    ensures IsWordStart(s, k) && IdentEnd(s, k) == k + 3 && OptionAt(s, k) == 0 && !IsTypeAt(s, k)
  {
    var w := s[k..k + 3];
    assert Upper(w)[0] == 'K' && Upper(w)[1] == 'E' && Upper(w)[2] == 'Y';
    assert s[k] == w[0] && s[k + 1] == w[1] && s[k + 2] == w[2];
    assert IdentEnd(s, k + 3) == k + 3;
    assert IdentEnd(s, k + 2) == k + 3;
    assert IdentEnd(s, k + 1) == k + 3;
  }

  lemma {:induction false} BlankBytes(s: string, i: nat, k: nat)
    requires i <= |s| && i <= k < BlankEnd(s, i)
    ensures IsBlank(s[k])
    decreases k - i
  {
    if i < k {
      BlankBytes(s, i + 1, k);
    }
  }

  lemma {:induction false} IdentStops(s: string, j: nat)
    requires j <= |s| && IdentEnd(s, j) < |s|
    ensures !IsIdentByte(s[IdentEnd(s, j)])
    decreases |s| - j
  {
    if IsIdentByte(s[j]) {
      IdentStops(s, j + 1);
    }
  }

  lemma KeyHead(s: string, k: nat)
    requires KeywordAt(s, k, "KEY")
    ensures IsIdentByte(s[k])
  {
    assert Upper(s[k..k + 3])[0] == UpperChar(s[k]);
  }

  lemma KeyIsApart(s: string, i: nat, k: nat)
    requires i <= |s| && IdentEnd(s, i) <= k && KeywordAt(s, k, "KEY")
    ensures IdentEnd(s, i) < k
  {
    KeyHead(s, k);
    if IdentEnd(s, i) < |s| {
      IdentStops(s, i);
    }
  }

  lemma KeyWordIsCalm(s: string, k: nat, x: seq<nat>)
    requires 0 < k <= |s| && KeywordAt(s, k, "KEY") && IsBlank(s[k - 1]) && x == Scanned(s, k, 0)
    ensures x == Scanned(s, k + 3, 0)
  {
    KeywordIsWord(s, k);
    WordIsCalm(s, k);
  }

  /** KEY is a word of its own, with nothing to protect in it or before it. */
  lemma KeyIsCalm(s: string, j: nat, k: nat, x: seq<nat>)
    requires j < k <= |s| && k == BlankEnd(s, j) && KeywordAt(s, k, "KEY") && x == Scanned(s, j, 0)
    ensures x == Scanned(s, k + 3, 0)
  {
    BlanksAreCalm(s, j);
    BlankBytes(s, j, k - 1);
    KeyWordIsCalm(s, k, x);
  }

  lemma OptionCut(s: string, i: nat, j: nat)
    requires i < j <= |s| && OptionEnd(s, i, j) > 0
    ensures WordCut(s, i, j) == Cut(Setting, OptionEnd(s, i, j))
  {
    var up := Upper(s[i..j]);
    assert up in OptionWords || up == "DEFAULT";
  }

  lemma KeyCut(s: string, i: nat, j: nat)
    requires i < j <= |s| && Upper(s[i..j]) == "PRIMARY" && KeywordAt(s, BlankEnd(s, j), "KEY")
    ensures WordCut(s, i, j).next == BlankEnd(s, j) + 3
  {
  }

  /** Where a word that is no option, type or PRIMARY KEY ends. */
  lemma OtherCut(s: string, i: nat, j: nat)
    requires i < j <= |s| && OptionEnd(s, i, j) == 0 && Upper(s[i..j]) !in TypeReplacements
    requires !(Upper(s[i..j]) == "PRIMARY" && KeywordAt(s, BlankEnd(s, j), "KEY"))
    ensures var next := WordCut(s, i, j).next;
            next == j || next == BlankEnd(s, j) || (j < |s| && IsBlank(s[j]) && next == j + 1)
  {
  }

  lemma TypeIsNoKeyword(up: string)
    requires up in TypeReplacements
    ensures up !in OptionWords && up != "DEFAULT" && up != "PRIMARY" && up != "UNSIGNED" && up != "ZEROFILL"
  {
  }

  lemma TypeCut(s: string, i: nat, j: nat)
    requires i < j <= |s| && Upper(s[i..j]) in TypeReplacements
    ensures WordCut(s, i, j).next == HintEnd(s, j) && OptionEnd(s, i, j) == 0
  {
    TypeIsNoKeyword(Upper(s[i..j]));
    assert "AUTO_INCREMENT" in OptionWords;
  }

  lemma OptionTurn(s: string, i: nat)
    requires i < |s| && RegionEnd(s, i) == i && OptionAt(s, i) > 0
    ensures Scanned(s, i, 0) == Scanned(s, CutAt(s, i).next, 0)
  {
    OptionCut(s, i, IdentEnd(s, i));
  }

  lemma BehindWord(s: string, j: nat, next: nat, x: seq<nat>)
    requires j <= |s| && x == Scanned(s, j, 0)
    requires next == j || next == BlankEnd(s, j) || (j < |s| && IsBlank(s[j]) && next == j + 1)
    ensures next <= |s| && x == Scanned(s, next, 0)
  {
    if next == BlankEnd(s, j) {
      BlanksAreCalm(s, j);
    } else if next == j + 1 {
      OneBlankIsCalm(s, j);
    }
  }

  lemma KeyTurn(s: string, i: nat, j: nat, k: nat, x: seq<nat>)
    requires i <= |s| && j == IdentEnd(s, i) && k == BlankEnd(s, j) && KeywordAt(s, k, "KEY") && x == Scanned(s, j, 0)
    ensures x == Scanned(s, k + 3, 0)
  {
    KeyIsApart(s, i, k);
    KeyIsCalm(s, j, k, x);
  }

  lemma OtherTurn(s: string, i: nat, j: nat, x: seq<nat>)
    requires i < j <= |s| && OptionEnd(s, i, j) == 0 && Upper(s[i..j]) !in TypeReplacements && x == Scanned(s, j, 0)
    requires !(Upper(s[i..j]) == "PRIMARY" && KeywordAt(s, BlankEnd(s, j), "KEY"))
    ensures x == Scanned(s, WordCut(s, i, j).next, 0)
  {
    OtherCut(s, i, j);
    BehindWord(s, j, WordCut(s, i, j).next, x);
  }

  lemma WordTurn(s: string, i: nat, j: nat, x: seq<nat>)
    requires i < j <= |s| && j == IdentEnd(s, i) && x == Scanned(s, j, 0)
    requires OptionEnd(s, i, j) == 0 && Upper(s[i..j]) !in TypeReplacements
    ensures x == Scanned(s, WordCut(s, i, j).next, 0)
  {
    if Upper(s[i..j]) == "PRIMARY" && KeywordAt(s, BlankEnd(s, j), "KEY") {
      KeyTurn(s, i, j, BlankEnd(s, j), x);
      KeyCut(s, i, j);
    } else {
      OtherTurn(s, i, j, x);
    }
  }

  /** A type with its size hint: passed over by the scan unless a region opens in the hint. */
  lemma TypeTurn(s: string, i: nat, j: nat, hi: nat)
    requires i < |s| && IsTypeAt(s, i) && j == IdentEnd(s, i) && hi == HintEnd(s, j)
    ensures CutAt(s, i).next == hi
    ensures if IsRegionFree(s, j, hi) then Scanned(s, i, 0) == Scanned(s, hi, 0) else Scanned(s, i, 0) != [] && Scanned(s, i, 0)[0] < hi
  {
    WordIsNotEmpty(s, i);
    TypeCut(s, i, j);
    TypeIsCalm(s, i, hi);
    if IsRegionFree(s, j, hi) {
      CalmStretch(s, j, hi);
      HintPassed(s, hi, hi, 0);
    } else {
      RegionOnTheWay(s, j, hi);
    }
  }

  lemma PlainWordTurn(s: string, i: nat)
    requires i < |s| && RegionEnd(s, i) == i && IsWordStart(s, i) && OptionAt(s, i) == 0 && !IsTypeAt(s, i)
    ensures Scanned(s, i, 0) == Scanned(s, CutAt(s, i).next, 0)
  {
    WordIsNotEmpty(s, i);
    WordIsCalm(s, i);
    WordTurn(s, i, IdentEnd(s, i), Scanned(s, i, 0));
  }

  /** Every turn that is neither a region nor a type. */
  lemma PlainTurn(s: string, i: nat)
    requires i < |s| && RegionEnd(s, i) == i && !IsTypeAt(s, i)
    ensures Scanned(s, i, 0) == Scanned(s, CutAt(s, i).next, 0)
  {
    if OptionAt(s, i) > 0 {
      OptionTurn(s, i);
    } else if IsWordStart(s, i) {
      PlainWordTurn(s, i);
    } else {
      CalmByte(s, i, 0);
    }
  }

  // ---- Exactly when the translator meets every region -----------------------------------------

  lemma {:induction false} MetIsLater(s: string, i: nat)
    requires i <= |s|
    ensures Met(s, i) != [] ==> i <= Met(s, i)[0]
    decreases |s| - i
  {
    if i < |s| && RegionEnd(s, i) == i {
      MetIsLater(s, CutAt(s, i).next);
    }
  }

  lemma MetAtType(s: string, i: nat)
    requires i < |s| && IsTypeAt(s, i)
    requires var next := CutAt(s, i).next;
             Met(s, next) == Scanned(s, next, 0) <==> HintsHoldNoRegion(s, next)
    ensures Met(s, i) == Scanned(s, i, 0) <==> HintsHoldNoRegion(s, i)
  {
    var j := IdentEnd(s, i);
    TypeTurn(s, i, j, HintEnd(s, j));
    MetIsLater(s, CutAt(s, i).next);
  }

  lemma Cancel(i: nat, a: seq<nat>, c: seq<nat>)
    ensures [i] + a == [i] + c <==> a == c
  {
    assert ([i] + a)[1..] == a && ([i] + c)[1..] == c;
  }

  /** For every statement: the translator copies exactly the regions the scan finds if and only if no
      protected region opens inside a size hint. */
  lemma {:induction false} RegionsAreMetIff(s: string, i: nat)
    requires i <= |s|
    ensures Met(s, i) == Scanned(s, i, 0) <==> HintsHoldNoRegion(s, i)
    decreases |s| - i
  {
    if i < |s| {
      RegionsAreMetIff(s, CutAt(s, i).next);
      if IsTypeAt(s, i) {
        MetAtType(s, i);
      } else if RegionEnd(s, i) == i {
        PlainTurn(s, i);
      } else {
        var next := RegionEnd(s, i);
        Cancel(i, Met(s, next), Scanned(s, next, 0));
      }
    }
  }

  // ---- The texts ------------------------------------------------------------------------------

  lemma TextsMore(s: string, i: nat, rest: seq<nat>)
    requires i < |s|
    ensures TextsAt(s, [i] + rest) == [s[i..RegionEnd(s, i)]] + TextsAt(s, rest)
  {
    assert ([i] + rest)[1..] == rest;
  }

  lemma WordIsNoRegion(s: string, i: nat)
    requires i < |s| && RegionEnd(s, i) == i
    ensures !CutAt(s, i).lexeme.Region?
  {
  }

  lemma {:induction false} MetTexts(s: string, i: nat)
    requires i <= |s|
    ensures RegionsOf(LexemesFrom(s, i)) == TextsAt(s, Met(s, i))
    decreases |s| - i
  {
    if i < |s| {
      var next := CutAt(s, i).next;
      MetTexts(s, next);
      if RegionEnd(s, i) > i {
        TextsMore(s, i, Met(s, next));
      } else {
        WordIsNoRegion(s, i);
      }
    }
  }

  /** Whatever the size hints hold, the translation is made text with the regions met sewn in, byte for
      byte and in order; exactly if no region opens in a size hint, those are all the protected regions of
      the statement, save values that go with their table option. */
  lemma RegionsAreKept(s: string)
    ensures var c := Sew(Bare(""), Start, LexemesFrom(s, 0));
            && ClothText(c) == Translated(s) && ClothRegions(c) == TextsAt(s, Met(s, 0))
            && (Met(s, 0) == Scanned(s, 0, 0) <==> HintsHoldNoRegion(s, 0))
  {
    SewingIsRunning(s, 0, Bare(""), Start);
    SewnRegions(Bare(""), Start, LexemesFrom(s, 0));
    MetTexts(s, 0);
    RegionsAreMetIff(s, 0);
  }

  // ---- A region that is lost ------------------------------------------------------------------

  /** Byte by byte: `INT(1'')`. */
  predicate IsWitness(s: string) {
    && |s| == 8 && s[0] == 'I' && s[1] == 'N' && s[2] == 'T' && s[3] == '(' && s[4] == '1'
    && s[5] == '\'' && s[6] == '\'' && s[7] == ')'
  }

  lemma WitnessWord(s: string)
    requires IsWitness(s)
    ensures IsWordStart(s, 0) && IdentEnd(s, 0) == 3 && Upper(s[0..3]) == "INT"
  {
    assert IdentEnd(s, 3) == 3 && IdentEnd(s, 2) == 3 && IdentEnd(s, 1) == 3;
    assert Upper(s[0..3])[0] == 'I' && Upper(s[0..3])[1] == 'N' && Upper(s[0..3])[2] == 'T';
  }

  lemma WitnessHint(s: string)
    requires IsWitness(s)
    ensures HintEnd(s, 3) == 8
  {
    assert BlankEnd(s, 4) == 4;
    assert s[3..][4] == ')' && ')' !in s[3..][..4];
  }

  lemma WitnessCut(s: string)
    requires IsWitness(s)
    ensures CutAt(s, 0) == Cut(Plain("INTEGER"), 8)
  {
    WitnessWord(s);
    WitnessHint(s);
    assert "INT" in TypeReplacements;
    TypeCut(s, 0, 3);
  }

  lemma WitnessScan(s: string)
    requires IsWitness(s)
    ensures Scanned(s, 0, 0) != []
  {
    WitnessWord(s);
    WitnessHint(s);
    assert "INT" in TypeReplacements;
    TypeCut(s, 0, 3);
    TypeIsCalm(s, 0, 8);
    CalmByte(s, 3, 8);
    CalmByte(s, 4, 8);
    assert RegionEnd(s, 5) > 5;
  }

  /** A size hint is skipped to the first parenthesis whatever lies between: the quoted text in
      `INT(1'')` is gone. */
  lemma HintSwallowsRegion(s: string)
    requires s == "INT(1'')"
    ensures Translated(s) == "INTEGER" && Met(s, 0) == [] && Scanned(s, 0, 0) != []
  {
    WitnessCut(s);
    WitnessScan(s);
    OneTurn(s, 0, "", Start);
    assert LexemesFrom(s, 8) == Done;
    assert "" + "INTEGER" == "INTEGER";
  }
}
