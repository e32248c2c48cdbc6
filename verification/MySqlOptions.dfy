/** Table options behind a closing parenthesis, from text to text. */
module MySqlOptions {
  import opened Text
  import opened Words
  import opened MySqlLexemes
  import opened MySqlTranslate
  import opened MySqlRegions
  import opened MySqlTypes

  lemma OptionText(s: string, w: string, v: string)
    requires s == ") " + w + "=" + v && w != "" && v != ""
    ensures var j := 2 + |w|;
            && |s| == j + 1 + |v| && s[0] == ')' && s[1] == ' ' && s[2..j] == w && s[j] == '=' && s[j + 1..] == v
            && forall k :: 0 <= k < |v| ==> s[j + 1 + k] == v[k]
  {
    var j := 2 + |w|;
    assert ") " + w + "=" == s[..j + 1];
    assert s[..j + 1][2..j] == w;
  }

  lemma ClosingIsPlain(s: string, i: nat)
    requires i + 2 <= |s| && s[i] == ')' && s[i + 1] == ' '
    ensures PlainUpTo(s, i, i + 2)
  {
    MarkIsPlain(s, i + 1, i + 2);
    MarkIsPlain(s, i, i + 2);
  }

  lemma MarkIsPlain(s: string, i: nat, p: nat)
    requires i < |s| && (s[i] == ')' || s[i] == ' ') && PlainUpTo(s, i + 1, p)
    ensures PlainUpTo(s, i, p)
  {
    if i != p {
      assert CutAt(s, i).next == i + 1 && !IsWordStart(s, i);
      PlainNext(s, i, p);
    }
  }

  lemma ParenthesisTrimmed(out: string, r: string)
    requires out == ") " && WithoutBlanks(out, r)
    ensures r == ")"
  {
    assert |r| >= 1 ==> r[0] == out[0];
    assert out[0] != ' ' && out[0] != '\t';
  }

  lemma OptionStands(s: string, w: string, up: string, v: string)
    requires s == ") " + w + "=" + v && w != "" && IsKeyword(up) && SameWord(w, up)
    requires v != "" && forall k :: 0 <= k < |v| ==> IsNameByte(v[k])
    ensures var j := 2 + |w|;
            |s| == j + 1 + |v| && IsWordAt(s, 2, j, up) && IsSetting(s, j, j, j + 1, |s|) && s[0..2] == ") "
  {
    OptionText(s, w, v);
    forall k | 3 + |w| <= k < |s| ensures IsNameByte(s[k]) {
      assert s[k] == v[k - 3 - |w|];
    }
  }

  lemma AllIsForeign(s: string)
    ensures IsForeign(s, |s|)
  {
  }

  lemma OptionGoes(s: string, p: nat, j: nat, up: string)
    requires p <= j < |s| && s[..p] == ") " && PlainUpTo(s, 0, p)
    requires IsOption(up) && IsWordAt(s, p, j, up) && IsSetting(s, j, j, j + 1, |s|)
    ensures Translated(s) == ")"
  {
    AllIsForeign(s);
    var r := OnlyOptionGoes(s, p, j, up, j, j + 1, |s|);
    ParenthesisTrimmed(s[..p], r);
    assert s[|s|..] == "" && r + "" == r;
  }

  lemma ClosingPlain(s: string, i: nat)
    requires i + 2 <= |s| && s[i..i + 2] == ") "
    ensures PlainUpTo(s, i, i + 2)
  {
    assert s[i] == s[i..i + 2][0] && s[i + 1] == s[i..i + 2][1];
    ClosingIsPlain(s, i);
  }

  lemma ClosingReady(s: string) returns (p: nat)
    requires 2 <= |s| && s[0..2] == ") "
    ensures p == 2 && s[..p] == ") " && PlainUpTo(s, 0, p)
  {
    p := 2;
    ClosingPlain(s, 0);
  }

  /** `) WORD=value` becomes `)`. */
  lemma OptionBehindParenthesis(s: string, w: string, up: string, v: string)
    requires s == ") " + w + "=" + v && w != "" && IsOption(up) && IsKeyword(up) && SameWord(w, up)
    requires v != "" && forall k :: 0 <= k < |v| ==> IsNameByte(v[k])
    ensures Translated(s) == ")"
  {
    OptionStands(s, w, up, v);
    var p := ClosingReady(s);
    OptionGoes(s, p, 2 + |w|, up);
  }
}
