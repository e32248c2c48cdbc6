/**
 The tokeniser of the Cloud Logging filter language. `Lex` reads one token at a time; `Tokenize` and
 `Unescape` are the source's index loops.
 */
module FilterLexer {
  import opened Text

  datatype Token = Ident(val: string) | Str(val: string) | Number(val: string) | Operator(val: string) | And

  predicate IsBlank(c: char) { c == ' ' || c == '\t' || c == '\n' }

  predicate IsWordStart(c: char) { 'a' <= c <= 'z' || 'A' <= c <= 'Z' || c == '_' || c == '/' }

  predicate IsWordPart(c: char) { IsWordStart(c) || IsDigit(c) || c == '.' || c == '-' }

  predicate IsOperatorByte(c: char) { c == '=' || c == '!' || c == '<' || c == '>' }

  /** Digits, of which the first may be a sign instead; a sign alone passes. */
  predicate IsNumber(s: string) {
    s != "" && (IsDigit(s[0]) || s[0] == '-' || s[0] == '+') && AllDigits(s[1..])
  }

  /** The source's loop over the bytes of a candidate number. */
  method CheckNumber(s: string) returns (ok: bool)
    ensures ok <==> IsNumber(s)
  {
    if s == "" {
      return false;
    }
    for i := 0 to |s|
      invariant i > 0 ==> IsDigit(s[0]) || s[0] == '-' || s[0] == '+'
      invariant forall k :: 1 <= k < i ==> IsDigit(s[k])
    {
      var c := s[i];
      if c < '0' || c > '9' {
        if i != 0 || (c != '-' && c != '+') {
          assert i > 0 ==> s[1..][i - 1] == c;
          return false;
        }
      }
    }
    return true;
  }

  // ---- Escapes --------------------------------------------------------------------------------

  /** A backslash stands for the byte behind it; one at the very end stands for itself. */
  function Unescaped(s: string): string {
    if s == "" then ""
    else if s[0] == '\\' && |s| > 1 then [s[1]] + Unescaped(s[2..])
    else [s[0]] + Unescaped(s[1..])
  }

  /** One byte leaves the builder's remainder and joins what is built. */
  lemma UnescapedStep(s: string, b: string)
    requires s != ""
    ensures var n := if s[0] == '\\' && |s| > 1 then 2 else 1;
            b + Unescaped(s) == (b + [s[n - 1]]) + Unescaped(s[n..])
  {
    var n := if s[0] == '\\' && |s| > 1 then 2 else 1;
    Assoc(b, [s[n - 1]], Unescaped(s[n..]));
  }

  method Unescape(s: string) returns (b: string)
    ensures b == Unescaped(s)
  {
    b := "";
    var i := 0;
    assert s[0..] == s;
    while i < |s|
      invariant 0 <= i <= |s|
      invariant b + Unescaped(s[i..]) == Unescaped(s)
    {
      UnescapedStep(s[i..], b);
      if s[i] == '\\' && i + 1 < |s| {
        Suffix(s, i, 2);
        b := b + [s[i + 1]];
        i := i + 2;
      } else {
        Suffix(s, i, 1);
        b := b + [s[i]];
        i := i + 1;
      }
    }
    assert b + "" == b;
  }

  /** The printer's side: quotes and backslashes get a backslash in front. */
  function Escape(v: string): string {
    if v == "" then ""
    else if v[0] == '"' || v[0] == '\\' then ['\\', v[0]] + Escape(v[1..])
    else [v[0]] + Escape(v[1..])
  }

  lemma {:induction false} UnescapeEscaped(v: string)
    ensures Unescaped(Escape(v)) == v
  {
    if v != "" {
      UnescapeEscaped(v[1..]);
      var e := Escape(v);
      if v[0] == '"' || v[0] == '\\' {
        assert e[2..] == Escape(v[1..]);
      } else {
        assert e[1..] == Escape(v[1..]);
      }
    }
  }

  // ---- Tokens ---------------------------------------------------------------------------------

  /** The closing quote of the literal whose text starts at `j`, or the end of input. */
  function StringEnd(s: string, j: nat): (r: nat)
    requires j <= |s|
    ensures j <= r <= |s| && (r < |s| ==> s[r] == '"')
    decreases |s| - j
  {
    if j == |s| || s[j] == '"' then j
    else if s[j] == '\\' && j + 1 < |s| then StringEnd(s, j + 2)
    else StringEnd(s, j + 1)
  }

  function WordEnd(s: string, j: nat): (r: nat)
    requires j <= |s|
    ensures j <= r <= |s|
    decreases |s| - j
  {
    if j < |s| && IsWordPart(s[j]) then WordEnd(s, j + 1) else j
  }

  function WordToken(word: string): Option<Token> {
    var up := Upper(word);
    if up == "AND" then Some(And)
    else if up == "OR" || up == "NOT" then None
    else if IsNumber(word) then Some(Number(word))
    else Some(Ident(word))
  }

  datatype Piece = Gap | Bad | Read(token: Token, next: nat)

  /** What the tokeniser finds at position `i`. */
  function PieceAt(s: string, i: nat): (p: Piece)
    requires i < |s|
    ensures p.Read? ==> i < p.next <= |s|
  {
    var c := s[i];
    if IsBlank(c) then Gap
    else if c == '"' then
      var j := StringEnd(s, i + 1);
      if j == |s| then Bad else Read(Str(Unescaped(s[i + 1..j])), j + 1)
    else if IsOperatorByte(c) then
      if i + 1 < |s| && s[i + 1] == '=' then Read(Operator(s[i..i + 2]), i + 2)
      else if c == '!' then Bad
      else Read(Operator(s[i..i + 1]), i + 1)
    else if IsWordStart(c) then
      var t := WordToken(s[i..WordEnd(s, i)]);
      if t.None? then Bad else Read(t.value, WordEnd(s, i))
    else Bad
  }

  function Prepend(ts: seq<Token>, rest: Option<seq<Token>>): Option<seq<Token>> {
    if rest.None? then None else Some(ts + rest.value)
  }

  /** The tokens from position `i` on, or `None` if the tokeniser reports an error. */
  function Lex(s: string, i: nat): Option<seq<Token>>
    requires i <= |s|
    decreases |s| - i, 1
  {
    if i == |s| then Some([]) else LexPiece(s, i)
  }

  function LexPiece(s: string, i: nat): Option<seq<Token>>
    requires i < |s|
    decreases |s| - i, 0
  {
    match PieceAt(s, i)
    case Gap => Lex(s, i + 1)
    case Bad => None
    case Read(t, next) => Prepend([t], Lex(s, next))
  }

  lemma LexAt(s: string, i: nat)
    requires i < |s|
    ensures Lex(s, i) == match PieceAt(s, i)
                         case Gap => Lex(s, i + 1)
                         case Bad => None
                         case Read(t, next) => Prepend([t], Lex(s, next))
  {
    assert Lex(s, i) == LexPiece(s, i);
  }

  lemma PrependMore(ts: seq<Token>, t: Token, rest: Option<seq<Token>>)
    ensures Prepend(ts, Prepend([t], rest)) == Prepend(ts + [t], rest)
  {
    if rest.Some? {
      Assoc(ts, [t], rest.value);
    }
  }

  /** The literal that opens at `i`: its token, and the position past its closing quote. */
  method ScanString(s: string, i: nat) returns (t: Option<Token>, j: nat)
    requires i < |s| && s[i] == '"'
    ensures PieceAt(s, i) == if t.None? then Bad else Read(t.value, j)
  {
    j := i + 1;
    while j < |s| && s[j] != '"'
      invariant i < j <= |s|
      invariant StringEnd(s, j) == StringEnd(s, i + 1)
    {
      if s[j] == '\\' && j + 1 < |s| {
        j := j + 2;
      } else {
        j := j + 1;
      }
    }
    if j >= |s| {
      return None, j;
    }
    var text := Unescape(s[i + 1..j]);
    return Some(Str(text)), j + 1;
  }

  /** The word that starts at `i`: its token, and the position past it. */
  method ScanWord(s: string, i: nat) returns (t: Option<Token>, j: nat)
    requires i < |s| && IsWordStart(s[i])
    ensures PieceAt(s, i) == if t.None? then Bad else Read(t.value, j)
  {
    j := i;
    while j < |s| && IsWordPart(s[j])
      invariant i <= j <= |s|
      invariant WordEnd(s, j) == WordEnd(s, i)
    {
      j := j + 1;
    }
    var word := s[i..j];
    var up := Upper(word);
    if up == "AND" {
      return Some(And), j;
    } else if up == "OR" || up == "NOT" {
      return None, j;
    }
    var number := CheckNumber(word);
    return Some(if number then Number(word) else Ident(word)), j;
  }

  method Tokenize(s: string) returns (r: Option<seq<Token>>)
    ensures r == Lex(s, 0)
  {
    var out: seq<Token> := [];
    var i := 0;
    assert Lex(s, 0).Some? ==> out + Lex(s, 0).value == Lex(s, 0).value;
    while i < |s|
      invariant 0 <= i <= |s|
      invariant Prepend(out, Lex(s, i)) == Lex(s, 0)
    {
      LexAt(s, i);
      var c := s[i];
      if IsBlank(c) {
        i := i + 1;
      } else {
        var t: Option<Token>, j := None, i;
        if c == '"' {
          t, j := ScanString(s, i);
        } else if c == '=' || c == '!' || c == '<' || c == '>' {
          if i + 1 < |s| && s[i + 1] == '=' {
            t, j := Some(Operator(s[i..i + 2])), i + 2;
          } else if c != '!' {
            t, j := Some(Operator(s[i..i + 1])), i + 1;
          }
        } else if c != '(' && c != ')' && IsWordStart(c) {
          t, j := ScanWord(s, i);
        }
        if t.None? {
          return None;
        }
        PrependMore(out, t.value, Lex(s, j));
        out, i := out + [t.value], j;
      }
    }
    assert out + [] == out;
    return Some(out);
  }

  /** A word never starts with a digit or a sign, so the number branch of the tokeniser is dead. */
  lemma {:induction false} NumbersAreNeverTokens(s: string, i: nat, n: nat)
    requires i <= |s| && Lex(s, i).Some? && n < |Lex(s, i).value|
    ensures !Lex(s, i).value[n].Number?
    decreases |s| - i
  {
    LexAt(s, i);
    match PieceAt(s, i)
    case Gap => NumbersAreNeverTokens(s, i + 1, n);
    case Read(t, next) => if n > 0 { NumbersAreNeverTokens(s, next, n - 1); }
  }

  // ---- Reading printed tokens -----------------------------------------------------------------

  /** Text the tokeniser reads as one identifier when a non-word byte or the end follows. */
  predicate IsBareWord(w: string) {
    && w != "" && IsWordStart(w[0]) && (forall k :: 0 <= k < |w| ==> IsWordPart(w[k]))
    && Upper(w) != "AND" && Upper(w) != "OR" && Upper(w) != "NOT"
  }

  lemma {:induction false} WordEnds(s: string, i: nat, hi: nat)
    requires i <= hi <= |s| && (forall k :: i <= k < hi ==> IsWordPart(s[k])) && (hi < |s| ==> !IsWordPart(s[hi]))
    ensures WordEnd(s, i) == hi
    decreases hi - i
  {
    if i < hi {
      WordEnds(s, i + 1, hi);
    }
  }

  lemma LexWord(s: string, i: nat, w: string)
    requires At(s, i, w) && w != "" && IsWordStart(w[0]) && (forall k :: 0 <= k < |w| ==> IsWordPart(w[k]))
    requires i + |w| < |s| ==> !IsWordPart(s[i + |w|])
    requires WordToken(w).Some?
    ensures Lex(s, i) == Prepend([WordToken(w).value], Lex(s, i + |w|))
  {
    forall k | i <= k < i + |w| ensures IsWordPart(s[k]) {
      AtChar(s, i, w, k - i);
    }
    WordEnds(s, i, i + |w|);
    AtSlice(s, i, w);
    AtChar(s, i, w, 0);
    LexAt(s, i);
  }

  lemma BareWordToken(w: string)
    requires IsBareWord(w)
    ensures WordToken(w) == Some(Ident(w))
  {
  }

  lemma {:induction false} LexBlanks(s: string, i: nat, hi: nat)
    requires i <= hi <= |s| && forall k :: i <= k < hi ==> IsBlank(s[k])
    ensures Lex(s, i) == Lex(s, hi)
    decreases hi - i
  {
    if i < hi {
      LexAt(s, i);
      LexBlanks(s, i + 1, hi);
    }
  }

  predicate IsGap(gap: string) { forall k :: 0 <= k < |gap| ==> IsBlank(gap[k]) }

  lemma LexGap(s: string, i: nat, gap: string)
    requires At(s, i, gap) && IsGap(gap)
    ensures Lex(s, i) == Lex(s, i + |gap|)
  {
    forall k | i <= k < i + |gap| ensures IsBlank(s[k]) {
      AtChar(s, i, gap, k - i);
    }
    LexBlanks(s, i, i + |gap|);
  }

  lemma {:induction false} EscapedEnds(s: string, j: nat, v: string)
    requires At(s, j, Escape(v)) && j + |Escape(v)| < |s| && s[j + |Escape(v)|] == '"'
    ensures StringEnd(s, j) == j + |Escape(v)|
    decreases |v|
  {
    if v != "" {
      var head := if v[0] == '"' || v[0] == '\\' then ['\\', v[0]] else [v[0]];
      AtSplit(s, j, head, Escape(v[1..]));
      AtChar(s, j, head, 0);
      EscapedEnds(s, j + |head|, v[1..]);
    }
  }

  function Quote(v: string): string { "\"" + (Escape(v) + "\"") }

  lemma QuotedPiece(s: string, i: nat, v: string)
    requires At(s, i, Quote(v))
    ensures i < |s| && PieceAt(s, i) == Read(Str(v), i + |Quote(v)|)
  {
    var e := Escape(v);
    AtSplit(s, i, "\"", e + "\"");
    AtSplit(s, i + 1, e, "\"");
    AtChar(s, i, "\"", 0);
    AtChar(s, i + 1 + |e|, "\"", 0);
    EscapedEnds(s, i + 1, v);
    AtSlice(s, i + 1, e);
    UnescapeEscaped(v);
  }

  lemma LexQuoted(s: string, i: nat, v: string)
    requires At(s, i, Quote(v))
    ensures Lex(s, i) == Prepend([Str(v)], Lex(s, i + |Quote(v)|))
  {
    QuotedPiece(s, i, v);
    LexAt(s, i);
  }

  lemma {:induction false} WordParts(s: string, i: nat, k: nat)
    requires i <= |s| && i <= k < WordEnd(s, i)
    ensures IsWordPart(s[k])
    decreases k - i
  {
    if i < k {
      WordParts(s, i + 1, k);
    }
  }

  lemma WordAt(s: string, i: nat)
    requires i < |s| && IsWordStart(s[i])
    ensures var w := s[i..WordEnd(s, i)];
            w != "" && IsWordStart(w[0]) && forall k :: 0 <= k < |w| ==> IsWordPart(w[k])
  {
    var w := s[i..WordEnd(s, i)];
    forall k | 0 <= k < |w| ensures IsWordPart(w[k]) {
      WordParts(s, i, i + k);
    }
  }

  /** Identifier tokens are words the tokeniser would read back. */
  lemma {:induction false} IdentsAreWords(s: string, i: nat, n: nat)
    requires i <= |s| && Lex(s, i).Some? && n < |Lex(s, i).value| && Lex(s, i).value[n].Ident?
    ensures IsBareWord(Lex(s, i).value[n].val)
    decreases |s| - i
  {
    LexAt(s, i);
    match PieceAt(s, i)
    case Gap => IdentsAreWords(s, i + 1, n);
    case Read(t, next) =>
      if n > 0 {
        IdentsAreWords(s, next, n - 1);
      } else {
        WordAt(s, i);
      }
  }
}
