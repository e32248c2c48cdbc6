/** Printing filters and reading them back; what the severity numbers of a filter mean. */
module FilterTheorems {
  import opened Text
  import opened FilterLexer
  import opened LogFilter

  // ---- The printer ----------------------------------------------------------------------------

  /** A comparison as a user may write it: blanks at will, the value quoted or, if it can be, bare. */
  datatype Written = Written(atom: Atom, bare: bool, beforeRel: string, afterRel: string)

  datatype Filter =
    | Last(one: Written)
    | Joint(one: Written, before: string, and: string, after: string, rest: Filter)

  predicate IsLabelKey(key: string) { key != "" && forall k :: 0 <= k < |key| ==> IsWordPart(key[k]) }

  predicate Spellable(w: Written) {
    && (w.atom.field.Label? ==> IsLabelKey(w.atom.field.key))
    && IsGap(w.beforeRel) && IsGap(w.afterRel)
    && (w.bare ==> IsBareWord(w.atom.value))
  }

  predicate Writable(rfc3339: string -> Option<int>, w: Written) { IsValid(rfc3339, w.atom) && Spellable(w) }

  /** AND in any case; a blank where two words would otherwise run together. */
  predicate AllWritable(rfc3339: string -> Option<int>, f: Filter) {
    && Writable(rfc3339, f.one)
    && (f.Joint? ==>
          && IsGap(f.before) && IsGap(f.after) && Upper(f.and) == "AND"
          && f.after != "" && (f.one.bare ==> f.before != "")
          && AllWritable(rfc3339, f.rest))
  }

  function ValueText(w: Written): string { if w.bare then w.atom.value else Quote(w.atom.value) }

  function PrintOne(w: Written): string {
    FieldName(w.atom.field) + (w.beforeRel + (RelationText(w.atom.rel) + (w.afterRel + ValueText(w))))
  }

  function Print(f: Filter): string {
    match f
    case Last(w) => PrintOne(w)
    case Joint(w, before, and, after, rest) => PrintOne(w) + (before + (and + (after + Print(rest))))
  }

  predicate HoldAll(rfc3339: string -> Option<int>, f: Filter, e: Entry) {
    Holds(rfc3339, f.one.atom, e) && (f.Joint? ==> HoldAll(rfc3339, f.rest, e))
  }

  // ---- Tokens of a printed filter -------------------------------------------------------------

  function TokensOne(w: Written): seq<Token> {
    [Ident(FieldName(w.atom.field)), Operator(RelationText(w.atom.rel)),
     if w.bare then Ident(w.atom.value) else Str(w.atom.value)]
  }

  function Tokens(f: Filter): seq<Token> {
    match f
    case Last(w) => TokensOne(w)
    case Joint(w, _, _, _, rest) => TokensOne(w) + ([And] + Tokens(rest))
  }

  lemma FieldNameIsWord(f: Field)
    requires f.Label? ==> IsLabelKey(f.key)
    ensures IsBareWord(FieldName(f))
  {
    var name := FieldName(f);
    if f.Label? {
      var p := "resource.labels.";
      forall k | 0 <= k < |name| ensures IsWordPart(name[k]) {
        if k < |p| {
          assert name[k] == p[k];
        } else {
          assert name[k] == f.key[k - |p|];
        }
      }
    }
    assert |Upper(name)| > 3;
  }

  lemma LexOperator(s: string, i: nat, r: Relation)
    requires At(s, i, RelationText(r))
    requires i + |RelationText(r)| < |s| && s[i + |RelationText(r)|] != '='
    ensures Lex(s, i) == Prepend([Operator(RelationText(r))], Lex(s, i + |RelationText(r)|))
  {
    LexAt(s, i);
    var t := RelationText(r);
    AtSlice(s, i, t);
    AtChar(s, i, t, 0);
    if |t| == 2 {
      AtChar(s, i, t, 1);
    }
  }

  lemma LexValue(s: string, i: nat, w: Written)
    requires At(s, i, ValueText(w)) && (w.bare ==> IsBareWord(w.atom.value))
    requires w.bare && i + |ValueText(w)| < |s| ==> !IsWordPart(s[i + |ValueText(w)|])
    ensures Lex(s, i) == Prepend([TokensOne(w)[2]], Lex(s, i + |ValueText(w)|))
  {
    if w.bare {
      BareWordToken(w.atom.value);
      LexWord(s, i, w.atom.value);
    } else {
      LexQuoted(s, i, w.atom.value);
    }
  }

  /** A gap and what follows it: where that stands, and the first byte before it. */
  lemma GapThen(s: string, i: nat, gap: string, rest: string)
    requires At(s, i, gap + rest) && IsGap(gap) && rest != ""
    ensures Lex(s, i) == Lex(s, i + |gap|) && At(s, i + |gap|, rest)
    ensures i < |s| && (s[i] == rest[0] || (gap != "" && IsBlank(s[i])))
  {
    AtSplit(s, i, gap, rest);
    LexGap(s, i, gap);
    AtChar(s, i, gap + rest, 0);
  }

  lemma PrependAll(a: Token, b: Token, c: Token, rest: Option<seq<Token>>)
    ensures Prepend([a], Prepend([b], Prepend([c], rest))) == Prepend([a, b, c], rest)
  {
    PrependMore([a], b, Prepend([c], rest));
    PrependMore([a] + [b], c, rest);
    assert [a] + [b] + [c] == [a, b, c];
  }

  /** A field name and the blanks behind it. */
  lemma WordThen(s: string, i: nat, name: string, gap: string, rest: string)
    requires IsBareWord(name)
    requires At(s, i, name + (gap + rest)) && IsGap(gap) && rest != "" && IsOperatorByte(rest[0])
    ensures At(s, i + |name| + |gap|, rest)
    ensures Lex(s, i) == Prepend([Ident(name)], Lex(s, i + |name| + |gap|))
  {
    AtSplit(s, i, name, gap + rest);
    GapThen(s, i + |name|, gap, rest);
    BareWordToken(name);
    LexWord(s, i, name);
  }

  lemma LexField(s: string, i: nat, f: Field, gap: string, rest: string)
    requires f.Label? ==> IsLabelKey(f.key)
    requires At(s, i, FieldName(f) + (gap + rest)) && IsGap(gap) && rest != "" && IsOperatorByte(rest[0])
    ensures At(s, i + |FieldName(f)| + |gap|, rest)
    ensures Lex(s, i) == Prepend([Ident(FieldName(f))], Lex(s, i + |FieldName(f)| + |gap|))
  {
    FieldNameIsWord(f);
    WordThen(s, i, FieldName(f), gap, rest);
  }

  /** A relation and the blanks behind it. */
  lemma LexRelation(s: string, i: nat, r: Relation, gap: string, rest: string)
    requires At(s, i, RelationText(r) + (gap + rest)) && IsGap(gap) && rest != "" && rest[0] != '='
    ensures At(s, i + |RelationText(r)| + |gap|, rest)
    ensures Lex(s, i) == Prepend([Operator(RelationText(r))], Lex(s, i + |RelationText(r)| + |gap|))
  {
    AtSplit(s, i, RelationText(r), gap + rest);
    GapThen(s, i + |RelationText(r)|, gap, rest);
    LexOperator(s, i, r);
  }

  /** The part of a comparison behind its field. */
  lemma LexTail(s: string, o: nat, w: Written)
    requires IsGap(w.afterRel) && (w.bare ==> IsBareWord(w.atom.value))
    requires At(s, o, RelationText(w.atom.rel) + (w.afterRel + ValueText(w)))
    requires var j := o + |RelationText(w.atom.rel)| + |w.afterRel| + |ValueText(w)|;
             w.bare && j < |s| ==> !IsWordPart(s[j])
    ensures var j := o + |RelationText(w.atom.rel)| + |w.afterRel| + |ValueText(w)|;
            Lex(s, o) == Prepend([Operator(RelationText(w.atom.rel))], Prepend([TokensOne(w)[2]], Lex(s, j)))
  {
    LexRelation(s, o, w.atom.rel, w.afterRel, ValueText(w));
    LexValue(s, o + |RelationText(w.atom.rel)| + |w.afterRel|, w);
  }

  lemma LexOne(s: string, i: nat, w: Written)
    requires Spellable(w) && At(s, i, PrintOne(w))
    requires w.bare && i + |PrintOne(w)| < |s| ==> !IsWordPart(s[i + |PrintOne(w)|])
    ensures Lex(s, i) == Prepend(TokensOne(w), Lex(s, i + |PrintOne(w)|))
  {
    var name, rel := FieldName(w.atom.field), RelationText(w.atom.rel);
    LexField(s, i, w.atom.field, w.beforeRel, rel + (w.afterRel + ValueText(w)));
    LexTail(s, i + |name| + |w.beforeRel|, w);
    PrependAll(Ident(name), Operator(rel), TokensOne(w)[2], Lex(s, i + |PrintOne(w)|));
  }

  lemma UpperAt(w: string, k: nat)
    requires k < |w|
    ensures Upper(w)[k] == UpperChar(w[k])
  {
  }

  lemma LexAndWord(s: string, i: nat, and: string)
    requires Upper(and) == "AND" && At(s, i, and) && i + |and| < |s| && IsBlank(s[i + |and|])
    ensures Lex(s, i) == Prepend([And], Lex(s, i + |and|))
  {
    forall k | 0 <= k < |and| ensures IsWordStart(and[k]) {
      UpperAt(and, k);
    }
    LexWord(s, i, and);
  }

  lemma AndParts(s: string, i: nat, and: string, after: string, rest: string)
    requires IsGap(after) && after != "" && At(s, i, and + (after + rest))
    ensures At(s, i, and) && At(s, i + |and|, after + rest)
    ensures i + |and| < |s| && IsBlank(s[i + |and|])
  {
    AtSplit(s, i, and, after + rest);
    AtChar(s, i + |and|, after + rest, 0);
  }

  lemma AndThen(s: string, i: nat, and: string, after: string, rest: string)
    requires IsGap(after) && after != "" && Upper(and) == "AND" && rest != ""
    requires At(s, i, and + (after + rest))
    ensures var j := i + |and| + |after|;
            At(s, j, rest) && Lex(s, i) == Prepend([And], Lex(s, j))
  {
    AndParts(s, i, and, after, rest);
    LexAndWord(s, i, and);
    GapThen(s, i + |and|, after, rest);
  }

  /** The AND between two comparisons, with the blanks around it. */
  lemma LexAnd(s: string, i: nat, before: string, and: string, after: string, rest: string)
    requires IsGap(before) && IsGap(after) && after != "" && Upper(and) == "AND" && rest != ""
    requires At(s, i, before + (and + (after + rest)))
    ensures var j := i + |before| + |and| + |after|;
            At(s, j, rest) && Lex(s, i) == Prepend([And], Lex(s, j))
  {
    GapThen(s, i, before, and + (after + rest));
    AndThen(s, i + |before|, and, after, rest);
  }

  /** A comparison with something behind it that does not run into it. */
  lemma OneThen(s: string, i: nat, w: Written, gap: string, rest: string)
    requires Spellable(w) && At(s, i, PrintOne(w) + (gap + rest)) && IsGap(gap) && (w.bare ==> gap != "")
    ensures var j := i + |PrintOne(w)|;
            At(s, j, gap + rest) && Lex(s, i) == Prepend(TokensOne(w), Lex(s, j))
  {
    AtSplit(s, i, PrintOne(w), gap + rest);
    if gap != "" {
      AtChar(s, i + |PrintOne(w)|, gap + rest, 0);
    }
    LexOne(s, i, w);
  }

  /** One comparison, the AND behind it and the text that follows. */
  lemma AndBehind(x: Option<seq<Token>>, ts: seq<Token>, s: string, g: nat, before: string, and: string, after: string, rest: string)
    requires IsGap(before) && IsGap(after) && Upper(and) == "AND" && after != "" && rest != ""
    requires At(s, g, before + (and + (after + rest))) && x == Prepend(ts, Lex(s, g))
    ensures var j := g + |before| + |and| + |after|;
            At(s, j, rest) && x == Prepend(ts, Prepend([And], Lex(s, j)))
  {
    LexAnd(s, g, before, and, after, rest);
  }

  lemma LexJoint(s: string, i: nat,
                 w: Written, before: string, and: string, after: string, rest: string)
    requires Spellable(w) && rest != ""
    requires IsGap(before) && IsGap(after) && Upper(and) == "AND" && after != "" && (w.bare ==> before != "")
    requires At(s, i, PrintOne(w) + (before + (and + (after + rest))))
    ensures var j := i + |PrintOne(w)| + |before| + |and| + |after|;
            At(s, j, rest) && Lex(s, i) == Prepend(TokensOne(w), Prepend([And], Lex(s, j)))
  {
    OneThen(s, i, w, before, and + (after + rest));
    AndBehind(Lex(s, i), TokensOne(w), s, i + |PrintOne(w)|, before, and, after, rest);
  }

  lemma LexLast(s: string, i: nat, w: Written)
    requires Spellable(w) && At(s, i, PrintOne(w)) && i + |PrintOne(w)| == |s|
    ensures Lex(s, i) == Some(TokensOne(w))
  {
    LexOne(s, i, w);
    assert TokensOne(w) + [] == TokensOne(w);
  }

  lemma PrintNonEmpty(f: Filter)
    ensures Print(f) != ""
  {
    assert FieldName(f.one.atom.field) != "";
  }

  /** The tokeniser reads a printed filter back, whatever its values contain. */
  lemma {:induction false} LexPrinted(rfc3339: string -> Option<int>, s: string, i: nat, f: Filter)
    requires AllWritable(rfc3339, f) && At(s, i, Print(f)) && i + |Print(f)| == |s|
    ensures Lex(s, i) == Some(Tokens(f))
    decreases f
  {
    match f
    case Last(w) =>
      LexLast(s, i, w);
    case Joint(w, before, and, after, rest) =>
      PrintNonEmpty(rest);
      LexJoint(s, i, w, before, and, after, Print(rest));
      LexPrinted(rfc3339, s, i + |PrintOne(w)| + |before| + |and| + |after|, rest);
  }

  // ---- Clauses of a printed filter ------------------------------------------------------------

  function Count(f: Filter): (n: nat)
    ensures n > 0
  {
    if f.Last? then 1 else 1 + Count(f.rest)
  }

  lemma ClauseOne(rfc3339: string -> Option<int>, w: Written, more: seq<Token>)
    requires IsValid(rfc3339, w.atom)
    ensures Clause(rfc3339, TokensOne(w) + more, 0) == Some(w.atom)
  {
    ReadPrinted(rfc3339, w.atom);
  }

  lemma TripleShift(rfc3339: string -> Option<int>, head: seq<Token>, ts: seq<Token>, p: nat)
    ensures TripleAt(rfc3339, head + ts, |head| + p) == TripleAt(rfc3339, ts, p)
  {
    var all := head + ts;
    if p + 3 <= |ts| {
      assert all[|head| + p] == ts[p];
      assert all[|head| + p + 1] == ts[p + 1];
      assert all[|head| + p + 2] == ts[p + 2];
    }
  }

  lemma ClauseShift(rfc3339: string -> Option<int>, w: Written, ts: seq<Token>, k: nat)
    ensures var all := TokensOne(w) + ([And] + ts);
            Clause(rfc3339, all, k + 1) == Clause(rfc3339, ts, k) && (AndAt(all, k + 1) <==> AndAt(ts, k))
  {
    var head := TokensOne(w) + [And];
    Assoc(TokensOne(w), [And], ts);
    TripleShift(rfc3339, head, ts, 4 * k);
    assert 4 * (k + 1) == |head| + 4 * k;
    if 4 * k + 3 < |ts| {
      assert (head + ts)[4 * (k + 1) + 3] == ts[4 * k + 3];
    }
  }

  /** One more comparison ahead of `n` others. */
  lemma ClausesMore(rfc3339: string -> Option<int>, w: Written, ts: seq<Token>, n: nat, e: Entry)
    requires Joined(rfc3339, ts, n)
    requires Clause(rfc3339, TokensOne(w) + ([And] + ts), 0) == Some(w.atom)
    ensures var all := TokensOne(w) + ([And] + ts);
            Joined(rfc3339, all, n + 1) &&
            (AllHold(rfc3339, all, n + 1, e) <==> Holds(rfc3339, w.atom, e) && AllHold(rfc3339, ts, n, e))
  {
    var all := TokensOne(w) + ([And] + ts);
    assert AndAt(all, 0);
    forall k | 0 < k < n + 1
      ensures Clause(rfc3339, all, k) == Clause(rfc3339, ts, k - 1) && (AndAt(all, k) <==> AndAt(ts, k - 1))
    {
      ClauseShift(rfc3339, w, ts, k - 1);
    }
    forall k | 0 <= k < n ensures Clause(rfc3339, ts, k) == Clause(rfc3339, all, k + 1) {
      ClauseShift(rfc3339, w, ts, k);
    }
  }

  lemma {:induction false} ClausesPrinted(rfc3339: string -> Option<int>, f: Filter, e: Entry)
    requires AllWritable(rfc3339, f)
    ensures |Tokens(f)| == 4 * Count(f) - 1 && Joined(rfc3339, Tokens(f), Count(f))
    ensures AllHold(rfc3339, Tokens(f), Count(f), e) <==> HoldAll(rfc3339, f, e)
    decreases f
  {
    match f
    case Last(w) =>
      ClauseOne(rfc3339, w, []);
      assert TokensOne(w) + [] == TokensOne(w);
    case Joint(w, _, _, _, rest) =>
      ClausesPrinted(rfc3339, rest, e);
      ClauseOne(rfc3339, w, [And] + Tokens(rest));
      ClausesMore(rfc3339, w, Tokens(rest), Count(rest), e);
  }

  lemma TrimNothing(x: string)
    requires x != "" && !IsSpace(x[0]) && !IsSpace(x[|x| - 1])
    ensures TrimSpace(x) == x
  {
  }

  lemma {:induction false} PrintEnds(rfc3339: string -> Option<int>, f: Filter)
    requires AllWritable(rfc3339, f)
    ensures Print(f) != "" && !IsSpace(Print(f)[0]) && !IsSpace(Print(f)[|Print(f)| - 1])
    decreases f
  {
    FieldNameIsWord(f.one.atom.field);
    assert PrintOne(f.one)[0] == FieldName(f.one.atom.field)[0];
    var v := ValueText(f.one);
    assert v != "" && !IsSpace(v[|v| - 1]);
    assert PrintOne(f.one)[|PrintOne(f.one)| - 1] == v[|v| - 1];
    if f.Joint? {
      PrintEnds(rfc3339, f.rest);
      assert Print(f)[0] == PrintOne(f.one)[0];
      assert Print(f)[|Print(f)| - 1] == Print(f.rest)[|Print(f.rest)| - 1];
    }
  }

  /** Round trip: every filter of the language, printed with any layout, is accepted and selects
      exactly the entries that satisfy all its comparisons. */
  lemma FilterRoundTrip(rfc3339: string -> Option<int>, f: Filter, e: Entry)
    requires AllWritable(rfc3339, f)
    ensures Accepts(rfc3339, Print(f))
    ensures Selects(rfc3339, Print(f), e) <==> HoldAll(rfc3339, f, e)
  {
    var s := Print(f);
    PrintEnds(rfc3339, f);
    TrimNothing(s);
    LexPrinted(rfc3339, s, 0, f);
    ClausesPrinted(rfc3339, f, e);
    assert |Tokens(f)| / 4 + 1 == Count(f) && |Tokens(f)| % 4 == 3;
  }
}
