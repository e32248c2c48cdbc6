/** Every filter that is accepted selects what some printed filter selects. */
module FilterCanonical {
  import opened Text
  import opened FilterLexer
  import opened LogFilter
  import opened FilterTheorems

  /** The comparisons a conjunction of tokens consists of. */
  function Atoms(rfc3339: string -> Option<int>, toks: seq<Token>): (atoms: seq<Atom>)
    requires IsConjunction(rfc3339, toks)
    ensures |atoms| == |toks| / 4 + 1
    ensures forall k :: 0 <= k < |atoms| ==> Clause(rfc3339, toks, k) == Some(atoms[k])
  {
    seq(|toks| / 4 + 1, k requires 0 <= k < |toks| / 4 + 1 => Clause(rfc3339, toks, k).value)
  }

  /** The comparisons from the `k`-th on, written with single blanks and quoted values. */
  function Canonical(atoms: seq<Atom>, k: nat): Filter
    requires k < |atoms|
    decreases |atoms| - k
  {
    var w := Written(atoms[k], false, " ", " ");
    if k + 1 == |atoms| then Last(w) else Joint(w, " ", "AND", " ", Canonical(atoms, k + 1))
  }

  lemma {:induction false} CanonicalHolds(rfc3339: string -> Option<int>, atoms: seq<Atom>, k: nat, e: Entry)
    requires k < |atoms|
    ensures HoldAll(rfc3339, Canonical(atoms, k), e) <==> forall j :: k <= j < |atoms| ==> Holds(rfc3339, atoms[j], e)
    decreases |atoms| - k
  {
    if k + 1 < |atoms| {
      CanonicalHolds(rfc3339, atoms, k + 1, e);
    }
  }

  predicate Printable(rfc3339: string -> Option<int>, a: Atom) {
    IsValid(rfc3339, a) && (a.field.Label? ==> IsLabelKey(a.field.key))
  }

  lemma {:induction false} CanonicalIsWritable(rfc3339: string -> Option<int>, atoms: seq<Atom>, k: nat)
    requires k < |atoms| && forall j :: 0 <= j < |atoms| ==> Printable(rfc3339, atoms[j])
    ensures AllWritable(rfc3339, Canonical(atoms, k))
    decreases |atoms| - k
  {
    assert Printable(rfc3339, atoms[k]);
    if k + 1 < |atoms| {
      CanonicalIsWritable(rfc3339, atoms, k + 1);
      assert Upper("AND") == "AND";
    }
  }

  /** A label key cut from an identifier token is one the printer can write. */
  lemma LabelKeyIsWord(f: Field)
    requires f.Label? && f.key != "" && IsBareWord(FieldName(f))
    ensures IsLabelKey(f.key)
  {
    forall k | 0 <= k < |f.key| ensures IsWordPart(f.key[k]) {
      assert FieldName(f)[16 + k] == f.key[k];
    }
  }

  lemma ClauseIsPrintable(rfc3339: string -> Option<int>, s: string, k: nat, a: Atom)
    requires Lex(s, 0).Some? && Clause(rfc3339, Lex(s, 0).value, k) == Some(a)
    ensures Printable(rfc3339, a)
  {
    IdentsAreWords(s, 0, 4 * k);
    if a.field.Label? {
      LabelKeyIsWord(a.field);
    }
  }

  /** Whatever is accepted selects what its canonical print selects: a filter is a non-empty
      conjunction of comparisons of the language, and nothing else is ever accepted. */
  lemma AcceptedIsPrinted(rfc3339: string -> Option<int>, s: string, e: Entry)
    requires Accepts(rfc3339, s) && TrimSpace(s) != ""
    ensures var f := Canonical(Atoms(rfc3339, Lex(TrimSpace(s), 0).value), 0);
            && AllWritable(rfc3339, f) && Accepts(rfc3339, Print(f))
            && (Selects(rfc3339, s, e) <==> HoldAll(rfc3339, f, e))
            && (Selects(rfc3339, s, e) <==> Selects(rfc3339, Print(f), e))
  {
    var text := TrimSpace(s);
    var toks := Lex(text, 0).value;
    var atoms := Atoms(rfc3339, toks);
    forall k | 0 <= k < |atoms| ensures Printable(rfc3339, atoms[k]) {
      ClauseIsPrintable(rfc3339, text, k, atoms[k]);
    }
    CanonicalIsWritable(rfc3339, atoms, 0);
    CanonicalHolds(rfc3339, atoms, 0, e);
    FilterRoundTrip(rfc3339, Canonical(atoms, 0), e);
  }
}
