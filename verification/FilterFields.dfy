/** What each comparison of a filter tests in an entry, field by field. */
module FilterFields {
  import opened Text
  import opened FilterLexer
  import opened LogFilter

  /** The text under a key: a value that is no text, or missing, reads as empty. */
  predicate ReadsAs(m: map<string, Json>, key: string, text: string) {
    if key in m && m[key].JsonString? then text == m[key].text else text == ""
  }

  lemma LogNameCompares(rfc3339: string -> Option<int>, a: Atom, e: Entry)
    requires a.field.LogName? && IsValid(rfc3339, a)
    ensures FieldName(a.field) == "logName" && (a.rel == Eq || a.rel == Ne)
    ensures Holds(rfc3339, a, e) <==> if a.rel == Eq then e.logName == a.value else e.logName != a.value
  {
  }

  lemma ResourceTypeCompares(rfc3339: string -> Option<int>, a: Atom, e: Entry)
    requires a.field.ResourceType? && IsValid(rfc3339, a)
    ensures FieldName(a.field) == "resource.type" && (a.rel == Eq || a.rel == Ne)
    ensures Holds(rfc3339, a, e) <==> if a.rel == Eq then ReadsAs(e.resource, "type", a.value) else !ReadsAs(e.resource, "type", a.value)
  {
  }

  /** A label of the resource; without labels every one of them reads as empty. */
  lemma LabelCompares(rfc3339: string -> Option<int>, a: Atom, e: Entry)
    requires a.field.Label? && IsValid(rfc3339, a)
    ensures FieldName(a.field) == "resource.labels." + a.field.key && a.field.key != "" && (a.rel == Eq || a.rel == Ne)
    ensures var labels := if "labels" in e.resource && e.resource["labels"].JsonObject? then e.resource["labels"].members else map[];
            Holds(rfc3339, a, e) <==> if a.rel == Eq then ReadsAs(labels, a.field.key, a.value) else !ReadsAs(labels, a.field.key, a.value)
  {
  }

  lemma TimestampCompares(rfc3339: string -> Option<int>, a: Atom, e: Entry)
    requires a.field.Timestamp? && IsValid(rfc3339, a)
    ensures FieldName(a.field) == "timestamp" && rfc3339(a.value).Some?
    ensures var want := rfc3339(a.value).value;
            Holds(rfc3339, a, e) <==> match a.rel
                                      case Eq => e.timestamp == want
                                      case Ne => e.timestamp != want
                                      case Gt => e.timestamp > want
                                      case Ge => e.timestamp >= want
                                      case Lt => e.timestamp < want
                                      case Le => e.timestamp <= want
  {
  }

  /** A relation that a field does not have, or a label without a key, is no comparison. */
  lemma TextsHaveTwoRelations(rfc3339: string -> Option<int>, a: Atom)
    requires !a.field.Severity? && !a.field.Timestamp?
    ensures IsValid(rfc3339, a) <==> (a.rel == Eq || a.rel == Ne) && (a.field.Label? ==> a.field.key != "")
  {
  }

  // ---- The bytes of the language --------------------------------------------------------------

  predicate StartsName(c: char) { 'a' <= c <= 'z' || 'A' <= c <= 'Z' || c == '_' || c == '/' }

  predicate ContinuesName(c: char) { StartsName(c) || '0' <= c <= '9' || c == '.' || c == '-' }

  /** A field name or bare value. */
  predicate IsNameText(w: string) {
    && w != "" && StartsName(w[0]) && (forall k :: 0 <= k < |w| ==> ContinuesName(w[k]))
    && !SameWord(w, "AND") && !SameWord(w, "OR") && !SameWord(w, "NOT")
  }

  /** It is one token, wherever no such byte follows. */
  lemma NameIsOneToken(s: string, i: nat, w: string)
    requires At(s, i, w) && IsNameText(w) && (i + |w| < |s| ==> !ContinuesName(s[i + |w|]))
    ensures Lex(s, i) == Prepend([Ident(w)], Lex(s, i + |w|))
  {
    SameWordIff(w, "AND");
    SameWordIff(w, "OR");
    SameWordIff(w, "NOT");
    BareWordToken(w);
    LexWord(s, i, w);
  }

  /** A byte that starts nothing is an error. */
  lemma OtherBytesFail(s: string, i: nat)
    requires i < |s| && !StartsName(s[i]) && s[i] !in [' ', '\t', '\n', '"', '=', '!', '<', '>']
    ensures Lex(s, i) == None
  {
    LexAt(s, i);
  }

  /** So are OR and NOT. */
  lemma OrAndNotFail(s: string, i: nat, w: string)
    requires At(s, i, w) && (SameWord(w, "OR") || SameWord(w, "NOT")) && (i + |w| < |s| ==> !ContinuesName(s[i + |w|]))
    ensures Lex(s, i) == None
  {
    SameWordIff(w, "OR");
    SameWordIff(w, "NOT");
    forall k | i <= k < i + |w| ensures IsWordPart(s[k]) {
      AtChar(s, i, w, k - i);
    }
    AtChar(s, i, w, 0);
    WordEnds(s, i, i + |w|);
    AtSlice(s, i, w);
    LexAt(s, i);
  }
}
