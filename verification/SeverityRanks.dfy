/** The rank of each severity, and what comparing severities selects. */
module SeverityRanks {
  import opened Text
  import opened FilterLexer
  import opened LogFilter

  /** The rank of a severity's name in any case. */
  function NamedRank(w: string): Option<int> {
    if SameWord(w, "DEFAULT") then Some(0) else if SameWord(w, "DEBUG") then Some(100)
    else if SameWord(w, "INFO") then Some(200) else if SameWord(w, "NOTICE") then Some(300)
    else if SameWord(w, "WARNING") then Some(400) else if SameWord(w, "ERROR") then Some(500)
    else if SameWord(w, "CRITICAL") then Some(600) else if SameWord(w, "ALERT") then Some(700)
    else if SameWord(w, "EMERGENCY") then Some(800) else None
  }

  lemma RanksAreNamed(w: string)
    ensures Upper(w) in SeverityRank <==> NamedRank(w).Some?
    ensures NamedRank(w).Some? ==> SeverityRank[Upper(w)] == NamedRank(w).value
  {
    SameWordIff(w, "DEFAULT");
    SameWordIff(w, "DEBUG");
    SameWordIff(w, "INFO");
    SameWordIff(w, "NOTICE");
    SameWordIff(w, "WARNING");
    SameWordIff(w, "ERROR");
    SameWordIff(w, "CRITICAL");
    SameWordIff(w, "ALERT");
    SameWordIff(w, "EMERGENCY");
  }

  /** An entry whose severity has no name counts as DEFAULT. */
  lemma EntryRankIs(e: Entry)
    ensures EntryRank(e) == if NamedRank(e.severity).Some? then NamedRank(e.severity).value else 0
  {
    RanksAreNamed(e.severity);
  }

  /** A comparison with a named severity compares ranks. */
  lemma SeverityCompares(rfc3339: string -> Option<int>, a: Atom, e: Entry)
    requires a.field.Severity? && NamedRank(a.value).Some?
    ensures IsValid(rfc3339, a)
    ensures var got, want := if NamedRank(e.severity).Some? then NamedRank(e.severity).value else 0, NamedRank(a.value).value;
            Holds(rfc3339, a, e) <==> match a.rel
                                      case Eq => got == want
                                      case Ne => got != want
                                      case Gt => got > want
                                      case Ge => got >= want
                                      case Lt => got < want
                                      case Le => got <= want
  {
    RanksAreNamed(a.value);
    EntryRankIs(e);
  }

  /** A severity that is neither a name nor a number cannot be compared with. */
  lemma OnlyNamesAndNumbers(rfc3339: string -> Option<int>, a: Atom)
    requires a.field.Severity?
    ensures IsValid(rfc3339, a) <==> NamedRank(a.value).Some? || IsNumber(a.value)
  {
    RanksAreNamed(a.value);
  }
}
