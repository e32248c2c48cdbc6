/** What the keyword pass makes of each word. */
module PgKeywords {
  import opened Text
  import opened Words
  import opened PgRegions
  import opened PgTranslate
  import opened PgCasts
  import opened PgDollar

  /** The SQLite spelling of a word in any case. */
  function SqliteWord(w: string): string {
    if SameWord(w, "SERIAL") || SameWord(w, "BIGSERIAL") then "INTEGER PRIMARY KEY AUTOINCREMENT"
    else if SameWord(w, "BYTEA") then "BLOB"
    else if SameWord(w, "BOOLEAN") then "BOOLEAN"
    else w
  }

  lemma SubstituteIs(w: string)
    ensures Substitute(w) == SqliteWord(w)
  {
    SameWordIff(w, "SERIAL");
    SameWordIff(w, "BIGSERIAL");
    SameWordIff(w, "BYTEA");
    SameWordIff(w, "BOOLEAN");
  }

  predicate IsWord(w: string) { w != "" && !('0' <= w[0] <= '9') && forall k :: 0 <= k < |w| ==> IsNameByte(w[k]) }

  /** Nothing that could be part of the word stands in front. */
  predicate MayFollow(prev: Option<char>) { prev.Some? ==> !Glues(prev.value) }

  lemma StartsIff(prev: Option<char>, c: char)
    ensures WordStart(prev, c) <==> IsNameByte(c) && !('0' <= c <= '9') && MayFollow(prev)
  {
    GluesIff(c);
    if prev.Some? {
      GluesIff(prev.value);
    }
  }

  lemma NamesAreIdents(w: string)
    ensures forall k :: 0 <= k < |w| ==> (IsIdentByte(w[k]) <==> IsNameByte(w[k]))
  {
    forall k | 0 <= k < |w| ensures IsIdentByte(w[k]) <==> IsNameByte(w[k]) {
      GluesIff(w[k]);
    }
  }

  lemma WordStepsOver(prev: Option<char>, w: string, u: string)
    requires IsWord(w) && MayFollow(prev) && w <= u && IdentLen(u) == |w|
    ensures StepLen(prev, u) == |w| && StepText(prev, u) == Substitute(w)
  {
    StartsIff(prev, w[0]);
    assert u[0] == w[0] && u[..|w|] == w;
  }

  /** A whole word outside quotes is written in its SQLite spelling; what follows is replaced on its own. */
  lemma WordIsReplaced(prev: Option<char>, w: string, t: string)
    requires IsWord(w) && MayFollow(prev) && (t != "" ==> !IsNameByte(t[0]))
    ensures Replace(prev, w + t) == SqliteWord(w) + Replace(Some(w[|w| - 1]), t)
  {
    var u := w + t;
    assert IdentLen(u) == |w| by {
      NamesAreIdents(w);
      NamesAreIdents(t);
      IdentRunEnds(w, t);
    }
    WordStepsOver(prev, w, u);
    SubstituteIs(w);
    ReplaceHead(prev, u);
    assert u[|w|..] == t && u[|w| - 1] == w[|w| - 1];
  }

  /** Any other byte outside quotes is written as it is: one of no word, or in the middle of one. */
  lemma ByteIsKept(prev: Option<char>, c: char, t: string)
    requires c != '\'' && c != '"' && (!IsNameByte(c) || '0' <= c <= '9' || !MayFollow(prev))
    ensures Replace(prev, [c] + t) == [c] + Replace(Some(c), t)
  {
    var u := [c] + t;
    StartsIff(prev, c);
    assert u[0] == c && u[..1] == [c] && u[1..] == t;
    ReplaceHead(prev, u);
  }
}
