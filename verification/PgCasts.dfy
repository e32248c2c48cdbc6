/**
 Where the later Postgres passes go beyond what they are for: the second pass takes more than a type
 behind `::`, and both read the inside of dollar quotes. Exactly when, in each case.
 */
module PgCasts {
  import opened Text
  import opened PgRegions
  import opened PgRewrite
  import opened PgTranslate
  import opened PgPlain

  // ---- A cast and one type name ---------------------------------------------------------------

  function DropLen(t: string): (n: nat)
    requires t != ""
    ensures 0 < n <= |t|
  {
    if AtCast(t) then 2 + IdentLen(t[2..]) else StripLen(t)
  }

  /** The documented pass: outside quotes, `::` goes with the one identifier behind it. */
  function DropTypes(t: string): string
    decreases |t|
  {
    if t == "" then "" else StripText(t) + DropTypes(t[DropLen(t)..])
  }

  /** At every cast that is met, one identifier is all there is before the next byte that is neither
      part of an identifier nor a space. */
  predicate CastsStandAlone(t: string)
    decreases |t|
  {
    t != "" ==> (AtCast(t) ==> CastLen(t[2..]) == IdentLen(t[2..])) && CastsStandAlone(t[StripLen(t)..])
  }

  lemma {:induction false} IdentIsCast(t: string)
    ensures IdentLen(t) <= CastLen(t)
  {
    if IdentLen(t) > 0 {
      IdentIsCast(t[1..]);
    }
  }

  predicate AreWords(e: string) { forall k :: 0 <= k < |e| ==> IsIdentByte(e[k]) || e[k] == ' ' }

  lemma {:induction false} EatenAreWords(t: string)
    ensures AreWords(t[..CastLen(t)])
  {
    if CastLen(t) > 0 {
      EatenAreWords(t[1..]);
      assert t[..CastLen(t)] == [t[0]] + t[1..][..CastLen(t) - 1];
    }
  }

  lemma WordStep(c: char, t: string)
    requires IsIdentByte(c) || c == ' '
    ensures DropTypes([c] + t) == [c] + DropTypes(t)
  {
    var u := [c] + t;
    assert u[..1] == [c] && u[1..] == t;
  }

  lemma WordsMore(c: char, e: string, r: string)
    requires (IsIdentByte(c) || c == ' ') && DropTypes(e + r) == e + DropTypes(r)
    ensures DropTypes(([c] + e) + r) == ([c] + e) + DropTypes(r)
  {
    Assoc([c], e, r);
    WordStep(c, e + r);
    Assoc([c], e, DropTypes(r));
  }

  /** Words and spaces come through the documented pass. */
  lemma {:induction false} WordsPass(e: string, r: string)
    requires AreWords(e)
    ensures DropTypes(e + r) == e + DropTypes(r)
  {
    if e == "" {
      assert e + r == r && e + DropTypes(r) == DropTypes(r);
    } else {
      WordsPass(e[1..], r);
      WordsMore(e[0], e[1..], r);
      assert e == [e[0]] + e[1..];
    }
  }

  lemma DropsCast(t: string)
    requires t != "" && AtCast(t)
    ensures DropTypes(t) == DropTypes(t[DropLen(t)..])
  {
    assert "" + DropTypes(t[DropLen(t)..]) == DropTypes(t[DropLen(t)..]);
  }

  /** What the second pass eats beyond the first identifier. */
  lemma MoreIsEaten(t: string)
    requires t != "" && AtCast(t)
    ensures DropLen(t) <= StripLen(t) && AreWords(t[DropLen(t)..StripLen(t)])
  {
    var u := t[2..];
    IdentIsCast(u);
    EatenAreWords(u);
    forall k | DropLen(t) <= k < StripLen(t) ensures IsIdentByte(t[k]) || t[k] == ' ' {
      assert u[..CastLen(u)][k - 2] == t[k];
    }
  }

  lemma CutInTwo(t: string, d: nat, n: nat)
    requires d <= n <= |t|
    ensures t[d..] == t[d..n] + t[n..]
  {
  }

  /** At a cast the two passes differ by the words and spaces behind the first identifier. */
  lemma CastDiffers(t: string)
    requires t != "" && AtCast(t)
    ensures DropLen(t) <= StripLen(t)
    ensures DropTypes(t) == t[DropLen(t)..StripLen(t)] + DropTypes(t[StripLen(t)..])
  {
    MoreIsEaten(t);
    DropsCast(t);
    CutInTwo(t, DropLen(t), StripLen(t));
    WordsPass(t[DropLen(t)..StripLen(t)], t[StripLen(t)..]);
  }

  lemma StripsCast(t: string)
    requires t != "" && AtCast(t)
    ensures StripCasts(t) == StripCasts(t[StripLen(t)..])
  {
    assert "" + StripCasts(t[StripLen(t)..]) == StripCasts(t[StripLen(t)..]);
  }

  lemma OtherStep(t: string)
    requires t != "" && !AtCast(t)
    ensures StripCasts(t) == t[..StripLen(t)] + StripCasts(t[StripLen(t)..])
    ensures DropTypes(t) == t[..StripLen(t)] + DropTypes(t[StripLen(t)..])
  {
  }

  lemma EmptyPrefix(e: string, x: string)
    requires e == ""
    ensures e + x == x
  {
  }

  lemma {:induction false} StripIsShorter(t: string)
    ensures |StripCasts(t)| <= |DropTypes(t)|
    ensures if CastsStandAlone(t) then StripCasts(t) == DropTypes(t) else |StripCasts(t)| < |DropTypes(t)|
    decreases |t|
  {
    if t != "" {
      var rest := t[StripLen(t)..];
      StripIsShorter(rest);
      if AtCast(t) {
        StripsCast(t);
        CastDiffers(t);
        var more := t[DropLen(t)..StripLen(t)];
        if more == "" {
          EmptyPrefix(more, DropTypes(rest));
        }
      } else {
        OtherStep(t);
      }
    }
  }

  /** For every text: the second pass does what it is documented to do if and only if every cast it
      meets stands alone. */
  lemma StripDropsTypesIff(t: string)
    ensures StripCasts(t) == DropTypes(t) <==> CastsStandAlone(t)
  {
    StripIsShorter(t);
  }

  // ---- `a::int FROM t` ------------------------------------------------------------------------

  lemma {:induction false} WordsAreEaten(e: string)
    requires AreWords(e)
    ensures CastLen(e) == |e|
  {
    if e != "" {
      WordsAreEaten(e[1..]);
    }
  }

  lemma {:induction false} IdentRunEnds(i: string, e: string)
    requires (forall k :: 0 <= k < |i| ==> IsIdentByte(i[k])) && (e != "" ==> !IsIdentByte(e[0]))
    ensures IdentLen(i + e) == |i|
  {
    if i == "" {
      assert i + e == e;
    } else {
      IdentRunEnds(i[1..], e);
      assert (i + e)[1..] == i[1..] + e;
    }
  }

  lemma BehindName(w: string)
    ensures StripCasts("a" + ("::" + w)) == "a" + StripCasts("::" + w)
    ensures DropTypes("a" + ("::" + w)) == "a" + DropTypes("::" + w)
  {
    var t := "a" + ("::" + w);
    assert t[1..] == "::" + w && t[..1] == "a";
    OtherStep(t);
  }

  lemma CastWithWords(i: string, e: string)
    requires (forall k :: 0 <= k < |i| ==> IsIdentByte(i[k])) && AreWords(e) && e != "" && e[0] == ' '
    ensures var t := "::" + (i + e);
            AtCast(t) && StripLen(t) == |t| && DropLen(t) == 2 + |i| && t[DropLen(t)..] == e
  {
    var w := i + e;
    assert ("::" + w)[2..] == w && w[|i|..] == e;
    WordsAreEaten(w);
    IdentRunEnds(i, e);
  }

  /** `a::` with a type and further words behind it: the second pass leaves `a` alone of all that, where
      the documented pass keeps the words. */
  lemma WordsBehindTypeAreLost(i: string, e: string)
    requires (forall k :: 0 <= k < |i| ==> IsIdentByte(i[k])) && AreWords(e) && e != "" && e[0] == ' '
    ensures StripCasts("a" + ("::" + (i + e))) == "a" && DropTypes("a" + ("::" + (i + e))) == "a" + e
  {
    var t := "::" + (i + e);
    CastWithWords(i, e);
    BehindName(i + e);
    StripsCast(t);
    CastDiffers(t);
    assert t[|t|..] == "" && t[DropLen(t)..|t|] == e;
    assert "a" + "" == "a" && e + "" == e;
  }

  /** `a::int FROM t` becomes `a`. */
  lemma FromIsLost(t: string)
    requires t == "a" + ("::" + ("int" + " FROM t"))
    ensures StripCasts(t) == "a" && DropTypes(t) == "a" + " FROM t"
  {
    WordsBehindTypeAreLost("int", " FROM t");
  }
}
