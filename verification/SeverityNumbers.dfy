/** Numbers as severities: what the digit loop of a filter makes of a literal. */
module SeverityNumbers {
  import opened Text
  import opened FilterLexer
  import opened LogFilter
  import opened FilterTheorems

  const WORD := 0x1_0000_0000_0000_0000

  function Power10(n: nat): (p: nat)
    ensures p > 0
  {
    if n == 0 then 1 else 10 * Power10(n - 1)
  }

  predicate IsSigned(v: string) { v != "" && (v[0] == '-' || v[0] == '+') }

  /** What a number literal means. */
  function Value(v: string): int
    requires IsNumber(v)
  {
    if !IsSigned(v) then DigitsValue(v) else if v[0] == '-' then 0 - DigitsValue(v[1..]) else DigitsValue(v[1..])
  }

  lemma {:induction false} DigitsAsBytes(v: string)
    requires AllDigits(v)
    ensures ByteValue(v) == DigitsValue(v)
  {
    if v != "" {
      assert IsDigit(v[|v| - 1]);
      DigitsAsBytes(v[..|v| - 1]);
    }
  }

  lemma ByteLast(u: string, c: char)
    ensures ByteValue(u + [c]) == ByteValue(u) * 10 + ByteDigit(c)
    ensures AllDigits(u) && IsDigit(c) ==> DigitsValue(u + [c]) == DigitsValue(u) * 10 + ByteDigit(c)
  {
    assert (u + [c])[..|u|] == u;
  }

  lemma Horner(c: int, p: int, h: int, d: int)
    ensures (c * p + h) * 10 + d == c * (10 * p) + (h * 10 + d)
  {
  }

  /** A leading byte counts as a digit in the highest place. */
  lemma {:induction false} LeadingByte(c: char, m: nat, v: string)
    requires AllDigits(v) && m == ByteDigit(c)
    ensures ByteValue([c] + v) == m * Power10(|v|) + DigitsValue(v)
  {
    if v == "" {
      ByteLast("", c);
      assert [c] + v == [c] && "" + [c] == [c];
    } else {
      var u, d := v[..|v| - 1], v[|v| - 1];
      LeadingByte(c, m, u);
      LeadingByteStep(c, m, u, d);
      assert v == u + [d];
    }
  }

  lemma LeadingByteStep(c: char, m: nat, u: string, d: char)
    requires AllDigits(u) && IsDigit(d) && ByteValue([c] + u) == m * Power10(|u|) + DigitsValue(u)
    ensures ByteValue([c] + (u + [d])) == m * Power10(|u + [d]|) + DigitsValue(u + [d])
  {
    Assoc([c], u, [d]);
    ByteLast([c] + u, d);
    ByteLast(u, d);
    Horner(m, Power10(|u|), DigitsValue(u), ByteDigit(d));
  }

  lemma {:induction false} DigitsBelow(v: string)
    requires AllDigits(v)
    ensures DigitsValue(v) < Power10(|v|)
  {
    if v != "" {
      assert IsDigit(v[|v| - 1]);
      DigitsBelow(v[..|v| - 1]);
    }
  }

  /** What the sign adds to the number the loop computes, beyond the value meant. */
  function SignError(v: string): int
    requires IsNumber(v)
  {
    if !IsSigned(v) then 0
    else if v[0] == '+' then 251 * Power10(|v| - 1)
    else 253 * Power10(|v| - 1) + 2 * DigitsValue(v[1..])
  }

  lemma UnsignedIsDigits(v: string)
    requires IsNumber(v) && !IsSigned(v)
    ensures AllDigits(v)
  {
    forall k | 0 <= k < |v| ensures IsDigit(v[k]) {
      assert k > 0 ==> v[k] == v[1..][k - 1];
    }
  }

  lemma LoopAddsSignError(v: string)
    requires IsNumber(v)
    ensures ByteValue(v) == Value(v) + SignError(v)
  {
    if IsSigned(v) {
      LeadingByte(v[0], ByteDigit(v[0]), v[1..]);
      assert v == [v[0]] + v[1..];
    } else {
      UnsignedIsDigits(v);
      DigitsAsBytes(v);
    }
  }

  lemma WrapMeets(n: int, e: int)
    ensures Wrap64(n + e) == n <==> INT64_MIN <= n <= INT64_MAX && e % WORD == 0
  {
    var q := e / WORD;
    assert e == q * WORD + e % WORD;
  }

  /** The number the filter compares with is the one written exactly when that is an int64 and the
      sign's contribution vanishes in 64 bits. */
  lemma NumberIsMeantIff(v: string)
    requires IsNumber(v)
    ensures Wrap64(ByteValue(v)) == Value(v) <==> INT64_MIN <= Value(v) <= INT64_MAX && SignError(v) % WORD == 0
  {
    LoopAddsSignError(v);
    WrapMeets(Value(v), SignError(v));
  }

  /** Without a sign every int64 is right. */
  lemma UnsignedNumberIsMeant(v: string)
    requires IsNumber(v) && !IsSigned(v)
    ensures Wrap64(ByteValue(v)) == Value(v) <==> Value(v) <= INT64_MAX
  {
    NumberIsMeantIff(v);
  }

  lemma {:induction false} PowerGrows(m: nat, n: nat)
    requires m <= n
    ensures Power10(m) <= Power10(n)
  {
    if m < n {
      PowerGrows(m, n - 1);
    }
  }

  lemma PowerSixteen()
    ensures Power10(16) == 10000000000000000
  {
    assert Power10(4) == 10000;
    assert Power10(8) == 100000000;
    assert Power10(12) == 1000000000000;
  }

  lemma SignErrorIsSmall(v: string)
    requires IsNumber(v) && IsSigned(v) && |v| <= 17
    ensures 0 < SignError(v) < WORD
  {
    var p, d := Power10(|v| - 1), DigitsValue(v[1..]);
    PowerGrows(|v| - 1, 16);
    PowerSixteen();
    DigitsBelow(v[1..]);
    assert p <= 10000000000000000 && d < p;
  }

  lemma SmallIsNoMultiple(n: int)
    requires 0 < n < WORD
    ensures n % WORD != 0
  {
  }

  /** With a sign and up to sixteen digits the filter never compares with the number written. */
  lemma SignedNumberIsNeverMeant(v: string)
    requires IsNumber(v) && IsSigned(v) && |v| <= 17
    ensures Wrap64(ByteValue(v)) != Value(v)
  {
    NumberIsMeantIff(v);
    SignErrorIsSmall(v);
    SmallIsNoMultiple(SignError(v));
  }

  lemma NegativeRank()
    ensures IsNumber("-5") && Upper("-5") !in SeverityRank && Value("-5") == -5 && WantedRank("-5") == 2535
  {
    assert "-5"[1..] == "5" && "5"[..0] == "";
    assert Upper("-5")[0] == '-';
    LoopAddsSignError("-5");
    assert Power10(1) == 10 * Power10(0);
  }

  lemma NegativeIsQuoted()
    ensures Quote("-5") == "\"-5\""
  {
    assert "-5"[1..] == "5" && "5"[1..] == "";
    assert Escape("5") == "5" + Escape("");
    assert Escape("-5") == "-" + Escape("5");
  }

  const NEGATIVE := Written(Atom(Severity, Ge, "-5"), false, "", "")

  lemma PrintDense(w: Written)
    requires w.beforeRel == "" && w.afterRel == ""
    ensures PrintOne(w) == FieldName(w.atom.field) + (RelationText(w.atom.rel) + ValueText(w))
  {
    assert "" + ValueText(w) == ValueText(w);
    assert "" + (RelationText(w.atom.rel) + ValueText(w)) == RelationText(w.atom.rel) + ValueText(w);
  }

  lemma NegativeIsPrinted()
    ensures Print(Last(NEGATIVE)) == "severity>=\"-5\""
  {
    NegativeIsQuoted();
    PrintDense(NEGATIVE);
    assert "severity" + (">=" + "\"-5\"") == "severity>=\"-5\"";
  }

  /** `severity>="-5"` is a filter, but it asks for a rank of at least 2535, which no entry has. */
  lemma NegativeSeverity(rfc3339: string -> Option<int>, s: string, e: Entry)
    requires s == "severity>=\"-5\""
    ensures Accepts(rfc3339, s) && !Selects(rfc3339, s, e)
  {
    NegativeRank();
    NegativeIsPrinted();
    FilterRoundTrip(rfc3339, Last(NEGATIVE), e);
  }
}
