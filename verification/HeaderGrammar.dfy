/** The Content-Range headers that are read, and as what: all others are refused. */
module HeaderGrammar {
  import opened Text
  import opened ContentRange

  /** `x` is `n` in decimal, with an optional sign, within 64 bits. */
  ghost predicate IsNumber(x: string, n: int) {
    && -0x8000_0000_0000_0000 <= n <= 0x7FFF_FFFF_FFFF_FFFF
    && exists digits: string ::
         && digits != "" && AllDigits(digits)
         && ((x == digits && n == DigitsValue(digits)) || (x == "+" + digits && n == DigitsValue(digits)) || (x == "-" + digits && n + DigitsValue(digits) == 0))
  }

  lemma NumberIff(x: string, n: int)
    ensures ParseInt64(x) == Some(n) <==> IsNumber(x, n)
  {
    if ParseInt64(x) == Some(n) {
      var digits := if x[0] == '+' || x[0] == '-' then x[1..] else x;
      assert x == "+" + x[1..] || x == "-" + x[1..] || x == digits;
      assert digits != "" && AllDigits(digits);
    }
    if IsNumber(x, n) {
      var digits :| digits != "" && AllDigits(digits) &&
        ((x == digits && n == DigitsValue(digits)) || (x == "+" + digits && n == DigitsValue(digits)) || (x == "-" + digits && n + DigitsValue(digits) == 0));
      assert IsDigit(digits[0]);
      if x != digits {
        assert x[1..] == digits;
      }
    }
  }

  ghost predicate IsTotal(x: string, n: int) { if x == "*" then n == -1 else IsNumber(x, n) }

  /** From `a` to `b`. */
  ghost predicate AreBounds(a: string, b: string, r: Range) {
    && IsNumber(a, r.start)
    && if b == "*" then r.end == -1 && !r.final else IsNumber(b, r.end) && r.final == (r.total >= 0 && r.end == r.total - 1)
  }

  /** `start-end` or `start-*`; the last chunk is the one that ends one byte before the total. */
  ghost predicate IsSpan(x: string, r: Range) {
    exists a: string, b: string :: '-' !in a && x == a + ("-" + b) && AreBounds(a, b, r)
  }

  ghost predicate IsPart(x: string, r: Range) {
    if x == "*" then r.isStatus && r.start == -1 && r.end == -1 && !r.final else !r.isStatus && IsSpan(x, r)
  }

  ghost predicate IsHeader(h: string, r: Range) {
    exists part: string, total: string :: '/' !in part && h == "bytes " + (part + ("/" + total)) && IsTotal(total, r.total) && IsPart(part, r)
  }

  lemma TotalIff(x: string, n: int)
    ensures ParseTotal(x) == Some(n) <==> IsTotal(x, n)
  {
    NumberIff(x, n);
  }

  lemma CutAtByte(x: string, c: char, a: string, b: string)
    requires c !in a && x == a + ([c] + b)
    ensures IndexByte(x, c) == |a| && x[..|a|] == a && x[|a| + 1..] == b
  {
    Assoc(a, [c], b);
    IndexBytePrinted(a, c, b);
  }

  lemma Rejoins(x: string, i: nat)
    requires i < |x|
    ensures x == x[..i] + ([x[i]] + x[i + 1..])
  {
  }

  lemma CutBack(x: string, c: char) returns (a: string, b: string)
    requires IndexByte(x, c) >= 0
    ensures c !in a && x == a + ([c] + b) && a == x[..IndexByte(x, c)] && b == x[IndexByte(x, c) + 1..]
  {
    var i := IndexByte(x, c);
    a, b := x[..i], x[i + 1..];
    Rejoins(x, i);
  }

  lemma BoundsIff(a: string, b: string, total: int, r: Range)
    requires !r.isStatus && r.total == total
    ensures ParseBounds(ParseInt64(a), b, total) == Some(r) <==> AreBounds(a, b, r)
  {
    NumberIff(a, r.start);
    NumberIff(b, r.end);
  }

  lemma SpanIsRead(x: string, a: string, b: string, total: int, r: Range)
    requires !r.isStatus && r.total == total && '-' !in a && x == a + ("-" + b)
    ensures ParseSpan(x, total) == Some(r) <==> AreBounds(a, b, r)
  {
    CutAtByte(x, '-', a, b);
    BoundsIff(a, b, total, r);
  }

  lemma SpanReads(x: string, total: int, r: Range)
    requires !r.isStatus && r.total == total && IsSpan(x, r)
    ensures ParseSpan(x, total) == Some(r)
  {
    var a, b :| '-' !in a && x == a + ("-" + b) && AreBounds(a, b, r);
    SpanIsRead(x, a, b, total, r);
  }

  lemma ReadIsSpan(x: string, total: int, r: Range)
    requires !r.isStatus && r.total == total && ParseSpan(x, total) == Some(r)
    ensures IsSpan(x, r)
  {
    var a, b := CutBack(x, '-');
    SpanIsRead(x, a, b, total, r);
  }

  lemma SpansAreNoStatus(x: string, total: int)
    ensures ParseSpan(x, total).Some? ==> !ParseSpan(x, total).value.isStatus && ParseSpan(x, total).value.total == total
  {
  }

  lemma PartsIff(part: string, total: Option<int>, r: Range)
    ensures ParseParts(part, total) == Some(r) <==> total == Some(r.total) && IsPart(part, r)
  {
    if total.Some? {
      SpansAreNoStatus(part, total.value);
      if part != "*" && !r.isStatus && r.total == total.value {
        if IsSpan(part, r) {
          SpanReads(part, total.value, r);
        }
        if ParseSpan(part, total.value) == Some(r) {
          ReadIsSpan(part, total.value, r);
        }
      }
    }
  }

  lemma RestIff(rest: string, part: string, total: string, r: Range)
    requires '/' !in part && rest == part + ("/" + total)
    ensures Parse("bytes " + rest) == Some(r) <==> IsTotal(total, r.total) && IsPart(part, r)
  {
    var h := "bytes " + rest;
    assert h[6..] == rest && PREFIX <= h;
    CutAtByte(rest, '/', part, total);
    PartsIff(part, ParseTotal(total), r);
    TotalIff(total, r.total);
  }

  lemma HeaderIsCut(h: string, r: Range) returns (part: string, total: string)
    requires Parse(h) == Some(r)
    ensures '/' !in part && h == "bytes " + (part + ("/" + total))
  {
    part, total := CutBack(h[6..], '/');
    assert h == "bytes " + h[6..];
  }

  lemma HeaderReads(h: string, r: Range)
    requires IsHeader(h, r)
    ensures Parse(h) == Some(r)
  {
    var part, total :| '/' !in part && h == "bytes " + (part + ("/" + total)) && IsTotal(total, r.total) && IsPart(part, r);
    RestIff(part + ("/" + total), part, total, r);
  }

  lemma ReadIsHeader(h: string, r: Range)
    requires Parse(h) == Some(r)
    ensures IsHeader(h, r)
  {
    var part, total := HeaderIsCut(h, r);
    RestIff(part + ("/" + total), part, total, r);
  }

  /** A header is read as `r` exactly if it is written so. */
  lemma HeaderIff(h: string, r: Range)
    ensures Parse(h) == Some(r) <==> IsHeader(h, r)
  {
    if IsHeader(h, r) {
      HeaderReads(h, r);
    }
    if Parse(h) == Some(r) {
      ReadIsHeader(h, r);
    }
  }
}
