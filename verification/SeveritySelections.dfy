/** Which entries a filter with a severity number selects, and when a plus sign does no harm. */
module SeveritySelections {
  import opened Text
  import opened FilterLexer
  import opened LogFilter
  import opened SeverityNumbers

  // ---- Selections -----------------------------------------------------------------------------

  predicate IsRank(r: int) { 0 <= r <= 800 && r % 100 == 0 }

  function NameOf(r: int): string
    requires IsRank(r)
  {
    if r == 0 then "DEFAULT" else if r == 100 then "DEBUG" else if r == 200 then "INFO"
    else if r == 300 then "NOTICE" else if r == 400 then "WARNING" else if r == 500 then "ERROR"
    else if r == 600 then "CRITICAL" else if r == 700 then "ALERT" else "EMERGENCY"
  }

  lemma UpperIsSame(w: string)
    requires forall k :: 0 <= k < |w| ==> !('a' <= w[k] <= 'z')
    ensures Upper(w) == w
  {
  }

  lemma NamesAreRanked(r: int)
    requires IsRank(r)
    ensures NameOf(r) in SeverityRank && SeverityRank[NameOf(r)] == r && Upper(NameOf(r)) == NameOf(r)
  {
    UpperIsSame(NameOf(r));
  }

  lemma EntriesAreRanked(e: Entry)
    ensures IsRank(EntryRank(e))
  {
  }

  lemma RankHasEntry(r: int) returns (e: Entry)
    requires IsRank(r)
    ensures EntryRank(e) == r
  {
    NamesAreRanked(r);
    e := Entry(NameOf(r), "", map[], 0);
  }

  /** Two numbers that no rank tells apart. */
  predicate Alike(rel: Relation, w: int, n: int) {
    forall r | 0 <= r <= 800 :: IsRank(r) ==> (Relates(rel, r, w) <==> Relates(rel, r, n))
  }

  /** The filter selects the entries that the number written would. */
  ghost predicate SelectsAsWritten(rel: Relation, v: string)
    requires IsNumber(v)
  {
    forall e: Entry :: Relates(rel, EntryRank(e), WantedRank(v)) <==> Relates(rel, EntryRank(e), Value(v))
  }

  lemma SelectsAsWrittenIff(rel: Relation, v: string)
    requires IsNumber(v)
    ensures SelectsAsWritten(rel, v) <==> Alike(rel, WantedRank(v), Value(v))
  {
    var w, n := WantedRank(v), Value(v);
    if SelectsAsWritten(rel, v) {
      forall r | 0 <= r <= 800 && IsRank(r) ensures Relates(rel, r, w) <==> Relates(rel, r, n) {
        var e := RankHasEntry(r);
      }
    }
    if Alike(rel, w, n) {
      forall e: Entry ensures Relates(rel, EntryRank(e), w) <==> Relates(rel, EntryRank(e), n) {
        EntriesAreRanked(e);
      }
    }
  }

  /** Against a number above every rank. */
  predicate LooksTooHigh(rel: Relation, n: int) {
    match rel
    case Eq => !IsRank(n)
    case Ne => !IsRank(n)
    case Ge => n > 800
    case Lt => n > 800
    case Gt => n >= 800
    case Le => n >= 800
  }

  lemma AlikeAboveIff(rel: Relation, w: int, n: int)
    requires w > 800
    ensures Alike(rel, w, n) <==> LooksTooHigh(rel, n)
  {
    assert IsRank(800) && IsRank(0);
    if Alike(rel, w, n) {
      assert Relates(rel, 800, w) <==> Relates(rel, 800, n);
      assert IsRank(n) ==> (Relates(rel, n, w) <==> Relates(rel, n, n));
    }
  }

  lemma NumberIsNoName(v: string)
    requires IsNumber(v)
    ensures WantedRank(v) == Wrap64(ByteValue(v))
  {
    var up := Upper(v);
    assert up[0] == UpperChar(v[0]);
    assert forall w :: w in SeverityRank ==> w != "" && 'A' <= w[0] <= 'Z';
  }

  lemma TenAtLeast(k: nat)
    requires 1 <= k <= 16
    ensures 10 <= Power10(k) <= 10000000000000000
  {
    PowerGrows(1, k);
    PowerGrows(k, 16);
    PowerSixteen();
    assert Power10(1) == 10 * Power10(0);
  }

  lemma SignBytes(v: string)
    requires IsNumber(v) && IsSigned(v)
    ensures ByteDigit(v[0]) == if v[0] == '+' then 251 else 253
  {
  }

  lemma HighRange(m: nat, p: nat, d: nat)
    requires (m == 251 || m == 253) && 10 <= p <= 10000000000000000 && d < p
    ensures 800 < m * p + d <= INT64_MAX
  {
  }

  lemma SignedIsHigh(v: string)
    requires IsNumber(v) && IsSigned(v) && 2 <= |v| <= 17
    ensures WantedRank(v) > 800
  {
    var m, p, d := ByteDigit(v[0]), Power10(|v| - 1), DigitsValue(v[1..]);
    NumberIsNoName(v);
    SignBytes(v);
    LeadingByte(v[0], m, v[1..]);
    assert v == [v[0]] + v[1..];
    TenAtLeast(|v| - 1);
    DigitsBelow(v[1..]);
    HighRange(m, p, d);
    assert ByteValue(v) == m * p + d;
  }

  /** A filter with a signed number of one to sixteen digits compares with a number above every rank. It
      selects what the number written would if and only if that is out of reach in the same way. */
  lemma SignedSelectsIff(rel: Relation, v: string)
    requires IsNumber(v) && IsSigned(v) && 2 <= |v| <= 17
    ensures SelectsAsWritten(rel, v) <==> LooksTooHigh(rel, Value(v))
  {
    SignedIsHigh(v);
    SelectsAsWrittenIff(rel, v);
    AlikeAboveIff(rel, WantedRank(v), Value(v));
  }

  // ---- A plus sign ----------------------------------------------------------------------------

  function Power(b: nat, n: nat): nat { if n == 0 then 1 else b * Power(b, n - 1) }

  lemma Regroup(a: nat, b: nat)
    ensures 10 * (a * b) == (2 * a) * (5 * b)
  {
  }

  lemma {:induction false} TenIsTwoTimesFive(n: nat)
    ensures Power10(n) == Power(2, n) * Power(5, n)
  {
    if n > 0 {
      TenIsTwoTimesFive(n - 1);
      Regroup(Power(2, n - 1), Power(5, n - 1));
    }
  }

  lemma {:induction false} FivesAreOdd(n: nat)
    ensures Power(5, n) % 2 == 1
  {
    if n > 0 {
      FivesAreOdd(n - 1);
    }
  }

  lemma Twice(a: nat, b: nat)
    ensures 2 * (a * b) == (2 * a) * b
  {
  }

  lemma {:induction false} TwosAdd(m: nat, n: nat)
    ensures Power(2, m + n) == Power(2, m) * Power(2, n)
  {
    if m > 0 {
      TwosAdd(m - 1, n);
      Twice(Power(2, m - 1), Power(2, n));
    }
  }

  lemma WordIsPower()
    ensures Power(2, 64) == WORD
  {
    assert Power(2, 8) == 256;
    TwosAdd(8, 8);
    TwosAdd(16, 16);
    TwosAdd(32, 32);
  }

  lemma {:induction false} TwosArePositive(n: nat)
    ensures Power(2, n) > 0 && (n > 0 ==> Power(2, n) % 2 == 0)
  {
    if n > 0 {
      var h := Power(2, n - 1);
      TwosArePositive(n - 1);
      assert Power(2, n) == 2 * h;
    }
  }

  lemma LessBy(m: nat, a: nat, b: nat)
    requires m * a < m * (b + 1)
    ensures a <= b
  {
    if b < a {
      Monotone(m, b + 1, a);
      assert false;
    }
  }

  lemma Monotone(m: nat, x: nat, y: nat)
    requires x <= y
    ensures m * x <= m * y
  {
  }

  lemma Remainder(x: nat, m: nat, q: nat, r: nat)
    requires x == m * q + r && r < m
    ensures x % m == r
  {
    var k := x / m;
    assert x == m * k + x % m && m * (k + 1) == m * k + m && m * (q + 1) == m * q + m;
    LessBy(m, k, q);
    LessBy(m, q, k);
  }

  lemma Spread(p: nat, e: nat, q: nat, r: nat)
    ensures p * (e * q + r) == (p * e) * q + p * r
  {
  }

  lemma ScaledBelow(p: nat, r: nat, e: nat)
    requires p > 0 && r < e
    ensures p * r < p * e
  {
  }

  lemma OddModEven(o: nat, e: nat)
    requires o % 2 == 1 && e % 2 == 0 && e > 0
    ensures (o % e) % 2 == 1
  {
    var q, r, h := o / e, o % e, e / 2;
    assert o == e * q + r && e == 2 * h;
    assert e * q == 2 * (h * q);
  }

  /** An odd number times `p` is no multiple of `p` times an even one. */
  lemma OddIsNoMultiple(p: nat, o: nat, e: nat)
    requires p > 0 && e > 0 && o % 2 == 1 && e % 2 == 0
    ensures p * e > 0 && (p * o) % (p * e) != 0
  {
    var q, r := o / e, o % e;
    OddModEven(o, e);
    Spread(p, e, q, r);
    ScaledBelow(p, r, e);
    ScaledBelow(p, 0, r);
    assert o == e * q + r;
    Remainder(p * o, p * e, q, p * r);
  }

  lemma Swap(c: nat, p: nat, f: nat)
    ensures c * (p * f) == p * (c * f)
  {
  }

  lemma OddScaled(f: nat)
    requires f % 2 == 1
    ensures (251 * f) % 2 == 1
  {
  }

  lemma PlusErrorFew(k: nat)
    requires k < 64
    ensures (251 * Power10(k)) % WORD != 0
  {
    var p, f, e := Power(2, k), Power(5, k), Power(2, 64 - k);
    TenIsTwoTimesFive(k);
    FivesAreOdd(k);
    OddScaled(f);
    TwosAdd(k, 64 - k);
    WordIsPower();
    TwosArePositive(k);
    TwosArePositive(64 - k);
    OddIsNoMultiple(p, 251 * f, e);
    Swap(251, p, f);
  }

  lemma Gather(w: nat, c: nat, p: nat, f: nat)
    ensures c * ((w * p) * f) == w * (c * (p * f))
  {
    Swap(c, w, p * f);
    assert (w * p) * f == w * (p * f);
  }

  lemma Multiple(w: nat, y: nat)
    requires w > 0
    ensures (w * y) % w == 0
  {
    Remainder(w * y, w, y, 0);
  }

  lemma PlusErrorMany(k: nat)
    requires k >= 64
    ensures (251 * Power10(k)) % WORD == 0
  {
    var p, f, w := Power(2, k - 64), Power(5, k), Power(2, 64);
    TenIsTwoTimesFive(k);
    TwosAdd(64, k - 64);
    WordIsPower();
    Gather(w, 251, p, f);
    Multiple(w, 251 * (p * f));
  }

  /** A plus sign is harmless exactly in front of at least 64 digits that make an int64. */
  lemma PlusIsMeantIff(v: string)
    requires IsNumber(v) && v[0] == '+'
    ensures Wrap64(ByteValue(v)) == Value(v) <==> Value(v) <= INT64_MAX && |v| > 64
  {
    NumberIsMeantIff(v);
    if |v| > 64 {
      PlusErrorMany(|v| - 1);
    } else {
      PlusErrorFew(|v| - 1);
    }
  }
}
