/**
 Text helpers shared by the models: a `string` is a Go byte string, one character per byte.
 Decimal printing and parsing follow `strconv.FormatInt` and `strconv.ParseInt(s, 10, 64)`.
 */
module Text {

  datatype Option<+T> = None | Some(value: T)

  const INT64_MAX := 0x7FFF_FFFF_FFFF_FFFF
  const INT64_MIN := -0x8000_0000_0000_0000

  /** The value a Go `int64` computation leaves behind: `n` modulo 2^64, two's complement. */
  function Wrap64(n: int): (r: int)
    ensures INT64_MIN <= r <= INT64_MAX
    ensures INT64_MIN <= n <= INT64_MAX ==> r == n
  {
    (n - INT64_MIN) % 0x1_0000_0000_0000_0000 + INT64_MIN
  }

  /** Wrapping at every digit of a decimal loop is wrapping once at the end. */
  lemma WrapStep(h: int, d: int)
    ensures Wrap64(Wrap64(h) * 10 + d) == Wrap64(h * 10 + d)
  {
    var q := (h - INT64_MIN) / 0x1_0000_0000_0000_0000;
    assert Wrap64(h) == h - q * 0x1_0000_0000_0000_0000;
  }

  predicate IsDigit(c: char) { '0' <= c <= '9' }

  predicate AllDigits(s: string) { forall i :: 0 <= i < |s| ==> IsDigit(s[i]) }

  function DigitChar(d: nat): (c: char)
    requires d < 10
    ensures IsDigit(c) && c as int - '0' as int == d
  {
    ('0' as int + d) as char
  }

  /** Canonical decimal form, as printed by `%d`. */
  function Decimal(n: nat): (s: string)
    ensures |s| >= 1 && AllDigits(s)
  {
    if n < 10 then [DigitChar(n)] else Decimal(n / 10) + [DigitChar(n % 10)]
  }

  function DigitsValue(s: string): nat
    requires AllDigits(s)
  {
    if s == "" then 0
    else DigitsValue(s[..|s| - 1]) * 10 + (s[|s| - 1] as int - '0' as int)
  }

  lemma {:induction false} DecimalRoundTrip(n: nat)
    ensures DigitsValue(Decimal(n)) == n
  {
    if n < 10 {
      assert Decimal(n)[..0] == "";
    } else {
      DecimalRoundTrip(n / 10);
      assert Decimal(n)[..|Decimal(n)| - 1] == Decimal(n / 10);
    }
  }

  lemma DecimalInjective(m: nat, n: nat)
    requires Decimal(m) == Decimal(n)
    ensures m == n
  {
    DecimalRoundTrip(m);
    DecimalRoundTrip(n);
  }

  /** `strconv.ParseInt(s, 10, 64)`: an optional sign, then digits, within the int64 range. */
  function ParseInt64(s: string): Option<int> {
    var signed := s != "" && (s[0] == '+' || s[0] == '-');
    var digits := if signed then s[1..] else s;
    if digits == "" || !AllDigits(digits) then None
    else
      var v: int := if s[0] == '-' then 0 - DigitsValue(digits) else DigitsValue(digits);
      if INT64_MIN <= v <= INT64_MAX then Some(v) else None
  }

  lemma ParsePrinted(n: nat)
    requires n <= INT64_MAX
    ensures ParseInt64(Decimal(n)) == Some(n)
  {
    DecimalRoundTrip(n);
    assert IsDigit(Decimal(n)[0]);
  }

  /** `strings.IndexByte`: the first position of `c`, or -1. */
  function IndexByte(s: string, c: char): (i: int)
    ensures -1 <= i < |s|
    ensures i == -1 <==> c !in s
    ensures i >= 0 ==> s[i] == c && c !in s[..i]
  {
    if s == "" then -1
    else if s[0] == c then 0
    else
      var rest := IndexByte(s[1..], c);
      assert s == [s[0]] + s[1..];
      if rest < 0 then -1 else
        assert s[..rest + 1] == [s[0]] + s[1..][..rest];
        rest + 1
  }

  /** The separator found first is the one printed after text that does not contain it. */
  lemma IndexBytePrinted(before: string, c: char, after: string)
    requires c !in before
    ensures var s := before + [c] + after;
            IndexByte(s, c) == |before| && s[..|before|] == before && s[|before| + 1..] == after
  {
    var s := before + [c] + after;
    assert s[|before|] == c && s[..|before|] == before;
  }

  lemma Suffix<T>(s: seq<T>, i: nat, k: nat)
    requires i + k <= |s|
    ensures s[i..][k..] == s[i + k..]
  {
  }

  /** Cutting a prefix with something else behind it. */
  lemma Graft<T>(s: seq<T>, n: nat, u: seq<T>, k: nat)
    requires k <= n <= |s|
    ensures (s[..n] + u)[..k] == s[..k] && (s[..n] + u)[k..] == s[k..][..n - k] + u
  {
  }

  lemma Assoc<T>(a: seq<T>, b: seq<T>, c: seq<T>)
    ensures (a + b) + c == a + (b + c)
  {
  }

  predicate HasPrefix(s: string, p: string) { p <= s }

  /** ASCII white space, as trimmed by `strings.TrimSpace`. */
  predicate IsSpace(c: char) {
    c == ' ' || c == '\t' || c == '\n' || c == '\r' || c == 11 as char || c == 12 as char
  }

  function TrimLeft(s: string): string {
    if s != "" && IsSpace(s[0]) then TrimLeft(s[1..]) else s
  }

  function TrimRight(s: string): string {
    if s != "" && IsSpace(s[|s| - 1]) then TrimRight(s[..|s| - 1]) else s
  }

  function TrimSpace(s: string): string { TrimRight(TrimLeft(s)) }

  function UpperChar(c: char): char {
    if 'a' <= c <= 'z' then (c as int - 32) as char else c
  }

  /** `strings.ToUpper` on ASCII text. */
  function Upper(s: string): (r: string)
    ensures |r| == |s|
  {
    seq(|s|, i requires 0 <= i < |s| => UpperChar(s[i]))
  }

  predicate IsCapital(c: char) { 'A' <= c <= 'Z' }

  /** The same word in any mixture of cases. */
  predicate SameWord(w: string, up: string) {
    |w| == |up| && forall k :: 0 <= k < |w| ==> w[k] == up[k] || (IsCapital(up[k]) && w[k] as int == up[k] as int + 32)
  }

  /** A word without lower-case letters is the upper case of just the words that are the same but for case. */
  lemma SameWordIff(w: string, up: string)
    requires forall k :: 0 <= k < |up| ==> !('a' <= up[k] <= 'z')
    ensures Upper(w) == up <==> SameWord(w, up)
  {
    forall k | 0 <= k < |w| && |w| == |up|
      ensures UpperChar(w[k]) == up[k] <==> w[k] == up[k] || (IsCapital(up[k]) && w[k] as int == up[k] as int + 32)
    {
    }
    if Upper(w) == up {
      forall k | 0 <= k < |w| ensures UpperChar(w[k]) == up[k] {
        assert Upper(w)[k] == UpperChar(w[k]);
      }
    }
  }

  /** The identifier bytes of both SQL translators. */
  predicate IsIdentByte(c: char) {
    c == '_' || IsDigit(c) || 'a' <= c <= 'z' || 'A' <= c <= 'Z'
  }

  /** `unicode.IsLetter` of one byte taken as a rune, that is, as Latin-1. */
  predicate IsLatin1Letter(c: char) {
    var n := c as int;
    || 'a' <= c <= 'z' || 'A' <= c <= 'Z' || n == 0xAA || n == 0xB5 || n == 0xBA
    || 0xC0 <= n <= 0xD6 || 0xD8 <= n <= 0xF6 || 0xF8 <= n <= 0xFF
  }

  /** `x` stands at position `lo` of `q`. */
  predicate At(q: string, lo: nat, x: string) {
    lo + |x| <= |q| && forall k :: 0 <= k < |x| ==> q[lo + k] == x[k]
  }

  lemma AtSlice(q: string, lo: nat, x: string)
    requires At(q, lo, x)
    ensures q[lo..lo + |x|] == x
  {
  }

  lemma AtSplit(q: string, lo: nat, x: string, y: string)
    requires At(q, lo, x + y)
    ensures At(q, lo, x) && At(q, lo + |x|, y)
  {
    assert forall k :: 0 <= k < |x| ==> (x + y)[k] == x[k];
    assert forall k :: 0 <= k < |y| ==> (x + y)[|x| + k] == y[k];
  }

  lemma AtChar(q: string, lo: nat, x: string, k: nat)
    requires At(q, lo, x) && k < |x|
    ensures q[lo + k] == x[k]
  {
  }
}
