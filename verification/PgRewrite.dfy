/**
 Rewriting PostgreSQL placeholders for SQLite: `$N` becomes `?`, and the order of the parameters
 is remembered. The tokens of a statement are its protected regions, its placeholders and its
 other bytes.
 */
module PgRewrite {
  import opened Text
  import opened PgRegions

  datatype Token = Plain(c: char) | Protected(text: string) | Param(number: nat)

  datatype Tokens = End | Token(head: Token, rest: Tokens)

  function DigitLen(t: string): (n: nat)
    ensures n <= |t| && AllDigits(t[..n])
  {
    if t != "" && IsDigit(t[0]) then
      var n := DigitLen(t[1..]);
      assert t[..n + 1] == [t[0]] + t[1..][..n];
      n + 1
    else 0
  }

  predicate StartsParam(t: string) { |t| > 1 && t[0] == '$' && IsDigit(t[1]) }

  function HeadLen(t: string): (n: nat)
    requires t != ""
    ensures 0 < n <= |t|
  {
    if RegionLen(t) > 0 then RegionLen(t)
    else if StartsParam(t) then 1 + DigitLen(t[1..])
    else 1
  }

  function Head(t: string): Token
    requires t != ""
  {
    if RegionLen(t) > 0 then Protected(t[..RegionLen(t)])
    else if StartsParam(t) then Param(DigitsValue(t[1..][..DigitLen(t[1..])]))
    else Plain(t[0])
  }

  function Lex(t: string): Tokens
    decreases |t|, 1
  {
    if t == "" then End else LexHead(t)
  }

  function LexHead(t: string): Tokens
    requires t != ""
    decreases |t|, 0
  {
    Token(Head(t), Lex(t[HeadLen(t)..]))
  }

  lemma LexStep(t: string)
    requires t != ""
    ensures Lex(t) == Token(Head(t), Lex(t[HeadLen(t)..]))
  {
    assert Lex(t) == LexHead(t);
  }

  function Spell(h: Token): string {
    match h
    case Plain(c) => [c]
    case Protected(text) => text
    case Param(_) => "?"
  }

  function Render(ts: Tokens): string {
    match ts
    case End => ""
    case Token(head, rest) => Spell(head) + Render(rest)
  }

  function Order(ts: Tokens): seq<int> {
    match ts
    case End => []
    case Token(head, rest) => ParamOf(head) + Order(rest)
  }

  /** The number as the loop accumulates it, in a Go int. */
  function ParamOf(h: Token): seq<int> { if h.Param? then [Wrap64(h.number)] else [] }

  /** The numbers written behind `$`, in the order of the text. */
  function Written(ts: Tokens): seq<nat> {
    match ts
    case End => []
    case Token(head, rest) => (if head.Param? then [head.number] else []) + Written(rest)
  }

  lemma {:induction false} OrderWraps(ts: Tokens)
    ensures |Order(ts)| == |Written(ts)| && forall i :: 0 <= i < |Order(ts)| ==> Order(ts)[i] == Wrap64(Written(ts)[i])
  {
    if ts.Token? {
      OrderWraps(ts.rest);
    }
  }

  // ---- The source's loop ---------------------------------------------------------------

  method SkipDigits(s: string, i: nat) returns (j: nat)
    requires i <= |s|
    ensures i <= j <= |s| && j == i + DigitLen(s[i..])
  {
    j := i;
    while j < |s| && '0' <= s[j] <= '9'
      invariant i <= j <= |s| && j + DigitLen(s[j..]) == i + DigitLen(s[i..])
    {
      assert s[j..][1..] == s[j + 1..];
      j := j + 1;
    }
  }

  method ReadNumber(digits: string) returns (n: int)
    requires AllDigits(digits)
    ensures n == Wrap64(DigitsValue(digits))
  {
    n := 0;
    var k := 0;
    while k < |digits|
      invariant 0 <= k <= |digits| && n == Wrap64(DigitsValue(digits[..k]))
    {
      assert digits[..k + 1][..k] == digits[..k];
      WrapStep(DigitsValue(digits[..k]), digits[k] as int - '0' as int);
      n := Wrap64(n * 10 + (digits[k] as int - '0' as int));
      k := k + 1;
    }
    assert digits[..k] == digits;
  }

  /** One turn of rewriteSQL's loop: what it writes, what it adds to the order, where it goes on. */
  method NextToken(s: string, i: nat) returns (text: string, param: seq<int>, j: nat)
    requires i < |s|
    ensures i < j <= |s| && j == i + HeadLen(s[i..])
    ensures text == Spell(Head(s[i..])) && param == ParamOf(Head(s[i..]))
  {
    ghost var t := s[i..];
    j := SkipRegion(s, i);
    if j > i {
      assert t[..j - i] == s[i..j];
      return s[i..j], [], j;
    }
    if s[i] == '$' && i + 1 < |s| && '0' <= s[i + 1] <= '9' {
      assert t[1..] == s[i + 1..];
      j := SkipDigits(s, i + 1);
      assert t[1..][..j - i - 1] == s[i + 1..j];
      var n := ReadNumber(s[i + 1..j]);
      return "?", [n], j;
    }
    return [s[i]], [], i + 1;
  }

  /** The loop's state after it has run to the end from `out`, `order` and the rest `t`. */
  function Finish(out: string, order: seq<int>, t: string): (string, seq<int>)
    decreases |t|
  {
    if t == "" then (out, order)
    else Finish(out + Spell(Head(t)), order + ParamOf(Head(t)), t[HeadLen(t)..])
  }

  lemma FinishStep(out: string, order: seq<int>, t: string, h: Token, rest: string)
    requires t != "" && h == Head(t) && rest == t[HeadLen(t)..]
    ensures Finish(out, order, t) == Finish(out + Spell(h), order + ParamOf(h), rest)
  {
  }

  lemma {:induction false} FinishIs(out: string, order: seq<int>, t: string)
    ensures Finish(out, order, t) == (out + Render(Lex(t)), order + Order(Lex(t)))
    decreases |t|
  {
    if t == "" {
      assert out + "" == out && order + [] == order;
    } else {
      var h, n := Head(t), HeadLen(t);
      FinishStep(out, order, t, h, t[n..]);
      LexStep(t);
      FinishIs(out + Spell(h), order + ParamOf(h), t[n..]);
      Assoc(out, Spell(h), Render(Lex(t[n..])));
      Assoc(order, ParamOf(h), Order(Lex(t[n..])));
    }
  }

  /** rewriteSQL. */
  method RewriteSQL(s: string) returns (out: string, order: seq<int>)
    ensures out == Render(Lex(s)) && order == Order(Lex(s))
  {
    out, order := "", [];
    var i := 0;
    assert s[0..] == s;
    while i < |s|
      invariant 0 <= i <= |s| && Finish("", [], s) == Finish(out, order, s[i..])
    {
      var text, param, j := NextToken(s, i);
      Suffix(s, i, j - i);
      FinishStep(out, order, s[i..], Head(s[i..]), s[j..]);
      out, order, i := out + text, order + param, j;
    }
    FinishIs("", [], s);
  }

  // ---- The rewritten text lexes the same way ----------------------------------------------

  function Rewritten(s: string): string { Render(Lex(s)) }

  lemma RewrittenStep(s: string)
    requires s != ""
    ensures Rewritten(s) == Spell(Head(s)) + Rewritten(s[HeadLen(s)..])
  {
    LexStep(s);
  }

  /** Rewriting keeps the first byte, except that a placeholder's becomes `?`. */
  lemma RewrittenHead(s: string)
    requires s != ""
    ensures Rewritten(s) != ""
    ensures Rewritten(s)[0] == s[0] || (s[0] == '$' && Rewritten(s)[0] == '?')
  {
    RewrittenStep(s);
  }

  predicate Terminated(t: string, q: char) {
    t != "" &&
    if t[0] != q then Terminated(t[1..], q)
    else if |t| > 1 && t[1] == q then Terminated(t[2..], q)
    else true
  }

  /** An unterminated region runs to the end; a terminated one is not followed by its quote. */
  lemma {:induction false} InnerEnds(t: string, q: char)
    ensures !Terminated(t, q) ==> InnerLen(t, q) == |t|
    ensures Terminated(t, q) && InnerLen(t, q) < |t| ==> t[InnerLen(t, q)] != q
  {
    if t != "" && t[0] != q {
      InnerEnds(t[1..], q);
    } else if |t| > 1 && t[1] == q {
      InnerEnds(t[2..], q);
    }
  }

  /** What follows a terminated region does not change it. */
  lemma InnerStep(t: string, q: char)
    requires t != ""
    ensures t[0] != q ==> InnerLen(t, q) == 1 + InnerLen(t[1..], q)
    ensures t[0] == q && |t| > 1 && t[1] == q ==> InnerLen(t, q) == 2 + InnerLen(t[2..], q)
    ensures t[0] == q && !(|t| > 1 && t[1] == q) ==> InnerLen(t, q) == 1
  {
  }

  lemma {:induction false} InnerStable(t: string, q: char, u: string)
    requires Terminated(t, q) && (u == "" || u[0] != q)
    ensures InnerLen(t[..InnerLen(t, q)] + u, q) == InnerLen(t, q)
  {
    var v := t[..InnerLen(t, q)] + u;
    InnerHead(q, t);
    InnerStep(t, q);
    InnerStep(v, q);
    if t[0] != q {
      InnerStable(t[1..], q, u);
      assert v[1..] == t[1..][..InnerLen(t[1..], q)] + u;
    } else if |t| > 1 && t[1] == q {
      InnerStable(t[2..], q, u);
      assert v[2..] == t[2..][..InnerLen(t[2..], q)] + u;
    }
  }

  lemma QuotedStable(s: string, q: char, u: string)
    requires s != "" && s[0] == q
    requires u == "" || u[0] != q
    requires !Terminated(s[1..], q) ==> u == ""
    ensures var n := QuotedLen(s, q); QuotedLen(s[..n] + u, q) == n
  {
    var n := QuotedLen(s, q);
    InnerEnds(s[1..], q);
    if Terminated(s[1..], q) {
      InnerStable(s[1..], q, u);
      assert (s[..n] + u)[1..] == s[1..][..n - 1] + u;
    } else {
      assert s[..n] + u == s;
    }
  }

  lemma {:induction false} IdentStable(t: string, u: string)
    requires IdentLen(t) < |t| && IdentLen(t) < |u| && u[..IdentLen(t) + 1] == t[..IdentLen(t) + 1]
    ensures IdentLen(u) == IdentLen(t)
  {
    assert u[0] == u[..IdentLen(t) + 1][0] == t[0];
    if IsIdentByte(t[0]) {
      var n := IdentLen(t[1..]);
      assert u[1..][..n + 1] == u[..n + 2][1..] == t[..n + 2][1..] == t[1..][..n + 1];
      IdentStable(t[1..], u[1..]);
    }
  }

  lemma {:induction false} FindStable(t: string, d: string, u: string)
    requires Find(t, d).Some? && t[..Find(t, d).value + |d|] <= u
    ensures Find(u, d) == Find(t, d)
  {
    var n := Find(t, d).value + |d|;
    assert t[..|d|] == u[..|d|] by { assert t[..n][..|d|] == t[..|d|] && u[..n][..|d|] == u[..|d|]; }
    if !(d <= t) {
      assert t[1..][..n - 1] == t[..n][1..] && u[1..][..n - 1] == u[..n][1..];
      FindStable(t[1..], d, u[1..]);
    }
  }

  lemma TagStable(s: string, v: string)
    requires TagLen(s) > 0 && TagLen(s) <= |v| && v[..TagLen(s)] == s[..TagLen(s)]
    ensures TagLen(v) == TagLen(s)
  {
    var k := TagLen(s);
    assert v[0] == v[..k][0] && v[k - 1] == v[..k][k - 1] && s[0] == s[..k][0] && s[k - 1] == s[..k][k - 1];
    assert v[1..][..k - 1] == v[..k][1..] && s[1..][..k - 1] == s[..k][1..];
    IdentStable(s[1..], v[1..]);
  }

  lemma DollarLenStable(s: string, v: string, k: nat)
    requires k <= |s| && k <= |v| && v[..k] == s[..k] && Find(s[k..], s[..k]).Some?
    requires s[k..][..DollarLen(s, k) - k] <= v[k..]
    ensures DollarLen(v, k) == DollarLen(s, k)
  {
    FindStable(s[k..], s[..k], v[k..]);
  }

  lemma DollarStable(s: string, u: string, k: nat, n: nat)
    requires k == TagLen(s) > 0 && n == DollarLen(s, k) && (Find(s[k..], s[..k]).None? ==> u == "")
    ensures TagLen(s[..n] + u) == k && DollarLen(s[..n] + u, k) == n
  {
    var v := s[..n] + u;
    if Find(s[k..], s[..k]).None? {
      assert v == s;
    } else {
      Graft(s, n, u, k);
      TagStable(s, v);
      DollarLenStable(s, v, k);
    }
  }

  /** After a '$' that opens nothing, the rewritten text still opens nothing. */
  lemma {:induction false} IdentRunKept(s: string)
    ensures var r := Rewritten(s);
            IdentLen(r) == IdentLen(s) &&
            (IdentLen(r) < |r| && r[IdentLen(r)] == '$' ==> IdentLen(s) < |s| && s[IdentLen(s)] == '$')
  {
    if s != "" {
      RewrittenHead(s);
      RewrittenStep(s);
      if IsIdentByte(s[0]) {
        IdentRunKept(s[1..]);
        assert Rewritten(s)[1..] == Rewritten(s[1..]);
      }
    }
  }

  function Slotted(ts: Tokens): Tokens {
    match ts
    case End => End
    case Token(head, rest) => Token(if head.Param? then Plain('?') else head, Slotted(rest))
  }

  lemma RegionStable(s: string, u: string)
    requires s != "" && RegionLen(s) > 0
    requires RegionLen(s) == |s| ==> u == ""
    requires u != "" ==> RegionLen(s) < |s| && (u[0] == s[RegionLen(s)] || (s[RegionLen(s)] == '$' && u[0] == '?'))
    ensures RegionLen(s[..RegionLen(s)] + u) == RegionLen(s)
  {
    var n := RegionLen(s);
    assert (s[..n] + u)[0] == s[0];
    if s[0] == '\'' || s[0] == '"' {
      InnerEnds(s[1..], s[0]);
      QuotedStable(s, s[0], u);
    } else {
      DollarStable(s, u, TagLen(s), n);
    }
  }

  /** Lexing the rewritten text finds the same regions and one `?` slot per placeholder. */
  lemma {:induction false} RewrittenLexes(s: string)
    ensures Lex(Rewritten(s)) == Slotted(Lex(s))
    decreases |s|
  {
    if s != "" {
      var n, rest := HeadLen(s), s[HeadLen(s)..];
      var u, r := Rewritten(rest), Rewritten(s);
      RewrittenLexes(rest);
      RewrittenStep(s);
      LexStep(s);
      if rest != "" {
        RewrittenHead(rest);
      }
      assert r == Spell(Head(s)) + u && r[|Spell(Head(s))|..] == u;
      LexStep(r);
      if Head(s).Protected? {
        RegionStable(s, u);
        assert r[..n] == s[..n];
      } else if Head(s).Plain? && s[0] == '$' {
        IdentRunKept(rest);
        assert r[1..] == u && s[1..] == rest;
      }
    }
  }
}
