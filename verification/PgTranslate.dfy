/**
 The other two passes of the PostgreSQL translator, parameter expansion at Execute, and what the
 translated statement means.
 */
module PgTranslate {
  import opened Text
  import opened PgRegions
  import opened PgRewrite

  // ---- stripCasts ------------------------------------------------------------------------

  /** Everything eaten after `::`: identifier bytes and spaces. */
  function CastLen(t: string): (n: nat)
    ensures n <= |t|
  {
    if t != "" && (IsIdentByte(t[0]) || t[0] == ' ') then 1 + CastLen(t[1..]) else 0
  }

  predicate AtCast(t: string) { |t| > 1 && t[0] == ':' && t[1] == ':' }

  predicate AtQuote(t: string) { t != "" && (t[0] == '\'' || t[0] == '"') }

  function StripLen(t: string): (n: nat)
    requires t != ""
    ensures 0 < n <= |t|
  {
    if AtCast(t) then 2 + CastLen(t[2..]) else if AtQuote(t) then QuotedLen(t, t[0]) else 1
  }

  function StripText(t: string): string
    requires t != ""
  {
    if AtCast(t) then "" else t[..StripLen(t)]
  }

  function StripCasts(t: string): string
    decreases |t|
  {
    if t == "" then "" else StripText(t) + StripCasts(t[StripLen(t)..])
  }

  method SkipCast(s: string, i: nat) returns (j: nat)
    requires i <= |s|
    ensures i <= j <= |s| && j == i + CastLen(s[i..])
  {
    j := i;
    while j < |s| && (IsIdentByte(s[j]) || s[j] == ' ')
      invariant i <= j <= |s| && j + CastLen(s[j..]) == i + CastLen(s[i..])
    {
      assert s[j..][1..] == s[j + 1..];
      j := j + 1;
    }
  }

  function FinishStrip(out: string, t: string): string
    decreases |t|
  {
    if t == "" then out else FinishStrip(out + StripText(t), t[StripLen(t)..])
  }

  lemma StripStep(out: string, t: string, rest: string)
    requires t != "" && rest == t[StripLen(t)..]
    ensures FinishStrip(out, t) == FinishStrip(out + StripText(t), rest)
  {
  }

  lemma {:induction false} FinishStripIs(out: string, t: string)
    ensures FinishStrip(out, t) == out + StripCasts(t)
    decreases |t|
  {
    if t == "" {
      assert out + "" == out;
    } else {
      FinishStripIs(out + StripText(t), t[StripLen(t)..]);
      Assoc(out, StripText(t), StripCasts(t[StripLen(t)..]));
    }
  }

  /** One turn of stripCasts' loop. */
  method NextStrip(s: string, i: nat) returns (piece: string, j: nat)
    requires i < |s|
    ensures i < j <= |s| && j == i + StripLen(s[i..]) && piece == StripText(s[i..])
  {
    ghost var t := s[i..];
    if i + 1 < |s| && s[i] == ':' && s[i + 1] == ':' {
      assert t[2..] == s[i + 2..];
      j := SkipCast(s, i + 2);
      return "", j;
    }
    j := i + 1;
    if s[i] == '\'' || s[i] == '"' {
      j := SkipQuoted(s, i, s[i]);
    }
    assert t[..j - i] == s[i..j];
    piece := s[i..j];
  }

  /** stripCasts. */
  method StripCastsLoop(s: string) returns (out: string)
    ensures out == StripCasts(s)
  {
    out := "";
    var i := 0;
    assert s[0..] == s;
    while i < |s|
      invariant 0 <= i <= |s| && FinishStrip("", s) == FinishStrip(out, s[i..])
    {
      var piece, j := NextStrip(s, i);
      Suffix(s, i, j - i);
      StripStep(out, s[i..], s[j..]);
      out, i := out + piece, j;
    }
    FinishStripIs("", s);
  }

  // ---- replaceKeywords ---------------------------------------------------------------------

  const KEYWORDS: map<string, string> := map[
    "BIGSERIAL" := "INTEGER PRIMARY KEY AUTOINCREMENT",
    "SERIAL" := "INTEGER PRIMARY KEY AUTOINCREMENT",
    "BYTEA" := "BLOB",
    "BOOLEAN" := "BOOLEAN"]

  predicate WordStart(prev: Option<char>, c: char) {
    IsIdentByte(c) && !IsDigit(c) &&
    (prev.Some? ==> !IsLatin1Letter(prev.value) && !IsDigit(prev.value) && prev.value != '_')
  }

  function Substitute(word: string): string {
    if Upper(word) in KEYWORDS then KEYWORDS[Upper(word)] else word
  }

  /** How far one turn of the loop goes, and what it writes. */
  function StepLen(prev: Option<char>, t: string): (n: nat)
    requires t != ""
    ensures 0 < n <= |t|
  {
    if AtQuote(t) then QuotedLen(t, t[0])
    else if WordStart(prev, t[0]) then IdentLen(t)
    else 1
  }

  function StepText(prev: Option<char>, t: string): string
    requires t != ""
  {
    var piece := t[..StepLen(prev, t)];
    if !AtQuote(t) && WordStart(prev, t[0]) then Substitute(piece) else piece
  }

  function Replace(prev: Option<char>, t: string): string
    decreases |t|
  {
    if t == "" then ""
    else
      var n := StepLen(prev, t);
      StepText(prev, t) + Replace(Some(t[n - 1]), t[n..])
  }

  function Before(s: string, i: nat): Option<char>
    requires i <= |s|
  {
    if i == 0 then None else Some(s[i - 1])
  }

  function FinishReplace(out: string, prev: Option<char>, t: string): string
    decreases |t|
  {
    if t == "" then out
    else FinishReplace(out + StepText(prev, t), Some(t[StepLen(prev, t) - 1]), t[StepLen(prev, t)..])
  }

  lemma ReplaceStep(out: string, prev: Option<char>, t: string, next: Option<char>, rest: string)
    requires t != "" && rest == t[StepLen(prev, t)..] && next == Some(t[StepLen(prev, t) - 1])
    ensures FinishReplace(out, prev, t) == FinishReplace(out + StepText(prev, t), next, rest)
  {
  }

  lemma {:induction false} FinishReplaceIs(out: string, prev: Option<char>, t: string)
    ensures FinishReplace(out, prev, t) == out + Replace(prev, t)
    decreases |t|
  {
    if t == "" {
      assert out + "" == out;
    } else {
      var n, text := StepLen(prev, t), StepText(prev, t);
      FinishReplaceIs(out + text, Some(t[n - 1]), t[n..]);
      Assoc(out, text, Replace(Some(t[n - 1]), t[n..]));
    }
  }

  /** One turn of replaceKeywords' loop. */
  method NextPiece(s: string, i: nat) returns (piece: string, j: nat)
    requires i < |s|
    ensures i < j <= |s| && j == i + StepLen(Before(s, i), s[i..]) && piece == StepText(Before(s, i), s[i..])
  {
    ghost var t := s[i..];
    if s[i] == '\'' || s[i] == '"' {
      j := SkipQuoted(s, i, s[i]);
      piece := s[i..j];
    } else if WordStart(Before(s, i), s[i]) {
      j := SkipIdent(s, i);
      piece := Substitute(s[i..j]);
    } else {
      j, piece := i + 1, s[i..i + 1];
    }
    assert t[..j - i] == s[i..j];
  }

  lemma PieceStep(s: string, i: nat, j: nat, out: string, piece: string)
    requires i < |s| && j == i + StepLen(Before(s, i), s[i..]) && piece == StepText(Before(s, i), s[i..])
    ensures i < j <= |s| && FinishReplace(out, Before(s, i), s[i..]) == FinishReplace(out + piece, Before(s, j), s[j..])
  {
    Suffix(s, i, j - i);
    ReplaceStep(out, Before(s, i), s[i..], Before(s, j), s[j..]);
  }

  /** replaceKeywords. */
  method ReplaceKeywords(s: string) returns (out: string)
    ensures out == Replace(None, s)
  {
    out := "";
    var i := 0;
    assert s[0..] == s;
    while i < |s|
      invariant 0 <= i <= |s| && FinishReplace("", None, s) == FinishReplace(out, Before(s, i), s[i..])
    {
      var piece, j := NextPiece(s, i);
      PieceStep(s, i, j, out, piece);
      out, i := out + piece, j;
    }
    FinishReplaceIs("", None, s);
  }

  // ---- Every slot is accounted for -----------------------------------------------------------

  function Slots(s: string): nat {
    if s == "" then 0 else Slots(s[..|s| - 1]) + if s[|s| - 1] == '?' then 1 else 0
  }

  lemma {:induction false} SlotsConcat(a: string, b: string)
    ensures Slots(a + b) == Slots(a) + Slots(b)
  {
    if b == "" {
      assert a + b == a;
    } else {
      assert (a + b)[..|a + b| - 1] == a + b[..|b| - 1];
      SlotsConcat(a, b[..|b| - 1]);
    }
  }

  lemma SlotsSplit(t: string, n: nat)
    requires n <= |t|
    ensures Slots(t) == Slots(t[..n]) + Slots(t[n..])
  {
    assert t == t[..n] + t[n..];
    SlotsConcat(t[..n], t[n..]);
  }

  lemma {:induction false} NoSlots(s: string)
    requires '?' !in s
    ensures Slots(s) == 0
  {
    if s != "" {
      NoSlots(s[..|s| - 1]);
    }
  }

  lemma OneSlot()
    ensures Slots("?") == 1
  {
    assert "?"[..0] == "";
  }

  lemma HeadSlots(s: string)
    requires s != ""
    ensures Slots(Spell(Head(s))) == Slots(s[..HeadLen(s)]) + |ParamOf(Head(s))|
  {
    var n, h := HeadLen(s), Head(s);
    if h.Param? {
      assert s[..n] == "$" + s[1..][..n - 1];
      NoSlots(s[..n]);
      OneSlot();
    } else if h.Plain? {
      assert s[..1] == [s[0]];
    }
  }

  /** The first pass turns each placeholder into one slot and keeps all literal ones. */
  lemma {:induction false} RewriteSlots(s: string)
    ensures Slots(Rewritten(s)) == Slots(s) + |Order(Lex(s))|
    decreases |s|
  {
    if s != "" {
      var n, h := HeadLen(s), Head(s);
      RewriteSlots(s[n..]);
      RewrittenStep(s);
      LexStep(s);
      HeadSlots(s);
      SlotsConcat(Spell(h), Rewritten(s[n..]));
      SlotsSplit(s, n);
    }
  }

  lemma {:induction false} CastHasNoSlot(t: string)
    ensures '?' !in t[..CastLen(t)]
  {
    if CastLen(t) > 0 {
      CastHasNoSlot(t[1..]);
      assert t[..CastLen(t)] == [t[0]] + t[1..][..CastLen(t) - 1];
    }
  }

  lemma StripTextSlots(t: string)
    requires t != ""
    ensures Slots(StripText(t)) == Slots(t[..StripLen(t)])
  {
    if AtCast(t) {
      var n := StripLen(t);
      CastHasNoSlot(t[2..]);
      assert t[..n] == "::" + t[2..][..n - 2];
      NoSlots(t[..n]);
    }
  }

  lemma {:induction false} StripCastsSlots(t: string)
    ensures Slots(StripCasts(t)) == Slots(t)
    decreases |t|
  {
    if t != "" {
      var n := StripLen(t);
      StripCastsSlots(t[n..]);
      SlotsSplit(t, n);
      SlotsConcat(StripText(t), StripCasts(t[n..]));
      StripTextSlots(t);
    }
  }

  lemma {:induction false} IdentHasNoSlot(t: string)
    ensures '?' !in t[..IdentLen(t)]
  {
    if IdentLen(t) > 0 {
      IdentHasNoSlot(t[1..]);
      assert t[..IdentLen(t)] == [t[0]] + t[1..][..IdentLen(t) - 1];
    }
  }

  lemma SubstituteHasNoSlot(word: string)
    requires '?' !in word
    ensures '?' !in Substitute(word)
  {
  }

  lemma StepTextSlots(prev: Option<char>, t: string)
    requires t != ""
    ensures Slots(StepText(prev, t)) == Slots(t[..StepLen(prev, t)])
  {
    if !AtQuote(t) && WordStart(prev, t[0]) {
      var word := t[..IdentLen(t)];
      IdentHasNoSlot(t);
      NoSlots(word);
      SubstituteHasNoSlot(word);
      NoSlots(Substitute(word));
    }
  }

  lemma {:induction false} ReplaceSlots(prev: Option<char>, t: string)
    ensures Slots(Replace(prev, t)) == Slots(t)
    decreases |t|
  {
    if t != "" {
      var n := StepLen(prev, t);
      ReplaceSlots(Some(t[n - 1]), t[n..]);
      SlotsSplit(t, n);
      SlotsConcat(StepText(prev, t), Replace(Some(t[n - 1]), t[n..]));
      StepTextSlots(prev, t);
    }
  }

  function Translated(s: string): string { Replace(None, StripCasts(Rewritten(s))) }

  /** translate: the three passes in order. */
  method Translate(s: string) returns (out: string, order: seq<int>)
    ensures out == Translated(s) && order == Order(Lex(s))
    ensures Slots(out) == Slots(s) + |order|
  {
    out, order := RewriteSQL(s);
    RewriteSlots(s);
    StripCastsSlots(out);
    ReplaceSlots(None, StripCasts(out));
    out := StripCastsLoop(out);
    out := ReplaceKeywords(out);
  }

  // ---- Parameters keep their meaning ------------------------------------------------------------

  /** The statement with each `$N` replaced by parameter `N`, for the `N` written. */
  function Fill(ts: Tokens, values: seq<string>): string {
    match ts
    case End => ""
    case Token(Param(n), rest) => (if 1 <= n <= |values| then values[n - 1] else "") + Fill(rest, values)
    case Token(head, rest) => Spell(head) + Fill(rest, values)
  }

  /** The statement with its `?` slots replaced by the arguments in turn. */
  function FillSlots(ts: Tokens, args: seq<string>): string {
    match ts
    case End => ""
    case Token(head, rest) =>
      if head == Plain('?') && args != [] then args[0] + FillSlots(rest, args[1..])
      else Spell(head) + FillSlots(rest, args)
  }

  predicate NoLiteralSlot(ts: Tokens) {
    ts.Token? ==> ts.head != Plain('?') && NoLiteralSlot(ts.rest)
  }

  /** handleExecute's expansion; `None` is the out-of-range error. */
  function Expand(order: seq<int>, decoded: seq<string>): Option<seq<string>> {
    if order == [] then Some(decoded)
    else if !InRange(order, |decoded|) then None
    else Some(Pick(order, decoded))
  }

  predicate InRange(order: seq<int>, n: nat) { forall i :: 0 <= i < |order| ==> 1 <= order[i] <= n }

  function Pick(order: seq<int>, decoded: seq<string>): (r: seq<string>)
    requires InRange(order, |decoded|)
    ensures |r| == |order|
  {
    seq(|order|, i requires 0 <= i < |order| => decoded[order[i] - 1])
  }

  method ExpandArgs(paramOrder: seq<int>, decoded: seq<string>) returns (args: Option<seq<string>>)
    ensures args == Expand(paramOrder, decoded)
  {
    var order := paramOrder;
    if |order| == 0 {
      var k := 0;
      while k < |decoded|
        invariant 0 <= k == |order| <= |decoded|
        invariant forall i :: 0 <= i < k ==> order[i] == i + 1
      {
        order := order + [k + 1];
        k := k + 1;
      }
    }
    var picked: seq<string> := [];
    var i := 0;
    while i < |order|
      invariant 0 <= i == |picked| <= |order| && InRange(order[..i], |decoded|)
      invariant forall k :: 0 <= k < i ==> picked[k] == decoded[order[k] - 1]
    {
      if order[i] < 1 || order[i] > |decoded| {
        return None;
      }
      picked := picked + [decoded[order[i] - 1]];
      i := i + 1;
    }
    assert paramOrder == [] ==> picked == decoded;
    assert order[..i] == order;
    assert paramOrder != [] ==> picked == Pick(order, decoded);
    return Some(picked);
  }

  lemma FitsUnwrapped(ts: Tokens, n: nat)
    requires InRange(Written(ts), n) && n <= INT64_MAX
    ensures Order(ts) == Written(ts)
  {
    OrderWraps(ts);
  }

  lemma PickMore(order: seq<int>, values: seq<string>, more: seq<string>)
    requires order != [] && InRange(order, |values|)
    ensures InRange(order[1..], |values|)
    ensures (Pick(order, values) + more)[0] == values[order[0] - 1]
    ensures (Pick(order, values) + more)[1..] == Pick(order[1..], values) + more
  {
  }

  lemma {:induction false} FillSlotted(ts: Tokens, values: seq<string>, more: seq<string>)
    requires NoLiteralSlot(ts) && InRange(Written(ts), |values|)
    ensures FillSlots(Slotted(ts), Pick(Written(ts), values) + more) == Fill(ts, values)
  {
    if ts.Token? {
      if ts.head.Param? {
        assert Written(ts)[0] == ts.head.number && Written(ts)[1..] == Written(ts.rest);
        PickMore(Written(ts), values, more);
      } else {
        assert Written(ts) == Written(ts.rest);
      }
      FillSlotted(ts.rest, values, more);
    }
  }

  /** Every number passes the range check once it has wrapped, and one of them did wrap. */
  predicate Wraps(ts: Tokens, n: nat) {
    InRange(Order(ts), n) && exists i :: 0 <= i < |Written(ts)| && Written(ts)[i] > INT64_MAX
  }

  lemma RangeIff(ts: Tokens, n: nat)
    requires n <= INT64_MAX
    ensures InRange(Order(ts), n) <==> InRange(Written(ts), n) || Wraps(ts, n)
  {
    OrderWraps(ts);
    if InRange(Order(ts), n) && !Wraps(ts, n) {
      forall i | 0 <= i < |Written(ts)| ensures 1 <= Written(ts)[i] <= n {
        assert Written(ts)[i] <= INT64_MAX;
      }
    }
  }

  /** Binding: when every `N` written has a value, filling the slots of the rewritten statement with
      handleExecute's arguments gives the statement with every `$N` replaced by parameter `N`, repeated
      numbers included. When one has none, that is reported unless a number wrapped into range. */
  lemma ParametersKeepMeaning(s: string, values: seq<string>)
    requires NoLiteralSlot(Lex(s)) && |values| <= INT64_MAX
    ensures var args := Expand(Order(Lex(s)), values);
            && (args.Some? <==> InRange(Written(Lex(s)), |values|) || Wraps(Lex(s), |values|))
            && (InRange(Written(Lex(s)), |values|) ==> FillSlots(Lex(Rewritten(s)), args.value) == Fill(Lex(s), values))
  {
    var ts := Lex(s);
    RewrittenLexes(s);
    RangeIff(ts, |values|);
    if InRange(Written(ts), |values|) {
      FitsUnwrapped(ts, |values|);
      FillSlotted(ts, values, []);
      FillSlotted(ts, values, values);
      var picked := Pick(Written(ts), values);
      assert picked + [] == picked;
      assert Order(ts) == [] ==> picked == [] && picked + values == values;
    }
  }

  /** The slots of a statement outside protected regions. */
  function OpenSlots(ts: Tokens): nat {
    match ts
    case End => 0
    case Token(head, rest) => (if head == Plain('?') then 1 else 0) + OpenSlots(rest)
  }

  lemma {:induction false} SlottedCount(ts: Tokens)
    ensures OpenSlots(Slotted(ts)) == OpenSlots(ts) + |Order(ts)| && (OpenSlots(ts) == 0 <==> NoLiteralSlot(ts))
  {
    if ts.Token? {
      SlottedCount(ts.rest);
    }
  }

  /** The rewritten statement has as many slots outside protected regions as the order has entries if
      and only if the original holds no literal `?` there. */
  lemma SlotsMatchOrderIff(s: string)
    ensures OpenSlots(Lex(Rewritten(s))) == |Order(Lex(s))| <==> NoLiteralSlot(Lex(s))
  {
    RewrittenLexes(s);
    SlottedCount(Lex(s));
  }

  /** A placeholder is read as the number written, and counted as that number wrapped. */
  lemma PlaceholderIsRead(n: nat)
    ensures var ts := Lex("$" + Decimal(n));
            Written(ts) == [n] && Order(ts) == [Wrap64(n)] && NoLiteralSlot(ts)
  {
    var s := "$" + Decimal(n);
    assert s[1..] == Decimal(n);
    DigitsRun(Decimal(n));
    DecimalRoundTrip(n);
    assert IsDigit(Decimal(n)[0]);
    assert RegionLen(s) == 0;
    assert s[HeadLen(s)..] == "";
    assert Decimal(n)[..|Decimal(n)|] == Decimal(n);
    LexStep(s);
    assert Lex(s) == Token(Param(n), Lex(""));
  }

  lemma {:induction false} DigitsRun(t: string)
    requires AllDigits(t)
    ensures DigitLen(t) == |t|
  {
    if t != "" {
      DigitsRun(t[1..]);
    }
  }

  lemma ExpandOne(w: int, values: seq<string>)
    ensures Expand([w], values) == if 1 <= w <= |values| then Some([values[w - 1]]) else None
  {
    assert [w][0] == w;
    if 1 <= w <= |values| {
      assert Pick([w], values) == [values[w - 1]];
    }
  }

  lemma WrapsAround(n: nat)
    ensures n == 0x1_0000_0000_0000_0001 ==> Wrap64(n) == 1
    ensures n == 0x1_0000_0000_0000_0000 ==> Wrap64(n) == 0
  {
  }

  /** A statement that is one placeholder gets the value of the wrapped number: with `n` one more than
      2^64, `$18446744073709551617` is taken for `$1`, and 2^64 itself is out of range whatever is bound. */
  lemma PlaceholderBinds(n: nat, values: seq<string>)
    ensures Expand(Order(Lex("$" + Decimal(n))), values) ==
            if 1 <= Wrap64(n) <= |values| then Some([values[Wrap64(n) - 1]]) else None
    ensures n == 0x1_0000_0000_0000_0001 ==> Wrap64(n) == 1
    ensures n == 0x1_0000_0000_0000_0000 ==> Wrap64(n) == 0
  {
    var w, order := Wrap64(n), Order(Lex("$" + Decimal(n)));
    assert order == [w] by {
      PlaceholderIsRead(n);
    }
    ExpandOne(w, values);
    WrapsAround(n);
  }

  /** How many parameters a Describe announces: the largest number used, or more if declared. */
  function Announced(order: seq<int>, declared: nat): (n: nat)
    ensures n >= declared
  {
    if order == [] then declared
    else
      var n, last := Announced(order[..|order| - 1], declared), order[|order| - 1];
      if last > n then last else n
  }

  lemma {:induction false} AnnouncedCovers(order: seq<int>, declared: nat, i: nat)
    requires i < |order|
    ensures order[i] <= Announced(order, declared)
  {
    if i < |order| - 1 {
      AnnouncedCovers(order[..|order| - 1], declared, i);
    }
  }

  lemma {:induction false} AnnouncedIsMax(order: seq<int>, m: nat, n: nat)
    ensures Announced(order, if m > n then m else n) == if Announced(order, m) > n then Announced(order, m) else n
  {
    if order != [] {
      AnnouncedIsMax(order[..|order| - 1], m, n);
    }
  }

  /** inferParamOIDs: one OID per announced parameter, undeclared ones zero. */
  method InferParamOIDs(order: seq<int>, declared: seq<int>) returns (oids: seq<int>)
    ensures |oids| == Announced(order, |declared|)
    ensures forall i :: 0 <= i < |oids| ==> oids[i] == if i < |declared| then declared[i] else 0
  {
    var count := 0;
    var k := 0;
    while k < |order|
      invariant 0 <= k <= |order| && 0 <= count == Announced(order[..k], 0)
    {
      assert order[..k + 1][..k] == order[..k];
      if order[k] > count {
        count := order[k];
      }
      k := k + 1;
    }
    assert order[..k] == order;
    AnnouncedIsMax(order, 0, |declared|);
    if count < |declared| {
      count := |declared|;
    }
    oids := [];
    while |oids| < count
      invariant |oids| <= count
      invariant forall i :: 0 <= i < |oids| ==> oids[i] == if i < |declared| then declared[i] else 0
    {
      oids := oids + [if |oids| < |declared| then declared[|oids|] else 0];
    }
  }

  /** A client that binds as many values as were announced meets the out-of-range error exactly
      when the statement uses a parameter number below one. */
  lemma AnnouncedBindingsFit(order: seq<int>, declared: nat, values: seq<string>)
    requires |values| == Announced(order, declared)
    ensures Expand(order, values).Some? <==> forall i :: 0 <= i < |order| ==> order[i] >= 1
  {
    forall i | 0 <= i < |order|
      ensures order[i] <= |values|
    {
      AnnouncedCovers(order, declared, i);
    }
  }

  /** The same for the numbers written: each must be at least one once it has wrapped, and that is the
      number itself up to the largest int64. */
  lemma BindingsFitIff(s: string, declared: nat, values: seq<string>)
    requires |values| == Announced(Order(Lex(s)), declared)
    ensures var ns := Written(Lex(s));
            && (Expand(Order(Lex(s)), values).Some? <==> forall i :: 0 <= i < |ns| ==> Wrap64(ns[i]) >= 1)
            && ((forall i :: 0 <= i < |ns| ==> ns[i] <= INT64_MAX) ==>
                  (Expand(Order(Lex(s)), values).Some? <==> forall i :: 0 <= i < |ns| ==> ns[i] >= 1))
  {
    AnnouncedBindingsFit(Order(Lex(s)), declared, values);
    OrderWraps(Lex(s));
  }
}
