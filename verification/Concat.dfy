/**
 BigQuery's CONCAT rewriting: each `CONCAT(a, b)` becomes `(a || b)`, until none is found. The text
 may grow, but the number of times it spells CONCAT falls at every turn.
 */
module Concat {
  import opened Text

  // ---- Finding CONCAT( : the expression (?i)\bCONCAT\s*\( -----------------------------------

  /** Regexp white space. */
  predicate IsBlank(c: char) { c == ' ' || c == '\t' || c == '\n' || c == '\r' || c == 12 as char }

  /** The word CONCAT, in any case, at position `i`. */
  predicate SpellsAt(q: string, i: nat) {
    i + 6 <= |q| && UpperChar(q[i]) == 'C' && UpperChar(q[i + 1]) == 'O' && UpperChar(q[i + 2]) == 'N' &&
    UpperChar(q[i + 3]) == 'C' && UpperChar(q[i + 4]) == 'A' && UpperChar(q[i + 5]) == 'T'
  }

  /** The position of the parenthesis after blanks from `i`, if there is one. */
  function OpenAfter(q: string, i: nat): (r: Option<nat>)
    requires i <= |q|
    ensures r.Some? ==> i <= r.value < |q| && q[r.value] == '('
    decreases |q| - i
  {
    if i == |q| then None
    else if q[i] == '(' then Some(i)
    else if IsBlank(q[i]) then OpenAfter(q, i + 1)
    else None
  }

  predicate MatchAt(q: string, i: nat) {
    SpellsAt(q, i) && (i == 0 || !IsIdentByte(q[i - 1])) && OpenAfter(q, i + 6).Some?
  }

  /** FindStringIndex: the leftmost match from `i` on. */
  function FindConcat(q: string, i: nat): (r: Option<nat>)
    requires i <= |q|
    ensures r.Some? ==> i <= r.value < |q| && MatchAt(q, r.value)
    ensures forall k :: i <= k < (if r.Some? then r.value else |q|) ==> !MatchAt(q, k)
    decreases |q| - i
  {
    if i == |q| then None
    else if MatchAt(q, i) then Some(i)
    else FindConcat(q, i + 1)
  }

  // ---- splitTopLevelArgs --------------------------------------------------------------------

  predicate IsQuote(c: char) { c == '\'' || c == '"' || c == '`' }

  datatype Args = Args(end: nat, args: seq<string>)

  /** The scan at position `i`, with the nesting depth, the open quote, the start of the current
      argument and the arguments so far. */
  function Scan(q: string, depth: int, quote: Option<char>, start: nat, i: nat, args: seq<string>): (r: Option<Args>)
    requires start <= i + 1 && i <= |q|
    ensures r.Some? ==> i <= r.value.end < |q|
    decreases |q| - i, 1
  {
    if i == |q| then None else ScanByte(q, depth, quote, start, i, args)
  }

  function ScanByte(q: string, depth: int, quote: Option<char>, start: nat, i: nat, args: seq<string>): (r: Option<Args>)
    requires start <= i + 1 && i < |q|
    ensures r.Some? ==> i <= r.value.end < |q|
    decreases |q| - i, 0
  {
    var c := q[i];
    if quote.Some? then Scan(q, depth, if c == quote.value then None else quote, start, i + 1, args)
    else if IsQuote(c) then Scan(q, depth, Some(c), start, i + 1, args)
    else if c == '(' then Scan(q, depth + 1, None, start, i + 1, args)
    else if c == ')' then
      if depth == 1 then Some(Args(i, args + [Piece(q, start, i)]))
      else Scan(q, depth - 1, None, start, i + 1, args)
    else if c == ',' && depth == 1 then Scan(q, depth, None, i + 1, i + 1, args + [Piece(q, start, i)])
    else Scan(q, depth, None, start, i + 1, args)
  }

  lemma ScanIsByte(q: string, depth: int, quote: Option<char>, start: nat, i: nat, args: seq<string>)
    requires start <= i + 1 && i < |q|
    ensures Scan(q, depth, quote, start, i, args) == ScanByte(q, depth, quote, start, i, args)
  {
  }

  function Piece(q: string, start: nat, i: nat): string
    requires i <= |q|
  {
    if start <= i then TrimSpace(q[start..i]) else ""
  }

  function SplitArgs(q: string, open: nat): Option<Args>
    requires open < |q|
  {
    Scan(q, 0, None, open + 1, open, [])
  }

  lemma SplitStarts(q: string, open: nat)
    requires open < |q| && q[open] == '('
    ensures SplitArgs(q, open) == Scan(q, 1, None, open + 1, open + 1, [])
  {
    ScanIsByte(q, 0, None, open + 1, open, []);
  }

  method SplitTopLevelArgs(s: string, open: nat) returns (r: Option<Args>)
    requires open < |s| && s[open] == '('
    ensures r == SplitArgs(s, open)
  {
    var depth, inSingle, inDouble, inBacktick := 0, false, false, false;
    var start, args, i := open + 1, [], open;
    while i < |s|
      invariant open <= i <= |s| && 0 <= start <= i + 1
      invariant !(inSingle && inDouble) && !(inSingle && inBacktick) && !(inDouble && inBacktick)
      invariant SplitArgs(s, open) == Scan(s, depth, OpenQuote(inSingle, inDouble, inBacktick), start, i, args)
    {
      ScanIsByte(s, depth, OpenQuote(inSingle, inDouble, inBacktick), start, i, args);
      var c := s[i];
      if inSingle {
        inSingle := c != '\'';
      } else if inDouble {
        inDouble := c != '"';
      } else if inBacktick {
        inBacktick := c != '`';
      } else if c == '\'' {
        inSingle := true;
      } else if c == '"' {
        inDouble := true;
      } else if c == '`' {
        inBacktick := true;
      } else if c == '(' {
        depth := depth + 1;
      } else if c == ')' {
        depth := depth - 1;
        if depth == 0 {
          return Some(Args(i, args + [Piece(s, start, i)]));
        }
      } else if c == ',' && depth == 1 {
        args := args + [Piece(s, start, i)];
        start := i + 1;
      }
      i := i + 1;
    }
    return None;
  }

  function OpenQuote(single: bool, double: bool, backtick: bool): Option<char> {
    if single then Some('\'') else if double then Some('"') else if backtick then Some('`') else None
  }

  // ---- rewriteConcat ------------------------------------------------------------------------

  function Join(args: seq<string>, sep: string): string {
    if args == [] then ""
    else if |args| == 1 then args[0]
    else args[0] + (sep + Join(args[1..], sep))
  }

  /** One turn of the loop; `None` when it stops. */
  function Turn(q: string): Option<string> {
    var loc := FindConcat(q, 0);
    if loc.None? then None
    else
      var open := OpenAfter(q, loc.value + 6).value;
      var split := SplitArgs(q, open);
      if split.None? then None
      else Some(Replaced(q, loc.value, split.value))
  }

  function Replaced(q: string, at: nat, split: Args): string
    requires at <= |q| && split.end < |q|
  {
    q[..at] + (['('] + (Join(split.args, if |split.args| < 2 then " " else " || ") + ([')'] + q[split.end + 1..])))
  }

  // ---- Why it stops ---------------------------------------------------------------------------

  /** How many times the text spells CONCAT. */
  function Spellings(x: string): nat {
    if |x| < 6 then 0 else Spellings(x[1..]) + if SpellsAt(x, 0) then 1 else 0
  }

  predicate Breaks(c: char) { c == '(' || c == ')' || c == ',' || c == ' ' || c == '|' }

  /** A separator is part of no spelling. */
  lemma {:induction false} SpellingsBreak(x: string, c: char, y: string)
    requires Breaks(c)
    ensures Spellings(x + ([c] + y)) == Spellings(x) + Spellings(y)
  {
    var z := x + ([c] + y);
    if x == "" {
      assert z == [c] + y && z[1..] == y;
    } else {
      assert z[1..] == x[1..] + ([c] + y) && z[|x|] == c;
      SpellingsBreak(x[1..], c, y);
      if |x| < 6 {
        assert |x[1..]| < 6;
      }
    }
  }

  lemma {:induction false} SpellingsSuper(x: string, y: string)
    ensures Spellings(x) + Spellings(y) <= Spellings(x + y)
  {
    if x == "" {
      assert x + y == y;
    } else {
      assert (x + y)[1..] == x[1..] + y;
      SpellingsSuper(x[1..], y);
    }
  }

  lemma SpellingsCut(x: string, n: nat)
    requires n <= |x|
    ensures Spellings(x[..n]) + Spellings(x[n..]) <= Spellings(x)
  {
    assert x == x[..n] + x[n..];
    SpellingsSuper(x[..n], x[n..]);
  }

  lemma {:induction false} TrimLeftSpellings(x: string)
    ensures Spellings(TrimLeft(x)) <= Spellings(x)
  {
    if x != "" && IsSpace(x[0]) {
      TrimLeftSpellings(x[1..]);
    }
  }

  lemma {:induction false} TrimRightSpellings(x: string)
    ensures Spellings(TrimRight(x)) <= Spellings(x)
  {
    if x != "" && IsSpace(x[|x| - 1]) {
      TrimRightSpellings(x[..|x| - 1]);
      SpellingsCut(x, |x| - 1);
    }
  }

  lemma TrimSpellings(x: string)
    ensures Spellings(TrimSpace(x)) <= Spellings(x)
  {
    TrimLeftSpellings(x);
    TrimRightSpellings(TrimLeft(x));
  }

  function Sum(args: seq<string>): nat {
    if args == [] then 0 else Sum(args[..|args| - 1]) + Spellings(args[|args| - 1])
  }

  lemma SumMore(args: seq<string>, x: string)
    ensures Sum(args + [x]) == Sum(args) + Spellings(x)
  {
    assert (args + [x])[..|args|] == args;
  }

  lemma {:induction false} SumFront(args: seq<string>)
    requires args != []
    ensures Sum(args) == Spellings(args[0]) + Sum(args[1..])
  {
    if |args| == 1 {
      assert args[..0] == [] && args[1..] == [];
    } else {
      var n := |args| - 1;
      SumFront(args[..n]);
      assert args[..n][1..] == args[1..][..n - 1];
    }
  }

  lemma {:induction false} SeparatorBreaks(x: string, sep: string, y: string)
    requires sep != "" && forall i :: 0 <= i < |sep| ==> Breaks(sep[i])
    ensures Spellings(x + (sep + y)) == Spellings(x) + Spellings(y)
    decreases |sep|
  {
    var rest := sep[1..];
    assert sep + y == [sep[0]] + (rest + y);
    SpellingsBreak(x, sep[0], rest + y);
    if rest == "" {
      assert rest + y == y;
    } else {
      SeparatorBreaks("", rest, y);
      assert "" + (rest + y) == rest + y;
    }
  }

  /** Joining arguments with a separator creates no spelling. */
  lemma {:induction false} JoinSpellings(args: seq<string>, sep: string)
    requires sep == " " || sep == " || "
    ensures Spellings(Join(args, sep)) == Sum(args)
  {
    if args != [] {
      SumFront(args);
      if |args| > 1 {
        JoinSpellings(args[1..], sep);
        SeparatorBreaks(args[0], sep, Join(args[1..], sep));
      } else {
        assert args[1..] == [];
      }
    }
  }

  /** The arguments spell CONCAT no more often than the text they were cut from. */
  lemma {:induction false} ScanSpellings(q: string, depth: int, quote: Option<char>, start: nat, i: nat, args: seq<string>)
    requires start <= i <= |q|
    ensures var r := Scan(q, depth, quote, start, i, args);
            r.Some? ==> i <= r.value.end && Sum(r.value.args) <= Sum(args) + Spellings(q[start..r.value.end])
    decreases |q| - i
  {
    var r := Scan(q, depth, quote, start, i, args);
    if r.Some? {
      ScanIsByte(q, depth, quote, start, i, args);
      var c, end := q[i], r.value.end;
      if quote.None? && c == ')' && depth == 1 {
        SumMore(args, Piece(q, start, i));
        TrimSpellings(q[start..i]);
      } else if quote.None? && c == ',' && depth == 1 {
        ScanSpellings(q, depth, None, i + 1, i + 1, args + [Piece(q, start, i)]);
        SumMore(args, Piece(q, start, i));
        TrimSpellings(q[start..i]);
        SpellingsBreak(q[start..i], ',', q[i + 1..end]);
        assert q[start..end] == q[start..i] + ([','] + q[i + 1..end]);
      } else {
        var quote' := if quote.Some? then (if c == quote.value then None else quote)
                      else if IsQuote(c) then Some(c) else None;
        var depth' := if quote.Some? || IsQuote(c) then depth
                      else if c == '(' then depth + 1 else if c == ')' then depth - 1 else depth;
        ScanSpellings(q, depth', quote', start, i + 1, args);
      }
    }
  }

  /** The matched word is spelled between the two parts the turn keeps. */
  lemma MatchCounts(q: string, at: nat, open: nat, end: nat)
    requires SpellsAt(q, at) && at + 6 <= open < end < |q|
    ensures Spellings(q) >= Spellings(q[..at]) + 1 + Spellings(q[open + 1..end]) + Spellings(q[end + 1..])
  {
    SpellingsCut(q, at);
    var x := q[at..];
    assert SpellsAt(x, 0) && x[1..] == q[at + 1..];
    assert Spellings(x) == Spellings(q[at + 1..]) + 1;
    SpellingsCut(q[at + 1..], open - at);
    assert q[at + 1..][open - at..] == q[open + 1..];
    SpellingsCut(q[open + 1..], end - open - 1);
    assert q[open + 1..][..end - open - 1] == q[open + 1..end] && q[open + 1..][end - open - 1..] == q[end..];
    assert q[end..][1..] == q[end + 1..];
    SpellingsCut(q[end..], 1);
  }

  lemma ReplacedSpellings(q: string, at: nat, split: Args)
    requires at <= |q| && split.end < |q|
    ensures Spellings(Replaced(q, at, split)) ==
            Spellings(q[..at]) + Sum(split.args) + Spellings(q[split.end + 1..])
  {
    var sep := if |split.args| < 2 then " " else " || ";
    var tail := q[split.end + 1..];
    JoinSpellings(split.args, sep);
    SpellingsBreak(Join(split.args, sep), ')', tail);
    SpellingsBreak(q[..at], '(', Join(split.args, sep) + ([')'] + tail));
  }

  lemma TurnShrinks(q: string)
    ensures Turn(q).Some? ==> Spellings(Turn(q).value) < Spellings(q)
  {
    if Turn(q).Some? {
      var at := FindConcat(q, 0).value;
      var open := OpenAfter(q, at + 6).value;
      var split := SplitArgs(q, open).value;
      SplitStarts(q, open);
      ScanSpellings(q, 1, None, open + 1, open + 1, []);
      ReplacedSpellings(q, at, split);
      MatchCounts(q, at, open, split.end);
    }
  }

  /** The text the loop ends with. */
  function Rewritten(q: string): string
    decreases Spellings(q)
  {
    var next := Turn(q);
    if next.None? then q else
      TurnShrinks(q);
      Rewritten(next.value)
  }

  /** rewriteConcat: it stops on every text, and then either no CONCAT( is left or the first one
      left has no matching parenthesis. */
  method RewriteConcat(input: string) returns (q: string)
    ensures q == Rewritten(input)
    ensures FindConcat(q, 0).None? || SplitArgs(q, OpenAfter(q, FindConcat(q, 0).value + 6).value).None?
  {
    q := input;
    while true
      invariant Rewritten(input) == Rewritten(q)
      decreases Spellings(q)
    {
      TurnShrinks(q);
      var loc := FindConcat(q, 0);
      if loc.None? {
        return;
      }
      var open := OpenAfter(q, loc.value + 6).value;
      var split := SplitTopLevelArgs(q, open);
      if split.None? {
        return;
      }
      q := Replaced(q, loc.value, split.value);
    }
  }
}
