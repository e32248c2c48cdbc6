/**
 Splitting a Simple-Query payload into statements. The reference is a byte-at-a-time automaton
 without lookahead; the source scans whole regions at a time. They agree, and splitting is stable
 under joining with newline-semicolon.
 */
module PgSplit {
  import opened Text
  import opened PgRegions

  // ---- The reference automaton ------------------------------------------------------

  datatype Mode =
    | Normal
    | Dash                                    // one '-' seen, a second would start a comment
    | Tag(tag: string)                        // '$' and identifier bytes seen
    | Quoted(quote: char)
    | Dollar(delim: string, seen: string)     // inside a dollar quote
    | Comment

  /** A semicolon separates statements in these modes only. */
  predicate Open(m: Mode) { m.Normal? || m.Dash? || m.Tag? }

  function FromNormal(c: char): Mode {
    if c == '\'' || c == '"' then Quoted(c)
    else if c == '$' then Tag("")
    else if c == '-' then Dash
    else Normal
  }

  predicate EndsWith(s: string, d: string) { |d| <= |s| && s[|s| - |d|..] == d }

  function Step(m: Mode, c: char): Mode {
    match m
    case Normal => FromNormal(c)
    case Dash => if c == '-' then Comment else FromNormal(c)
    case Tag(tag) =>
      if c == '$' then Dollar("$" + tag + "$", "")
      else if IsIdentByte(c) then Tag(tag + [c])
      else FromNormal(c)
    case Quoted(q) => if c == q then Normal else m
    case Dollar(d, seen) => if EndsWith(seen + [c], d) then Normal else Dollar(d, seen + [c])
    case Comment => if c == '\n' then Normal else Comment
  }

  /** The fragments of a text, by position. */
  datatype Fragments = Last(from: nat) | More(from: nat, to: nat, rest: Fragments)

  /** The fragments of `s` from `start` on, the automaton being in `m` at position `i`. */
  function Cut(m: Mode, s: string, start: nat, i: nat): Fragments
    requires i <= |s|
    decreases |s| - i, 1
  {
    if i == |s| then Last(start) else CutByte(m, s, start, i)
  }

  function CutByte(m: Mode, s: string, start: nat, i: nat): Fragments
    requires i < |s|
    decreases |s| - i, 0
  {
    if s[i] == ';' && Open(m) then More(start, i, Cut(Normal, s, i + 1, i + 1))
    else Cut(Step(m, s[i]), s, start, i + 1)
  }

  function Slice(s: string, from: nat, to: nat): string {
    if from <= to <= |s| then s[from..to] else ""
  }

  function Flushed(f: string): seq<string> {
    if TrimSpace(f) != "" then [TrimSpace(f)] else []
  }

  /** Trimmed fragments, empty ones dropped. */
  function Statements(s: string, fs: Fragments): seq<string> {
    match fs
    case Last(from) => Flushed(Slice(s, from, |s|))
    case More(from, to, rest) => Flushed(Slice(s, from, to)) + Statements(s, rest)
  }

  function Split(s: string): seq<string> { Statements(s, Cut(Normal, s, 0, 0)) }

  // ---- The scanner agrees with the automaton ------------------------------------------

  lemma Advance(m: Mode, s: string, start: nat, i: nat)
    requires i < |s| && !(s[i] == ';' && Open(m))
    ensures Cut(m, s, start, i) == Cut(Step(m, s[i]), s, start, i + 1)
  {
    assert Cut(m, s, start, i) == CutByte(m, s, start, i);
  }

  lemma Separate(m: Mode, s: string, start: nat, i: nat)
    requires i < |s| && s[i] == ';' && Open(m)
    ensures Cut(m, s, start, i) == More(start, i, Cut(Normal, s, i + 1, i + 1))
  {
    assert Cut(m, s, start, i) == CutByte(m, s, start, i);
  }

  /** Through a quoted region, up to and including its closing quote. */
  lemma {:induction false} CutQuoted(q: char, s: string, start: nat, i: nat)
    requires q == '\'' || q == '"'
    requires start <= i <= |s|
    ensures Cut(Quoted(q), s, start, i) == Cut(Normal, s, start, i + InnerLen(s[i..], q))
    decreases |s| - i
  {
    if i < |s| {
      Suffix(s, i, 1);
      Advance(Quoted(q), s, start, i);
      if s[i] == q && i + 1 < |s| && s[i + 1] == q {
        Suffix(s, i, 2);
        Advance(Normal, s, start, i + 1);
        CutQuoted(q, s, start, i + 2);
      } else if s[i] != q {
        CutQuoted(q, s, start, i + 1);
      }
    }
  }

  /** Through a dollar quote with text from `from`, at position `i` of it: the first prefix of the
      text to end with the delimiter closes it at `end`, else it runs to the end. */
  lemma {:induction false} CutDollar(d: string, s: string, start: nat, from: nat, i: nat, end: nat, closed: bool)
    requires start <= from <= i <= end <= |s|
    requires forall e :: i < e < end ==> !EndsWith(s[from..e], d)
    requires i < end ==> EndsWith(s[from..end], d) == closed
    requires if closed then i < end else end == |s|
    ensures Cut(Dollar(d, s[from..i]), s, start, i) == Cut(Normal, s, start, end)
    decreases end - i
  {
    if i < end {
      assert s[from..i] + [s[i]] == s[from..i + 1];
      Advance(Dollar(d, s[from..i]), s, start, i);
      if i + 1 < end || !closed {
        CutDollar(d, s, start, from, i + 1, end, closed);
      }
    }
  }

  /** Find returns the first occurrence: no shorter prefix ends with `d`. */
  lemma {:induction false} FindIsFirst(t: string, d: string, n: nat)
    requires |d| <= n <= |t|
    ensures Find(t, d).None? ==> t[n - |d|..n] != d
    ensures Find(t, d).Some? ==>
              (n < Find(t, d).value + |d| ==> t[n - |d|..n] != d) &&
              (n == Find(t, d).value + |d| ==> t[n - |d|..n] == d)
  {
    if d <= t {
      assert t[..|d|] == d;
    } else if n == |d| {
      assert t[n - |d|..n] == t[..|d|];
    } else {
      FindIsFirst(t[1..], d, n - 1);
      assert t[1..][n - 1 - |d|..n - 1] == t[n - |d|..n];
    }
  }

  lemma FoundAt(t: string, d: string, n: nat)
    requires n <= |t|
    ensures Find(t, d).None? ==> !EndsWith(t[..n], d)
    ensures Find(t, d).Some? ==>
              (n < Find(t, d).value + |d| ==> !EndsWith(t[..n], d)) &&
              (n == Find(t, d).value + |d| ==> EndsWith(t[..n], d))
  {
    if |d| <= n {
      FindIsFirst(t, d, n);
      assert t[..n][n - |d|..] == t[n - |d|..n];
    }
  }

  /** A '$' that opens nothing changes nothing. */
  lemma {:induction false} CutLoneDollar(tag: string, s: string, start: nat, i: nat)
    requires start <= i <= |s|
    requires var n := IdentLen(s[i..]); i + n < |s| ==> s[i + n] != '$'
    ensures Cut(Tag(tag), s, start, i) == Cut(Normal, s, start, i)
    decreases |s| - i
  {
    if i < |s| {
      if s[i] == ';' {
        Separate(Tag(tag), s, start, i);
        Separate(Normal, s, start, i);
      } else {
        Advance(Tag(tag), s, start, i);
        Advance(Normal, s, start, i);
        if IsIdentByte(s[i]) {
          Suffix(s, i, 1);
          CutLoneDollar(tag + [s[i]], s, start, i + 1);
        }
      }
    }
  }

  lemma {:induction false} CutTag(s: string, start: nat, at: nat, i: nat)
    requires at <= i <= |s| && i + IdentLen(s[i..]) < |s| && s[i + IdentLen(s[i..])] == '$'
    ensures var end := i + IdentLen(s[i..]);
            Cut(Tag(s[at..i]), s, start, i) == Cut(Dollar("$" + s[at..end] + "$", ""), s, start, end + 1)
    decreases |s| - i
  {
    Advance(Tag(s[at..i]), s, start, i);
    if IsIdentByte(s[i]) {
      Suffix(s, i, 1);
      assert s[at..i] + [s[i]] == s[at..i + 1];
      CutTag(s, start, at, i + 1);
    }
  }

  lemma CutOpening(s: string, start: nat, i: nat, k: nat)
    requires i <= |s| && k == TagLen(s[i..]) > 0
    ensures Cut(Normal, s, start, i) == Cut(Dollar(s[i..i + k], s[i + k..i + k]), s, start, i + k)
  {
    Suffix(s, i, 1);
    assert s[i + 1..i + 1] == "" && s[i + k..i + k] == "";
    Advance(Normal, s, start, i);
    CutTag(s, start, i + 1, i + 1);
    assert "$" + s[i + 1..i + k - 1] + "$" == s[i..i + k];
  }

  lemma PrefixEnds(d: string, s: string, from: nat, e: nat, r: Option<nat>)
    requires from <= e <= |s| && r == Find(s[from..], d) && (r.Some? ==> e <= from + r.value + |d|)
    ensures EndsWith(s[from..e], d) <==> r.Some? && e == from + r.value + |d|
  {
    assert s[from..e] == s[from..][..e - from];
    FoundAt(s[from..], d, e - from);
  }

  lemma CutDollarText(d: string, s: string, start: nat, from: nat, r: Option<nat>)
    requires start <= from <= |s| && d != "" && r == Find(s[from..], d)
    ensures Cut(Dollar(d, s[from..from]), s, start, from) ==
            Cut(Normal, s, start, if r.None? then |s| else from + r.value + |d|)
  {
    var end := if r.None? then |s| else from + r.value + |d|;
    forall e | from <= e <= end
      ensures EndsWith(s[from..e], d) <==> r.Some? && e == end
    {
      PrefixEnds(d, s, from, e, r);
    }
    CutDollar(d, s, start, from, from, end, r.Some?);
  }

  lemma DollarLenAt(s: string, i: nat, k: nat)
    requires i + k <= |s|
    ensures var r := Find(s[i + k..], s[i..i + k]);
            i + DollarLen(s[i..], k) == if r.None? then |s| else i + k + r.value + k
  {
    Suffix(s, i, k);
    assert s[i..][..k] == s[i..i + k];
  }

  lemma CutDollarRegion(s: string, start: nat, i: nat, k: nat)
    requires start <= i <= |s| && k == TagLen(s[i..]) > 0
    ensures Cut(Normal, s, start, i) == Cut(Normal, s, start, i + DollarLen(s[i..], k))
  {
    CutOpening(s, start, i, k);
    DollarLenAt(s, i, k);
    CutDollarText(s[i..i + k], s, start, i + k, Find(s[i + k..], s[i..i + k]));
  }

  /** A whole protected region is one jump of the scanner. */
  lemma CutRegion(s: string, start: nat, i: nat)
    requires start <= i < |s| && RegionLen(s[i..]) > 0
    ensures Cut(Normal, s, start, i) == Cut(Normal, s, start, i + RegionLen(s[i..]))
  {
    if s[i] == '\'' || s[i] == '"' {
      Suffix(s, i, 1);
      CutQuoted(s[i], s, start, i + 1);
    } else {
      CutDollarRegion(s, start, i, TagLen(s[i..]));
    }
  }

  /** Length of the line comment at the head of `t`, up to but not including the newline. */
  function CommentLen(t: string): (n: nat)
    ensures n <= |t| && (n < |t| ==> t[n] == '\n')
  {
    if t == "" || t[0] == '\n' then 0 else 1 + CommentLen(t[1..])
  }

  lemma {:induction false} CutComment(s: string, start: nat, i: nat)
    requires start <= i <= |s|
    ensures Cut(Comment, s, start, i) == Cut(Normal, s, start, i + CommentLen(s[i..]))
    decreases |s| - i
  {
    if i < |s| {
      Advance(Comment, s, start, i);
      if s[i] != '\n' {
        Suffix(s, i, 1);
        CutComment(s, start, i + 1);
      } else {
        Advance(Normal, s, start, i);
      }
    }
  }

  lemma CutLineComment(s: string, start: nat, i: nat)
    requires start <= i && i + 2 <= |s| && s[i] == '-' && s[i + 1] == '-'
    ensures Cut(Normal, s, start, i) == Cut(Normal, s, start, i + CommentLen(s[i..]))
  {
    Suffix(s, i, 1);
    Suffix(s, i + 1, 1);
    Advance(Normal, s, start, i);
    Advance(Dash, s, start, i + 1);
    CutComment(s, start, i + 2);
  }

  lemma CutLoneDash(s: string, start: nat, i: nat)
    requires start <= i <= |s| && (i < |s| ==> s[i] != '-')
    ensures Cut(Dash, s, start, i) == Cut(Normal, s, start, i)
  {
    if i < |s| {
      if s[i] == ';' {
        Separate(Dash, s, start, i);
        Separate(Normal, s, start, i);
      } else {
        Advance(Dash, s, start, i);
        Advance(Normal, s, start, i);
      }
    }
  }

  /** Any other byte is copied alone. */
  lemma CutPlain(s: string, start: nat, i: nat)
    requires start <= i < |s| && RegionLen(s[i..]) == 0 && s[i] != ';'
    requires s[i] == '-' ==> i + 1 == |s| || s[i + 1] != '-'
    ensures Cut(Normal, s, start, i) == Cut(Normal, s, start, i + 1)
  {
    Advance(Normal, s, start, i);
    if s[i] == '$' {
      Suffix(s, i, 1);
      CutLoneDollar("", s, start, i + 1);
    } else if s[i] == '-' {
      CutLoneDash(s, start, i + 1);
    }
  }

  lemma AtSeparator(out: seq<string>, s: string, start: nat, i: nat)
    requires start <= i < |s| && s[i] == ';'
    ensures out + Statements(s, Cut(Normal, s, start, i)) ==
            (out + Flushed(s[start..i])) + Statements(s, Cut(Normal, s, i + 1, i + 1))
  {
    Separate(Normal, s, start, i);
    Assoc(out, Flushed(s[start..i]), Statements(s, Cut(Normal, s, i + 1, i + 1)));
  }

  lemma AtEnd(s: string, start: nat)
    requires start <= |s|
    ensures Statements(s, Cut(Normal, s, start, |s|)) == Flushed(s[start..|s|])
  {
  }

  /** splitCommands: the loop over regions computes what the automaton specifies. */
  method SplitCommands(s: string) returns (out: seq<string>)
    ensures out == Split(s)
  {
    out := [];
    var b, i := "", 0;
    ghost var start := 0;
    while i < |s|
      invariant 0 <= start <= i <= |s| && b == s[start..i]
      invariant Split(s) == out + Statements(s, Cut(Normal, s, start, i))
    {
      if s[i] == ';' {
        AtSeparator(out, s, start, i);
        out := out + Flushed(b);
        b, i := "", i + 1;
        start := i;
      } else {
        var j := SkipPiece(s, i, start);
        assert s[start..i] + s[i..j] == s[start..j];
        b, i := b + s[i..j], j;
      }
    }
    AtEnd(s, start);
    out := out + Flushed(b);
  }

  /** What the loop copies in one go: a region, a line comment, or one byte. */
  method SkipPiece(s: string, i: nat, ghost start: nat) returns (j: nat)
    requires start <= i < |s| && s[i] != ';'
    ensures i < j <= |s| && Cut(Normal, s, start, i) == Cut(Normal, s, start, j)
  {
    j := SkipRegion(s, i);
    if j > i {
      CutRegion(s, start, i);
    } else if s[i] == '-' && i + 1 < |s| && s[i + 1] == '-' {
      CutLineComment(s, start, i);
      j := SkipToNewline(s, i);
    } else {
      CutPlain(s, start, i);
      j := i + 1;
    }
  }

  method SkipToNewline(s: string, i: nat) returns (j: nat)
    requires i < |s| && s[i] != '\n'
    ensures i < j <= |s| && j == i + CommentLen(s[i..])
  {
    j := i;
    while j < |s| && s[j] != '\n'
      invariant i <= j <= |s| && j + CommentLen(s[j..]) == i + CommentLen(s[i..])
    {
      Suffix(s, j, 1);
      j := j + 1;
    }
  }
}
