/** Splitting statements is stable: joining the statements with newline-semicolon and splitting
    again gives the same list. */
module PgSplitTheorems {
  import opened Text
  import opened PgRegions
  import opened PgSplit

  /** The mode after reading all of `t` as one fragment. */
  function After(m: Mode, t: string): Mode {
    if t == "" then m else Step(After(m, t[..|t| - 1]), t[|t| - 1])
  }

  /** No byte of `t` separates statements when it is read from `m`. */
  predicate Whole(m: Mode, t: string) {
    t == "" ||
    (Whole(m, t[..|t| - 1]) && !(t[|t| - 1] == ';' && Open(After(m, t[..|t| - 1]))))
  }

  lemma {:induction false} CutThrough(m: Mode, s: string, start: nat, i: nat, t: string)
    requires i + |t| <= |s| && s[i..i + |t|] == t && Whole(m, t)
    ensures Cut(m, s, start, i) == Cut(After(m, t), s, start, i + |t|)
  {
    if t != "" {
      var n := |t| - 1;
      assert s[i..i + n] == t[..n] && s[i + n] == t[n];
      CutThrough(m, s, start, i, t[..n]);
      Advance(After(m, t[..n]), s, start, i + n);
    }
  }

  // ---- What the fragments of a text are like --------------------------------------------

  ghost predicate Sound(s: string, fs: Fragments) {
    match fs
    case Last(from) => from <= |s| && Whole(Normal, s[from..|s|])
    case More(from, to, rest) =>
      from <= to <= |s| && Whole(Normal, s[from..to]) && Open(After(Normal, s[from..to])) && Sound(s, rest)
  }

  lemma {:induction false} CutIsSound(m: Mode, s: string, start: nat, i: nat)
    requires start <= i <= |s| && Whole(Normal, s[start..i]) && m == After(Normal, s[start..i])
    ensures Sound(s, Cut(m, s, start, i))
    decreases |s| - i
  {
    if i < |s| {
      if s[i] == ';' && Open(m) {
        Separate(m, s, start, i);
        assert s[i + 1..i + 1] == "";
        CutIsSound(Normal, s, i + 1, i + 1);
      } else {
        var t := s[start..i + 1];
        assert t[..|t| - 1] == s[start..i] && t[|t| - 1] == s[i];
        Advance(m, s, start, i);
        CutIsSound(Step(m, s[i]), s, start, i + 1);
      }
    }
  }

  // ---- Trimming keeps a statement whole and complete ----------------------------------------

  /** A newline brings the automaton back to normal: the statement is not cut off inside a region. */
  predicate Settled(m: Mode) { Step(m, '\n') == Normal }

  predicate GoodMode(m: Mode) {
    && (m.Dollar? ==> m.delim != "" && m.delim[|m.delim| - 1] == '$')
    && (m.Quoted? ==> !IsSpace(m.quote))
  }

  lemma {:induction false} AfterIsGood(t: string)
    ensures GoodMode(After(Normal, t))
  {
    if t != "" {
      AfterIsGood(t[..|t| - 1]);
    }
  }

  lemma SpaceDoesNotSettle(m: Mode, c: char)
    requires GoodMode(m) && IsSpace(c) && Settled(Step(m, c))
    ensures Settled(m)
  {
    if m.Dollar? {
      NotClosing(m.seen, m.delim, c);
      NotClosing(m.seen + [c], m.delim, '\n');
    }
  }

  lemma NotClosing(seen: string, d: string, c: char)
    requires d != "" && d[|d| - 1] == '$' && c != '$'
    ensures !EndsWith(seen + [c], d)
  {
    var text := seen + [c];
    assert |d| <= |text| ==> text[|text| - |d|..][|d| - 1] == c;
  }

  lemma {:induction false} AfterSpace(c: char, t: string)
    requires IsSpace(c)
    ensures After(Normal, [c] + t) == After(Normal, t)
    ensures Whole(Normal, [c] + t) ==> Whole(Normal, t)
  {
    var ct := [c] + t;
    if t == "" {
      assert ct[..0] == "";
    } else {
      assert ct[..|ct| - 1] == [c] + t[..|t| - 1];
      AfterSpace(c, t[..|t| - 1]);
    }
  }

  lemma {:induction false} TrimLeftKeeps(f: string)
    requires Whole(Normal, f)
    ensures Whole(Normal, TrimLeft(f)) && After(Normal, TrimLeft(f)) == After(Normal, f)
    ensures TrimLeft(f) == "" || !IsSpace(TrimLeft(f)[0])
  {
    if f != "" && IsSpace(f[0]) {
      assert f == [f[0]] + f[1..];
      AfterSpace(f[0], f[1..]);
      TrimLeftKeeps(f[1..]);
    }
  }

  lemma {:induction false} TrimRightKeeps(f: string)
    requires Whole(Normal, f)
    ensures Whole(Normal, TrimRight(f))
    ensures Settled(After(Normal, f)) ==> Settled(After(Normal, TrimRight(f)))
    ensures TrimRight(f) == "" || (!IsSpace(TrimRight(f)[|TrimRight(f)| - 1]) && TrimRight(f)[0] == f[0])
  {
    if f != "" && IsSpace(f[|f| - 1]) {
      var front := f[..|f| - 1];
      AfterIsGood(front);
      if Settled(After(Normal, f)) {
        SpaceDoesNotSettle(After(Normal, front), f[|f| - 1]);
      }
      TrimRightKeeps(front);
    }
  }

  predicate Trimmed(c: string) { c != "" && !IsSpace(c[0]) && !IsSpace(c[|c| - 1]) }

  lemma TrimKeeps(f: string)
    requires Whole(Normal, f)
    ensures Whole(Normal, TrimSpace(f))
    ensures Settled(After(Normal, f)) ==> Settled(After(Normal, TrimSpace(f)))
    ensures TrimSpace(f) == "" || Trimmed(TrimSpace(f))
  {
    TrimLeftKeeps(f);
    TrimRightKeeps(TrimLeft(f));
  }

  // ---- Joining -----------------------------------------------------------------------------

  function Join(cs: seq<string>): string {
    if cs == [] then ""
    else if |cs| == 1 then cs[0]
    else (cs[0] + "\n") + ";" + Join(cs[1..])
  }

  /** Statements that survive joining: trimmed, whole, and all but the last complete. */
  predicate Joinable(cs: seq<string>) {
    cs == [] ||
    (Trimmed(cs[0]) && Whole(Normal, cs[0]) && (|cs| > 1 ==> Settled(After(Normal, cs[0]))) && Joinable(cs[1..]))
  }

  lemma {:induction false} StatementsJoinable(s: string, fs: Fragments)
    requires Sound(s, fs)
    ensures Joinable(Statements(s, fs))
  {
    match fs
    case Last(from) => TrimKeeps(s[from..|s|]);
    case More(from, to, rest) =>
      TrimKeeps(s[from..to]);
      StatementsJoinable(s, rest);
      var c := TrimSpace(s[from..to]);
      assert ([c] + Statements(s, rest))[1..] == Statements(s, rest);
      assert [] + Statements(s, rest) == Statements(s, rest);
  }

  lemma FlushTrimmed(c: string)
    requires Trimmed(c)
    ensures Flushed(c) == [c] && Flushed(c + "\n") == [c]
  {
    var cn := c + "\n";
    assert TrimLeft(cn) == cn;
    assert cn[..|cn| - 1] == c;
    assert TrimRight(cn) == TrimRight(c) == c;
  }

  /** One statement of the joined text is cut exactly at the separator that follows it. */
  lemma CutStatement(j: string, p: nat, c: string)
    requires p + |c| + 1 < |j| && j[p..p + |c| + 1] == c + "\n" && j[p + |c| + 1] == ';'
    requires Whole(Normal, c) && Settled(After(Normal, c))
    ensures Cut(Normal, j, p, p) == More(p, p + |c| + 1, Cut(Normal, j, p + |c| + 2, p + |c| + 2))
  {
    var t := c + "\n";
    assert t[..|t| - 1] == c;
    CutThrough(Normal, j, p, p, t);
    Separate(After(Normal, t), j, p, p + |c| + 1);
  }

  lemma FirstStatement(j: string, p: nat, c: string, rest: seq<string>)
    requires p + |c| + 1 < |j| && j[p..p + |c| + 1] == c + "\n" && j[p + |c| + 1] == ';'
    requires Trimmed(c) && Whole(Normal, c) && Settled(After(Normal, c))
    requires Statements(j, Cut(Normal, j, p + |c| + 2, p + |c| + 2)) == rest
    ensures Statements(j, Cut(Normal, j, p, p)) == [c] + rest
  {
    CutStatement(j, p, c);
    FlushTrimmed(c);
  }

  lemma LastStatement(j: string, p: nat, c: string)
    requires p <= |j| && j[p..] == c && Trimmed(c) && Whole(Normal, c)
    ensures Statements(j, Cut(Normal, j, p, p)) == [c]
  {
    assert j[p..p + |c|] == c;
    CutThrough(Normal, j, p, p, c);
    FlushTrimmed(c);
  }

  lemma JoinHead(j: string, p: nat, c: string, rest: string)
    requires p <= |j| && j[p..] == (c + "\n") + ";" + rest
    ensures p + |c| + 1 < |j| && j[p..p + |c| + 1] == c + "\n" && j[p + |c| + 1] == ';'
    ensures j[p + |c| + 2..] == rest
  {
    var t := j[p..];
    assert t[..|c| + 1] == c + "\n" && t[|c| + 1] == ';' && t[|c| + 2..] == rest;
    assert j[p..p + |c| + 1] == t[..|c| + 1];
    Suffix(j, p, |c| + 2);
  }

  lemma {:induction false} SplitJoined(j: string, p: nat, cs: seq<string>)
    requires p <= |j| && j[p..] == Join(cs) && Joinable(cs)
    ensures Statements(j, Cut(Normal, j, p, p)) == cs
    decreases |cs|
  {
    if cs == [] {
      assert j[p..|j|] == "";
    } else if |cs| == 1 {
      LastStatement(j, p, cs[0]);
    } else {
      var c := cs[0];
      JoinHead(j, p, c, Join(cs[1..]));
      SplitJoined(j, p + |c| + 2, cs[1..]);
      FirstStatement(j, p, c, cs[1..]);
      assert cs == [c] + cs[1..];
    }
  }

  /** Splitting, joining with newline-semicolon and splitting again gives the same statements. */
  lemma SplitIsStable(s: string)
    ensures Split(Join(Split(s))) == Split(s)
  {
    assert s[0..0] == "";
    CutIsSound(Normal, s, 0, 0);
    StatementsJoinable(s, Cut(Normal, s, 0, 0));
    var j := Join(Split(s));
    assert j[0..] == j;
    SplitJoined(j, 0, Split(s));
  }

  /** No semicolon of a protected region separates: a region is always part of one fragment. */
  lemma RegionsAreNeverCut(s: string, start: nat, i: nat)
    requires start <= i < |s| && RegionLen(s[i..]) > 0
    ensures var fs := Cut(Normal, s, start, i);
            fs.from == start && (fs.More? ==> i + RegionLen(s[i..]) <= fs.to)
  {
    CutRegion(s, start, i);
    CutStartsLater(Normal, s, start, i + RegionLen(s[i..]));
  }

  lemma {:induction false} CutStartsLater(m: Mode, s: string, start: nat, i: nat)
    requires start <= i <= |s|
    ensures var fs := Cut(m, s, start, i); fs.from == start && (fs.More? ==> i <= fs.to)
    decreases |s| - i
  {
    if i < |s| {
      if s[i] == ';' && Open(m) {
        Separate(m, s, start, i);
      } else {
        Advance(m, s, start, i);
        CutStartsLater(Step(m, s[i]), s, start, i + 1);
      }
    }
  }
}
