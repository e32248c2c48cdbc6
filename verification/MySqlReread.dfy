/** Output as made bytes and copied regions, and exactly when a scan of it finds those regions. */
module MySqlReread {
  import opened Text
  import opened MySqlLexemes
  import opened MySqlTranslate
  import opened MySqlRegions

  // ---- The output in pieces -------------------------------------------------------------------

  /** A byte that was made, or a region that was copied. */
  datatype Piece = Made(byte: char) | Kept(region: string)

  function MadeOf(t: string): (ps: seq<Piece>)
    ensures |ps| == |t| && forall k :: 0 <= k < |t| ==> ps[k] == Made(t[k])
  {
    seq(|t|, k requires 0 <= k < |t| => Made(t[k]))
  }

  function Pieces(c: Cloth): seq<Piece> {
    match c
    case Bare(made) => MadeOf(made)
    case Sewn(before, region, made) => Pieces(before) + [Kept(region)] + MadeOf(made)
  }

  function TextOf(p: Piece): string { if p.Made? then [p.byte] else p.region }

  function Flat(ps: seq<Piece>): string { if ps == [] then "" else TextOf(ps[0]) + Flat(ps[1..]) }

  function KeptTexts(ps: seq<Piece>): seq<string> {
    if ps == [] then [] else (if ps[0].Kept? then [ps[0].region] else []) + KeptTexts(ps[1..])
  }

  datatype Span = Span(start: nat, end: nat)

  /** Where the copied regions are. */
  function Spans(ps: seq<Piece>, i: nat): seq<Span> {
    if ps == [] then []
    else
      var j := i + |TextOf(ps[0])|;
      (if ps[0].Kept? then [Span(i, j)] else []) + Spans(ps[1..], j)
  }

  /** Where a plain scan finds protected regions. */
  function Found(t: string, i: nat): seq<Span>
    requires i <= |t|
    decreases |t| - i
  {
    if i == |t| then []
    else if RegionEnd(t, i) > i then [Span(i, RegionEnd(t, i))] + Found(t, RegionEnd(t, i))
    else Found(t, i + 1)
  }

  // ---- Neighbours that join -------------------------------------------------------------------

  /** A byte `d` behind the piece makes a comment of two bytes, or goes on with a quoted text. */
  predicate JoinsByte(p: Piece, d: char) {
    match p
    case Made(c) => (c == '-' && d == '-') || (c == '/' && d == '*')
    case Kept(r) => r != "" && d == r[0] && (d == '\'' || d == '"')
  }

  predicate Joins(p: Piece, q: Piece) { TextOf(q) != "" && JoinsByte(p, TextOf(q)[0]) }

  /** No two neighbours join. */
  predicate Apart(ps: seq<Piece>) { forall k :: 0 <= k < |ps| - 1 ==> !Joins(ps[k], ps[k + 1]) }

  // ---- A region in another text ---------------------------------------------------------------

  /** Both texts have the same `n` bytes here, and both or neither end behind them. */
  predicate Alike(s: string, j: nat, t: string, k: nat, n: nat) {
    && j + n <= |s| && k + n <= |t| && s[j..j + n] == t[k..k + n]
    && (j + n == |s| ==> k + n == |t|)
  }

  lemma AlikeBehind(s: string, j: nat, t: string, k: nat, n: nat, d: nat)
    requires Alike(s, j, t, k, n) && d <= n
    ensures Alike(s, j + d, t, k + d, n - d)
  {
    assert s[j + d..j + n] == s[j..j + n][d..] && t[k + d..k + n] == t[k..k + n][d..];
  }

  lemma AlikeByte(s: string, j: nat, t: string, k: nat, n: nat, d: nat)
    requires Alike(s, j, t, k, n) && d < n
    ensures s[j + d] == t[k + d]
  {
    assert s[j + d] == s[j..j + n][d] && t[k + d] == t[k..k + n][d];
  }

  /** How far the search for the closing quote goes at `j`; 0 if this is it. */
  function Move(q: char, escapes: bool, s: string, j: nat): (d: nat)
    requires j < |s|
    ensures d <= 2 && j + d <= |s|
  {
    if escapes && s[j] == '\\' && j + 1 < |s| then 2
    else if s[j] == q then (if j + 1 < |s| && s[j + 1] == q then 2 else 0)
    else 1
  }

  lemma SingleMoves(s: string, j: nat)
    requires j < |s|
    ensures var d := Move('\'', true, s, j);
            SingleEnd(s, j) == if d == 0 then j + 1 else SingleEnd(s, j + d)
  {
  }

  lemma DoubleMoves(s: string, j: nat)
    requires j < |s|
    ensures var d := Move('"', false, s, j);
            DoubleEnd(s, j) == if d == 0 then j + 1 else DoubleEnd(s, j + d)
  {
  }

  lemma SameMove(q: char, escapes: bool, s: string, j: nat, t: string, k: nat, n: nat)
    requires 0 < n && Alike(s, j, t, k, n)
    requires Move(q, escapes, s, j) <= n && (Move(q, escapes, s, j) == 0 ==> n == 1)
    ensures Move(q, escapes, s, j) > 0 ==> Move(q, escapes, t, k) == Move(q, escapes, s, j)
    ensures Move(q, escapes, s, j) == 0 ==> (Move(q, escapes, t, k) == 0 <==> k + 1 == |t| || t[k + 1] != q)
  {
    AlikeByte(s, j, t, k, n, 0);
    if n > 1 {
      AlikeByte(s, j, t, k, n, 1);
    }
  }

  lemma {:induction false} SingleIn(s: string, j: nat, t: string, k: nat, n: nat)
    requires Alike(s, j, t, k, n) && SingleEnd(s, j) == j + n
    ensures SingleEnd(t, k) == k + n <==> k + n == |t| || t[k + n] != '\''
    decreases n
  {
    if j < |s| {
      var d := Move('\'', true, s, j);
      SingleMoves(s, j);
      SameMove('\'', true, s, j, t, k, n);
      SingleMoves(t, k);
      if d > 0 {
        AlikeBehind(s, j, t, k, n, d);
        SingleIn(s, j + d, t, k + d, n - d);
      }
    }
  }

  lemma {:induction false} DoubleIn(s: string, j: nat, t: string, k: nat, n: nat)
    requires Alike(s, j, t, k, n) && DoubleEnd(s, j) == j + n
    ensures DoubleEnd(t, k) == k + n <==> k + n == |t| || t[k + n] != '"'
    decreases n
  {
    if j < |s| {
      var d := Move('"', false, s, j);
      DoubleMoves(s, j);
      SameMove('"', false, s, j, t, k, n);
      DoubleMoves(t, k);
      if d > 0 {
        AlikeBehind(s, j, t, k, n, d);
        DoubleIn(s, j + d, t, k + d, n - d);
      }
    }
  }

  lemma {:induction false} BackquoteIn(s: string, j: nat, t: string, k: nat, n: nat)
    requires Alike(s, j, t, k, n) && BackquoteEnd(s, j) == j + n
    ensures BackquoteEnd(t, k) == k + n
    decreases n
  {
    if n > 0 {
      AlikeByte(s, j, t, k, n, 0);
      if s[j] != '`' {
        AlikeBehind(s, j, t, k, n, 1);
        BackquoteIn(s, j + 1, t, k + 1, n - 1);
      }
    }
  }

  lemma {:induction false} LineIn(s: string, j: nat, t: string, k: nat, n: nat)
    requires Alike(s, j, t, k, n) && LineEnd(s, j) == j + n && (k + n < |t| ==> t[k + n] == '\n')
    ensures LineEnd(t, k) == k + n
    decreases n
  {
    if n > 0 {
      AlikeByte(s, j, t, k, n, 0);
      AlikeBehind(s, j, t, k, n, 1);
      LineIn(s, j + 1, t, k + 1, n - 1);
    }
  }

  lemma {:induction false} BlockIn(s: string, j: nat, t: string, k: nat, n: nat)
    requires Alike(s, j, t, k, n) && BlockEnd(s, j) == j + n
    ensures BlockEnd(t, k) == k + n
    decreases n
  {
    if j + 1 < |s| {
      AlikeByte(s, j, t, k, n, 0);
      AlikeByte(s, j, t, k, n, 1);
      if !(s[j] == '*' && s[j + 1] == '/') {
        AlikeBehind(s, j, t, k, n, 1);
        BlockIn(s, j + 1, t, k + 1, n - 1);
      }
    }
  }

  predicate IsQuoteByte(c: char) { c == '\'' || c == '"' || c == '`' }

  predicate IsLine(r: string) { |r| > 1 && r[0] == '-' && r[1] == '-' }

  /** The region ends where it does although a newline follows. */
  predicate IsWhole(r: string) { r != "" && RegionEnd(r + "\n", 0) == |r| }

  predicate IsLast(r: string) { r != "" && RegionEnd(r, 0) == |r| }

  lemma QuotedIn(s: string, j: nat, t: string, k: nat, n: nat)
    requires 0 < n && Alike(s, j, t, k, n) && RegionEnd(s, j) == j + n && IsQuoteByte(s[j])
    ensures RegionEnd(t, k) == k + n <==> k + n == |t| || t[k + n] != s[j] || s[j] == '`'
    ensures RegionEnd(t, k) > k
  {
    AlikeByte(s, j, t, k, n, 0);
    AlikeBehind(s, j, t, k, n, 1);
    if s[j] == '\'' {
      SingleIn(s, j + 1, t, k + 1, n - 1);
    } else if s[j] == '"' {
      DoubleIn(s, j + 1, t, k + 1, n - 1);
    } else {
      BackquoteIn(s, j + 1, t, k + 1, n - 1);
    }
  }

  lemma CommentIn(s: string, j: nat, t: string, k: nat, n: nat)
    requires 0 < n && Alike(s, j, t, k, n) && RegionEnd(s, j) == j + n && !IsQuoteByte(s[j])
    requires s[j] == '-' && k + n < |t| ==> t[k + n] == '\n'
    ensures RegionEnd(t, k) == k + n
  {
    AlikeByte(s, j, t, k, n, 0);
    AlikeByte(s, j, t, k, n, 1);
    AlikeBehind(s, j, t, k, n, 2);
    if s[j] == '-' {
      LineIn(s, j + 2, t, k + 2, n - 2);
    } else {
      BlockIn(s, j + 2, t, k + 2, n - 2);
    }
  }

  lemma CommentStarts(s: string, j: nat)
    requires j < |s| && RegionEnd(s, j) > j && s[j] == '-'
    ensures RegionEnd(s, j) >= j + 2 && s[j + 1] == '-'
  {
  }

  /** A region ends at the same byte elsewhere, unless its own quote follows. */
  lemma RegionIn(s: string, j: nat, t: string, k: nat, n: nat)
    requires 0 < n && Alike(s, j, t, k, n) && RegionEnd(s, j) == j + n
    requires IsLine(s[j..j + n]) && k + n < |t| ==> t[k + n] == '\n'
    ensures RegionEnd(t, k) == k + n <==> k + n == |t| || !JoinsByte(Kept(s[j..j + n]), t[k + n])
    ensures RegionEnd(t, k) > k
  {
    var r := s[j..j + n];
    assert r[0] == s[j];
    if IsQuoteByte(s[j]) {
      QuotedIn(s, j, t, k, n);
    } else {
      if s[j] == '-' {
        CommentStarts(s, j);
        assert r[1] == s[j + 1];
      }
      CommentIn(s, j, t, k, n);
    }
  }

  /** A region of a statement, on its own. */
  lemma RegionAlone(s: string, i: nat)
    requires i < |s| && RegionEnd(s, i) > i
    ensures var j := RegionEnd(s, i);
            IsLast(s[i..j]) && (j < |s| ==> IsWhole(s[i..j]) && (IsLine(s[i..j]) ==> s[j] == '\n'))
  {
    var j := RegionEnd(s, i);
    var r := s[i..j];
    assert r[..|r|] == r && (r + "\n")[..|r|] == r && r[0..|r|] == r;
    RegionIn(s, i, r, 0, |r|);
    if j < |s| {
      assert (r + "\n")[0..|r|] == r && (r + "\n")[|r|] == '\n';
      RegionIn(s, i, r + "\n", 0, |r|);
      assert IsLine(r) ==> s[i] == '-' && s[i + 1] == '-';
    }
  }

  // ---- Pieces that follow each other ----------------------------------------------------------

  predicate IsPiece(p: Piece) {
    match p
    case Made(c) => !IsQuoteByte(c)
    case Kept(r) => IsLast(r)
  }

  /** A region that something follows is closed, and a line comment is followed by its newline. */
  predicate MayPrecede(p: Piece, q: Piece) { p.Kept? ==> IsWhole(p.region) && (IsLine(p.region) ==> q == Made('\n')) }

  predicate IsSequel(ps: seq<Piece>) {
    && (forall k :: 0 <= k < |ps| ==> IsPiece(ps[k]))
    && (forall k :: 0 <= k < |ps| - 1 ==> MayPrecede(ps[k], ps[k + 1]))
  }

  /** The first piece joins not the next. */
  predicate HeadIsApart(p: Piece, qs: seq<Piece>) { qs != [] ==> !Joins(p, qs[0]) }

  lemma ApartBehind(ps: seq<Piece>)
    requires ps != []
    ensures Apart(ps) <==> HeadIsApart(ps[0], ps[1..]) && Apart(ps[1..])
  {
    if Apart(ps[1..]) && HeadIsApart(ps[0], ps[1..]) {
      forall k | 0 <= k < |ps| - 1 ensures !Joins(ps[k], ps[k + 1]) {
        if k > 0 {
          assert !Joins(ps[1..][k - 1], ps[1..][k]);
        }
      }
    }
  }

  // ---- Walking over the pieces ----------------------------------------------------------------

  lemma FlatHead(ps: seq<Piece>)
    requires ps != [] && IsPiece(ps[0])
    ensures Flat(ps) != "" && Flat(ps)[0] == TextOf(ps[0])[0]
  {
  }

  lemma CutHead(t: string, i: nat, x: string, rest: string)
    requires i <= |t| && t[i..] == x + rest
    ensures var j := i + |x|;
            j <= |t| && t[i..j] == x && t[j..] == rest
  {
    var j := i + |x|;
    assert |t| - i == |x| + |rest|;
    assert t[i..j] == t[i..][..|x|] && t[j..] == t[i..][|x|..];
  }

  lemma BehindPiece(t: string, i: nat, ps: seq<Piece>)
    requires i <= |t| && t[i..] == Flat(ps) && ps != [] && IsPiece(ps[0])
    ensures var j := i + |TextOf(ps[0])|;
            i < j <= |t| && t[i..j] == TextOf(ps[0]) && t[j..] == Flat(ps[1..])
  {
    CutHead(t, i, TextOf(ps[0]), Flat(ps[1..]));
  }

  lemma FirstOf(t: string, j: nat, qs: seq<Piece>)
    requires j <= |t| && t[j..] == Flat(qs) && qs != [] && IsPiece(qs[0])
    ensures j < |t| && TextOf(qs[0]) != "" && t[j] == TextOf(qs[0])[0]
  {
    FlatHead(qs);
    assert t[j] == t[j..][0];
  }

  lemma NoneBehind(t: string, j: nat, qs: seq<Piece>)
    requires j <= |t| && t[j..] == Flat(qs) && (qs != [] ==> IsPiece(qs[0]))
    ensures j == |t| <==> qs == []
  {
    if qs != [] {
      FirstOf(t, j, qs);
    }
  }

  /** The text behind the first piece starts with the second. */
  lemma NextByte(t: string, j: nat, p: Piece, qs: seq<Piece>)
    requires j <= |t| && t[j..] == Flat(qs) && (qs != [] ==> IsPiece(qs[0]))
    ensures j == |t| <==> qs == []
    ensures qs != [] ==> (JoinsByte(p, t[j]) <==> Joins(p, qs[0])) && (qs[0] == Made('\n') ==> t[j] == '\n')
  {
    NoneBehind(t, j, qs);
    if qs != [] {
      FirstOf(t, j, qs);
    }
  }

  lemma MadeIsQuietIff(t: string, i: nat, p: Piece, qs: seq<Piece>)
    requires i < |t| && p == Made(t[i]) && IsPiece(p) && t[i + 1..] == Flat(qs) && (qs != [] ==> IsPiece(qs[0]))
    ensures RegionEnd(t, i) == i <==> HeadIsApart(p, qs)
  {
    NextByte(t, i + 1, p, qs);
  }

  lemma KeptIsFoundIff(t: string, i: nat, j: nat, p: Piece, qs: seq<Piece>)
    requires i < j <= |t| && p == Kept(t[i..j]) && IsPiece(p) && t[j..] == Flat(qs)
    requires qs != [] ==> MayPrecede(p, qs[0]) && IsPiece(qs[0])
    ensures RegionEnd(t, i) > i && (RegionEnd(t, i) == j <==> HeadIsApart(p, qs))
  {
    var r := p.region;
    NextByte(t, j, p, qs);
    if qs == [] {
      assert r[0..|r|] == r;
      RegionIn(r, 0, t, i, |r|);
    } else {
      assert (r + "\n")[0..|r|] == r;
      RegionIn(r + "\n", 0, t, i, |r|);
    }
  }

  lemma {:induction false} SpansStart(ps: seq<Piece>, i: nat)
    ensures Spans(ps, i) != [] ==> Spans(ps, i)[0].start >= i
  {
    if ps != [] {
      SpansStart(ps[1..], i + |TextOf(ps[0])|);
    }
  }

  lemma SpansMore(ps: seq<Piece>, i: nat)
    requires ps != []
    ensures var j := i + |TextOf(ps[0])|;
            Spans(ps, i) == if ps[0].Kept? then [Span(i, j)] + Spans(ps[1..], j) else Spans(ps[1..], j)
  {
  }

  lemma FoundBehind(t: string, i: nat)
    requires i < |t|
    ensures RegionEnd(t, i) == i ==> Found(t, i) == Found(t, i + 1)
    ensures RegionEnd(t, i) > i ==> Found(t, i) != [] && Found(t, i)[0].start == i
  {
  }

  lemma MadeCompares(t: string, i: nat, ps: seq<Piece>)
    requires i < |t| && ps != [] && ps[0].Made?
    ensures Found(t, i) == Spans(ps, i) <==> RegionEnd(t, i) == i && Found(t, i + 1) == Spans(ps[1..], i + 1)
  {
    var rest := Spans(ps[1..], i + 1);
    assert Spans(ps, i) == rest by {
      SpansMore(ps, i);
    }
    SpansStart(ps[1..], i + 1);
    FoundBehind(t, i);
  }

  lemma MadeWalks(t: string, i: nat, ps: seq<Piece>)
    requires i < |t| && ps != [] && ps[0].Made? && (RegionEnd(t, i) == i <==> HeadIsApart(ps[0], ps[1..]))
    requires Found(t, i + 1) == Spans(ps[1..], i + 1) <==> Apart(ps[1..])
    ensures Found(t, i) == Spans(ps, i) <==> Apart(ps)
  {
    MadeCompares(t, i, ps);
    ApartBehind(ps);
  }

  lemma SameTail(a: Span, x: seq<Span>, b: Span, y: seq<Span>)
    ensures [a] + x == [b] + y <==> a == b && x == y
  {
    assert ([a] + x)[0] == a && ([b] + y)[0] == b && ([a] + x)[1..] == x && ([b] + y)[1..] == y;
  }

  lemma FoundMore(t: string, i: nat)
    requires i < |t| && RegionEnd(t, i) > i
    ensures Found(t, i) == [Span(i, RegionEnd(t, i))] + Found(t, RegionEnd(t, i))
  {
  }

  lemma KeptCompares(t: string, i: nat, j: nat, e: nat, ps: seq<Piece>)
    requires i < |t| && e == RegionEnd(t, i) > i && ps != [] && ps[0].Kept? && j == i + |ps[0].region|
    ensures Found(t, i) == Spans(ps, i) <==> e == j && Found(t, e) == Spans(ps[1..], j)
  {
    FoundMore(t, i);
    SpansMore(ps, i);
    SameTail(Span(i, e), Found(t, e), Span(i, j), Spans(ps[1..], j));
  }

  lemma KeptWalks(t: string, i: nat, j: nat, ps: seq<Piece>)
    requires i < j <= |t| && ps != [] && ps[0] == Kept(t[i..j])
    requires RegionEnd(t, i) > i && (RegionEnd(t, i) == j <==> HeadIsApart(ps[0], ps[1..]))
    requires Found(t, j) == Spans(ps[1..], j) <==> Apart(ps[1..])
    ensures Found(t, i) == Spans(ps, i) <==> Apart(ps)
  {
    KeptCompares(t, i, j, RegionEnd(t, i), ps);
    ApartBehind(ps);
  }

  lemma HeadFacts(ps: seq<Piece>)
    requires IsSequel(ps) && ps != []
    ensures IsPiece(ps[0]) && IsSequel(ps[1..]) && (ps[1..] != [] ==> IsPiece(ps[1..][0]) && MayPrecede(ps[0], ps[1..][0]))
  {
    if |ps| > 1 {
      assert MayPrecede(ps[0], ps[1]);
    }
  }

  lemma MadeStep(t: string, i: nat, ps: seq<Piece>)
    requires i < |t| && ps != [] && ps[0].Made? && IsSequel(ps) && t[i..i + 1] == [ps[0].byte] && t[i + 1..] == Flat(ps[1..])
    requires Found(t, i + 1) == Spans(ps[1..], i + 1) <==> Apart(ps[1..])
    ensures Found(t, i) == Spans(ps, i) <==> Apart(ps)
  {
    HeadFacts(ps);
    assert t[i] == t[i..i + 1][0];
    MadeIsQuietIff(t, i, ps[0], ps[1..]);
    MadeWalks(t, i, ps);
  }

  lemma KeptStep(t: string, i: nat, j: nat, ps: seq<Piece>)
    requires i < j <= |t| && ps != [] && ps[0] == Kept(t[i..j]) && IsSequel(ps) && t[j..] == Flat(ps[1..])
    requires Found(t, j) == Spans(ps[1..], j) <==> Apart(ps[1..])
    ensures Found(t, i) == Spans(ps, i) <==> Apart(ps)
  {
    HeadFacts(ps);
    KeptIsFoundIff(t, i, j, ps[0], ps[1..]);
    KeptWalks(t, i, j, ps);
  }

  lemma {:induction false} FoundIff(t: string, i: nat, ps: seq<Piece>)
    requires i <= |t| && t[i..] == Flat(ps) && IsSequel(ps)
    ensures Found(t, i) == Spans(ps, i) <==> Apart(ps)
    decreases |ps|
  {
    if ps == [] {
      assert i == |t|;
    } else {
      var j := i + |TextOf(ps[0])|;
      HeadFacts(ps);
      BehindPiece(t, i, ps);
      FoundIff(t, j, ps[1..]);
      if ps[0].Made? {
        MadeStep(t, i, ps);
      } else {
        KeptStep(t, i, j, ps);
      }
    }
  }
}
