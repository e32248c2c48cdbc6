/** Which parenthesis and which commas the argument splitter of CONCAT rewriting finds. */
module ConcatArgs {
  import opened Text
  import opened Concat

  /** Nesting depth and open quote between two bytes. */
  datatype Place = Place(depth: int, quote: Option<char>)

  function Pass(p: Place, c: char): Place {
    if p.quote.Some? then (if c == p.quote.value then p.(quote := None) else p)
    else if IsQuote(c) then p.(quote := Some(c))
    else if c == '(' then p.(depth := p.depth + 1)
    else if c == ')' then p.(depth := p.depth - 1)
    else p
  }

  /** The place before byte `i`, counted from the opening parenthesis at `open`. */
  function PlaceAt(q: string, open: nat, i: nat): Place
    requires open <= i <= |q|
  {
    if i == open then Place(0, None) else Pass(PlaceAt(q, open, i - 1), q[i - 1])
  }

  /** Byte `i` is `c`, outside quotes and inside the call's own parenthesis only. */
  predicate AtCallLevel(q: string, open: nat, i: nat, c: char) {
    open <= i < |q| && PlaceAt(q, open, i) == Place(1, None) && q[i] == c
  }

  predicate IsMatching(q: string, open: nat, end: nat) {
    AtCallLevel(q, open, end, ')') && forall k :: open <= k < end ==> !AtCallLevel(q, open, k, ')')
  }

  /** The opening parenthesis and the call's own commas before `i`, in order. */
  function Bounds(q: string, open: nat, i: nat): (b: seq<nat>)
    requires open <= i <= |q|
    ensures |b| > 0 && b[0] == open
    ensures forall k :: 0 <= k < |b| ==> open <= b[k] && (k > 0 ==> AtCallLevel(q, open, b[k], ',') && b[k] < i)
    ensures forall k :: 0 <= k < |b| - 1 ==> b[k] < b[k + 1]
  {
    if i == open then [open]
    else if AtCallLevel(q, open, i - 1, ',') then Bounds(q, open, i - 1) + [i - 1]
    else Bounds(q, open, i - 1)
  }

  /** The bounds miss none of the call's commas. */
  lemma {:induction false} BoundsAreAll(q: string, open: nat, i: nat, k: nat)
    requires open <= k < i <= |q| && AtCallLevel(q, open, k, ',')
    ensures k in Bounds(q, open, i)
    decreases i
  {
    if k < i - 1 {
      BoundsAreAll(q, open, i - 1, k);
    }
  }

  /** Argument `k` is the trimmed text between two neighbouring bounds. */
  ghost predicate IsPiece(q: string, bounds: seq<nat>, args: seq<string>, k: nat)
    requires k < |args| < |bounds|
  {
    bounds[k] < bounds[k + 1] <= |q| && args[k] == TrimSpace(q[bounds[k] + 1..bounds[k + 1]])
  }

  ghost predicate ArePieces(q: string, bounds: seq<nat>, args: seq<string>) {
    |bounds| == |args| + 1 && forall k :: 0 <= k < |args| ==> IsPiece(q, bounds, args, k)
  }

  lemma PiecesMore(q: string, bounds: seq<nat>, args: seq<string>, i: nat)
    requires ArePieces(q, bounds, args) && bounds[|args|] < i <= |q|
    ensures ArePieces(q, bounds + [i], args + [Piece(q, bounds[|args|] + 1, i)])
  {
    var more, all := args + [Piece(q, bounds[|args|] + 1, i)], bounds + [i];
    forall k | 0 <= k < |more| ensures IsPiece(q, all, more, k) {
      if k < |args| {
        assert IsPiece(q, bounds, args, k);
      }
    }
  }

  ghost predicate IsSplit(q: string, open: nat, r: Option<Args>)
    requires open < |q|
  {
    if r.None? then forall k :: open <= k < |q| ==> !AtCallLevel(q, open, k, ')')
    else
      && IsMatching(q, open, r.value.end)
      && ArePieces(q, Bounds(q, open, r.value.end) + [r.value.end], r.value.args)
  }

  /** The splitter's state before byte `i`. */
  ghost predicate Reaches(q: string, open: nat, i: nat, start: nat, args: seq<string>) {
    && open < i <= |q| && ArePieces(q, Bounds(q, open, i), args)
    && start == Bounds(q, open, i)[|args|] + 1 && start <= i
    && forall k :: open <= k < i ==> !AtCallLevel(q, open, k, ')')
  }

  function ScanAt(q: string, open: nat, i: nat, start: nat, args: seq<string>): Option<Args>
    requires open <= i <= |q| && start <= i
  {
    Scan(q, PlaceAt(q, open, i).depth, PlaceAt(q, open, i).quote, start, i, args)
  }

  lemma ScanPasses(q: string, open: nat, i: nat, start: nat, args: seq<string>)
    requires open <= i < |q| && start <= i && !AtCallLevel(q, open, i, ',') && !AtCallLevel(q, open, i, ')')
    ensures ScanAt(q, open, i, start, args) == ScanAt(q, open, i + 1, start, args)
  {
    ScanIsByte(q, PlaceAt(q, open, i).depth, PlaceAt(q, open, i).quote, start, i, args);
  }

  lemma ScanCuts(q: string, open: nat, i: nat, start: nat, args: seq<string>)
    requires open <= i < |q| && start <= i && AtCallLevel(q, open, i, ',')
    ensures ScanAt(q, open, i, start, args) == ScanAt(q, open, i + 1, i + 1, args + [Piece(q, start, i)])
  {
    ScanIsByte(q, PlaceAt(q, open, i).depth, PlaceAt(q, open, i).quote, start, i, args);
  }

  lemma ScanCloses(q: string, open: nat, i: nat, start: nat, args: seq<string>)
    requires open <= i < |q| && start <= i && AtCallLevel(q, open, i, ')')
    ensures ScanAt(q, open, i, start, args) == Some(Args(i, args + [Piece(q, start, i)]))
  {
    ScanIsByte(q, PlaceAt(q, open, i).depth, PlaceAt(q, open, i).quote, start, i, args);
  }

  lemma ReachesPast(q: string, open: nat, i: nat, start: nat, args: seq<string>)
    requires Reaches(q, open, i, start, args) && i < |q|
    requires !AtCallLevel(q, open, i, ',') && !AtCallLevel(q, open, i, ')')
    ensures Reaches(q, open, i + 1, start, args)
  {
  }

  lemma ReachesComma(q: string, open: nat, i: nat, start: nat, args: seq<string>)
    requires Reaches(q, open, i, start, args) && i < |q| && AtCallLevel(q, open, i, ',')
    ensures Reaches(q, open, i + 1, i + 1, args + [Piece(q, start, i)])
  {
    PiecesMore(q, Bounds(q, open, i), args, i);
  }

  lemma ReachesEnd(q: string, open: nat, i: nat, start: nat, args: seq<string>)
    requires Reaches(q, open, i, start, args) && i < |q| && AtCallLevel(q, open, i, ')')
    ensures IsSplit(q, open, Some(Args(i, args + [Piece(q, start, i)])))
  {
    PiecesMore(q, Bounds(q, open, i), args, i);
  }

  lemma {:induction false} ScanSplits(q: string, open: nat, i: nat, start: nat, args: seq<string>)
    requires Reaches(q, open, i, start, args)
    ensures IsSplit(q, open, ScanAt(q, open, i, start, args))
    decreases |q| - i
  {
    if i < |q| {
      if AtCallLevel(q, open, i, ')') {
        ReachesEnd(q, open, i, start, args);
        ScanCloses(q, open, i, start, args);
      } else if AtCallLevel(q, open, i, ',') {
        ReachesComma(q, open, i, start, args);
        ScanCuts(q, open, i, start, args);
        ScanSplits(q, open, i + 1, i + 1, args + [Piece(q, start, i)]);
      } else {
        ReachesPast(q, open, i, start, args);
        ScanPasses(q, open, i, start, args);
        ScanSplits(q, open, i + 1, start, args);
      }
    }
  }

  /** The splitter ends at the parenthesis that matches the opening one, or finds that there is none;
      its arguments are the texts between the call's own commas. */
  lemma SplitIsTopLevel(q: string, open: nat)
    requires open < |q| && q[open] == '('
    ensures IsSplit(q, open, SplitArgs(q, open))
  {
    assert PlaceAt(q, open, open + 1) == Place(1, None);
    assert Bounds(q, open, open + 1) == [open];
    SplitStarts(q, open);
    ScanSplits(q, open, open + 1, open + 1, []);
  }
}
