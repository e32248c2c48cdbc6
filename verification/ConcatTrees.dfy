/** Expression trees, their BigQuery text, and how the scanner of CONCAT rewriting reads it. */
module ConcatTrees {
  import opened Text
  import opened Concat

  /** Leaves are names, numbers and quoted literals. `Chain` is the rewritten form of `Concat`. */
  datatype Expr =
    | Leaf(text: string)
    | Call(fn: string, args: Exprs)
    | Paren(inner: Expr)
    | Binary(left: Expr, op: string, right: Expr)
    | ConcatCall(args: Exprs)
    | Chain(args: Exprs)

  datatype Exprs = Nil | Cons(head: Expr, tail: Exprs)

  function Print(e: Expr): string {
    match e
    case Leaf(text) => text
    case Call(fn, args) => fn + ("(" + (PrintAll(args, ", ") + ")"))
    case Paren(inner) => "(" + (Print(inner) + ")")
    case Binary(l, op, r) => Print(l) + (" " + (op + (" " + Print(r))))
    case ConcatCall(args) => "CONCAT" + ("(" + (PrintAll(args, ", ") + ")"))
    case Chain(args) => "(" + (PrintAll(args, " || ") + ")")
  }

  function PrintAll(es: Exprs, sep: string): string {
    match es
    case Nil => ""
    case Cons(e, Nil) => Print(e)
    case Cons(e, tail) => Print(e) + (sep + PrintAll(tail, sep))
  }

  /** No parenthesis or comma outside quotes, and no quote left open. */
  predicate Quiet(text: string, i: nat, quote: Option<char>)
    requires i <= |text|
    decreases |text| - i
  {
    if i == |text| then quote.None?
    else if quote.Some? then Quiet(text, i + 1, if text[i] == quote.value then None else quote)
    else if IsQuote(text[i]) then Quiet(text, i + 1, Some(text[i]))
    else text[i] != '(' && text[i] != ')' && text[i] != ',' && Quiet(text, i + 1, None)
  }

  predicate Trimmed(x: string) { x != "" && !IsSpace(x[0]) && !IsSpace(x[|x| - 1]) }

  predicate IsWord(x: string) { x != "" && forall i :: 0 <= i < |x| ==> IsIdentByte(x[i]) }

  /** Leaves hold no `CONCAT(`, functions are not called CONCAT, and no operator ends in that word. */
  predicate WellFormed(e: Expr) {
    match e
    case Leaf(text) => Trimmed(text) && Quiet(text, 0, None) && FindConcat(text, 0).None?
    case Call(fn, args) => IsWord(fn) && !(|fn| == 6 && SpellsAt(fn, 0)) && AllWellFormed(args)
    case Paren(inner) => WellFormed(inner)
    case Binary(l, op, r) =>
      WellFormed(l) && WellFormed(r) &&
      Trimmed(op) && Quiet(op, 0, None) && FindConcat(op, 0).None? && FindConcat(op + " (", 0).None?
    case ConcatCall(args) => AllWellFormed(args)
    case Chain(args) => AllWellFormed(args)
  }

  predicate AllWellFormed(es: Exprs) { es.Cons? ==> WellFormed(es.head) && AllWellFormed(es.tail) }

  // ---- The argument scanner passes over a printed tree -------------------------------------------

  /** Reading from `i` to `j` leads from nesting `n`, inside `quote`, to nesting `m` outside quotes,
      without closing or cutting anything at nesting zero. */
  predicate Reads(q: string, i: nat, j: nat, n: nat, quote: Option<char>, m: nat)
    requires i <= j <= |q|
    decreases j - i
  {
    if i == j then quote.None? && n == m
    else if quote.Some? then Reads(q, i + 1, j, n, if q[i] == quote.value then None else quote, m)
    else if IsQuote(q[i]) then Reads(q, i + 1, j, n, Some(q[i]), m)
    else if q[i] == '(' then Reads(q, i + 1, j, n + 1, None, m)
    else if q[i] == ')' then n > 0 && Reads(q, i + 1, j, n - 1, None, m)
    else (q[i] == ',' ==> n > 0) && Reads(q, i + 1, j, n, None, m)
  }

  /** The scanner passes over whatever reads back to its own nesting. */
  lemma {:induction false} ScanReads(q: string, i: nat, j: nat, n: nat, quote: Option<char>, start: nat, args: seq<string>)
    requires start <= i <= j <= |q| && Reads(q, i, j, n, quote, 0)
    ensures Scan(q, 1 + n, quote, start, i, args) == Scan(q, 1, None, start, j, args)
    decreases j - i
  {
    if i < j {
      ScanIsByte(q, 1 + n, quote, start, i, args);
      if quote.Some? {
        ScanReads(q, i + 1, j, n, if q[i] == quote.value then None else quote, start, args);
      } else if IsQuote(q[i]) {
        ScanReads(q, i + 1, j, n, Some(q[i]), start, args);
      } else {
        ScanReads(q, i + 1, j, if q[i] == '(' then n + 1 else if q[i] == ')' then n - 1 else n, None, start, args);
      }
    }
  }

  lemma {:induction false} ReadsOn(q: string, i: nat, k: nat, j: nat, n: nat, quote: Option<char>, m: nat, p: nat)
    requires i <= k <= j <= |q| && Reads(q, i, k, n, quote, m) && Reads(q, k, j, m, None, p)
    ensures Reads(q, i, j, n, quote, p)
    decreases k - i
  {
    if i < k {
      if quote.Some? {
        ReadsOn(q, i + 1, k, j, n, if q[i] == quote.value then None else quote, m, p);
      } else if IsQuote(q[i]) {
        ReadsOn(q, i + 1, k, j, n, Some(q[i]), m, p);
      } else {
        ReadsOn(q, i + 1, k, j, if q[i] == '(' then n + 1 else if q[i] == ')' then n - 1 else n, None, m, p);
      }
    }
  }

  lemma {:induction false} ReadsQuiet(q: string, lo: nat, x: string, k: nat, quote: Option<char>, n: nat)
    requires At(q, lo, x) && k <= |x| && Quiet(x, k, quote)
    ensures Reads(q, lo + k, lo + |x|, n, quote, n)
    decreases |x| - k
  {
    if k < |x| {
      AtChar(q, lo, x, k);
      var quote' := if quote.Some? then (if x[k] == quote.value then None else quote)
                    else if IsQuote(x[k]) then Some(x[k]) else None;
      ReadsQuiet(q, lo, x, k + 1, quote', n);
    }
  }

  /** A byte the scanner passes over. */
  predicate Plain(c: char) { !IsQuote(c) && c != '(' && c != ')' && c != ',' }

  lemma {:induction false} PlainIsQuiet(x: string, k: nat)
    requires k <= |x| && forall i :: 0 <= i < |x| ==> Plain(x[i])
    ensures Quiet(x, k, None)
    decreases |x| - k
  {
    if k < |x| {
      PlainIsQuiet(x, k + 1);
    }
  }

  lemma ReadsPlain(q: string, lo: nat, x: string, n: nat)
    requires At(q, lo, x) && forall i :: 0 <= i < |x| ==> Plain(x[i])
    ensures Reads(q, lo, lo + |x|, n, None, n)
  {
    PlainIsQuiet(x, 0);
    ReadsQuiet(q, lo, x, 0, None, n);
  }

  lemma ReadsSeparator(q: string, lo: nat, sep: string, n: nat)
    requires At(q, lo, sep) && (sep == " || " || sep == " " || (sep == ", " && n > 0))
    ensures Reads(q, lo, lo + |sep|, n, None, n)
  {
    if sep == ", " {
      AtChar(q, lo, sep, 0);
      AtChar(q, lo, sep, 1);
    } else {
      ReadsPlain(q, lo, sep, n);
    }
  }

  lemma ReadsOpen(q: string, lo: nat, n: nat)
    requires At(q, lo, "(")
    ensures Reads(q, lo, lo + 1, n, None, n + 1)
  {
    AtChar(q, lo, "(", 0);
  }

  lemma ReadsClose(q: string, lo: nat, n: nat)
    requires At(q, lo, ")")
    ensures Reads(q, lo, lo + 1, n + 1, None, n)
  {
    AtChar(q, lo, ")", 0);
  }

  lemma ReadsBrackets(q: string, lo: nat, x: string, n: nat)
    requires At(q, lo, "(" + (x + ")")) && Reads(q, lo + 1, lo + 1 + |x|, n + 1, None, n + 1)
    ensures Reads(q, lo, lo + 2 + |x|, n, None, n)
  {
    AtSplit(q, lo, "(", x + ")");
    AtSplit(q, lo + 1, x, ")");
    ReadsOpen(q, lo, n);
    ReadsClose(q, lo + 1 + |x|, n);
    ReadsOn(q, lo, lo + 1, lo + 1 + |x|, n, None, n + 1, n + 1);
    ReadsOn(q, lo, lo + 1 + |x|, lo + 2 + |x|, n, None, n + 1, n);
  }

  /** Where the parts of a printed binary expression stand. */
  lemma BinaryAt(q: string, lo: nat, x: string, op: string, y: string)
    requires At(q, lo, x + (" " + (op + (" " + y))))
    ensures var i := lo + |x|;
            At(q, lo, x) && At(q, i, " ") && At(q, i + 1, op) && At(q, i + 1 + |op|, " ") && At(q, i + 2 + |op|, y)
  {
    var i := lo + |x|;
    AtSplit(q, lo, x, " " + (op + (" " + y)));
    AtSplit(q, i, " ", op + (" " + y));
    AtSplit(q, i + 1, op, " " + y);
    AtSplit(q, i + 1 + |op|, " ", y);
  }

  lemma BracketsAt(q: string, lo: nat, x: string)
    requires At(q, lo, "(" + (x + ")"))
    ensures At(q, lo, "(") && At(q, lo + 1, x) && At(q, lo + 1 + |x|, ")")
  {
    AtSplit(q, lo, "(", x + ")");
    AtSplit(q, lo + 1, x, ")");
  }

  /** A printed tree is read back to the nesting it started at. */
  lemma {:induction false} ReadsExpr(q: string, lo: nat, e: Expr, n: nat)
    requires WellFormed(e) && At(q, lo, Print(e))
    ensures Reads(q, lo, lo + |Print(e)|, n, None, n)
    decreases e, 1
  {
    match e
    case Leaf(text) => ReadsQuiet(q, lo, text, 0, None, n);
    case Call(fn, es) => ReadsNamed(q, lo, fn, es, n);
    case Paren(inner) =>
      BracketsAt(q, lo, Print(inner));
      ReadsExpr(q, lo + 1, inner, n + 1);
      ReadsBrackets(q, lo, Print(inner), n);
    case Binary(_, _, _) => ReadsBinary(q, lo, e, n);
    case ConcatCall(es) => ReadsNamed(q, lo, "CONCAT", es, n);
    case Chain(es) => ReadsGroup(q, lo, es, " || ", n);
  }

  lemma {:induction false} ReadsBinary(q: string, lo: nat, e: Expr, n: nat)
    requires e.Binary? && WellFormed(e) && At(q, lo, Print(e))
    ensures Reads(q, lo, lo + |Print(e)|, n, None, n)
    decreases e, 0
  {
    var op, x, y := e.op, Print(e.left), Print(e.right);
    var i := lo + |x|;
    BinaryAt(q, lo, x, op, y);
    ReadsExpr(q, lo, e.left, n);
    ReadsSeparator(q, i, " ", n);
    ReadsOn(q, lo, i, i + 1, n, None, n, n);
    ReadsQuiet(q, i + 1, op, 0, None, n);
    ReadsOn(q, lo, i + 1, i + 1 + |op|, n, None, n, n);
    ReadsSeparator(q, i + 1 + |op|, " ", n);
    ReadsOn(q, lo, i + 1 + |op|, i + 2 + |op|, n, None, n, n);
    ReadsExpr(q, i + 2 + |op|, e.right, n);
    ReadsOn(q, lo, i + 2 + |op|, i + 2 + |op| + |y|, n, None, n, n);
  }

  lemma {:induction false} ReadsNamed(q: string, lo: nat, fn: string, es: Exprs, n: nat)
    requires IsWord(fn) && AllWellFormed(es)
    requires At(q, lo, fn + ("(" + (PrintAll(es, ", ") + ")")))
    ensures Reads(q, lo, lo + |fn| + 2 + |PrintAll(es, ", ")|, n, None, n)
    decreases es, 2
  {
    AtSplit(q, lo, fn, "(" + (PrintAll(es, ", ") + ")"));
    ReadsPlain(q, lo, fn, n);
    ReadsGroup(q, lo + |fn|, es, ", ", n);
    ReadsOn(q, lo, lo + |fn|, lo + |fn| + 2 + |PrintAll(es, ", ")|, n, None, n, n);
  }

  lemma {:induction false} ReadsGroup(q: string, lo: nat, es: Exprs, sep: string, n: nat)
    requires AllWellFormed(es) && (sep == ", " || sep == " || ")
    requires At(q, lo, "(" + (PrintAll(es, sep) + ")"))
    ensures Reads(q, lo, lo + 2 + |PrintAll(es, sep)|, n, None, n)
    decreases es, 1
  {
    BracketsAt(q, lo, PrintAll(es, sep));
    ReadsExprs(q, lo + 1, es, sep, n + 1);
    ReadsBrackets(q, lo, PrintAll(es, sep), n);
  }

  lemma {:induction false} ReadsExprs(q: string, lo: nat, es: Exprs, sep: string, n: nat)
    requires AllWellFormed(es) && (sep == ", " || sep == " || ") && n > 0
    requires At(q, lo, PrintAll(es, sep))
    ensures Reads(q, lo, lo + |PrintAll(es, sep)|, n, None, n)
    decreases es, 0
  {
    if es.Cons? {
      if es.tail.Cons? {
        var rest, i := PrintAll(es.tail, sep), lo + |Print(es.head)|;
        AtSplit(q, lo, Print(es.head), sep + rest);
        AtSplit(q, i, sep, rest);
        ReadsExpr(q, lo, es.head, n);
        ReadsSeparator(q, i, sep, n);
        ReadsOn(q, lo, i, i + |sep|, n, None, n, n);
        ReadsExprs(q, i + |sep|, es.tail, sep, n);
        ReadsOn(q, lo, i + |sep|, i + |sep| + |rest|, n, None, n, n);
      } else {
        ReadsExpr(q, lo, es.head, n);
      }
    }
  }

  // ---- The arguments of a CONCAT are its printed arguments -----------------------------------------

  lemma {:induction false} PrintTrimmed(e: Expr)
    requires WellFormed(e)
    ensures Trimmed(Print(e))
  {
    if e.Binary? {
      PrintTrimmed(e.left);
      PrintTrimmed(e.right);
    }
  }

  function Texts(es: Exprs): seq<string> {
    match es
    case Nil => [""]
    case Cons(e, Nil) => [Print(e)]
    case Cons(e, tail) => [Print(e)] + Texts(tail)
  }

  lemma TrimOne(x: string)
    requires Trimmed(x)
    ensures TrimSpace(x) == x && TrimSpace(" " + x) == x
  {
    assert (" " + x)[1..] == x;
    assert TrimLeft(" " + x) == TrimLeft(x) == x;
  }

  /** The current argument, from its start to `i`, is the printed tree with at most a blank ahead. */
  lemma PieceIs(q: string, start: nat, lo: nat, e: Expr)
    requires WellFormed(e) && At(q, lo, Print(e))
    requires start == lo || (start + 1 == lo && q[start] == ' ')
    ensures Piece(q, start, lo + |Print(e)|) == Print(e)
  {
    PrintTrimmed(e);
    TrimOne(Print(e));
    AtSlice(q, lo, Print(e));
    if start < lo {
      assert q[start..lo + |Print(e)|] == " " + q[lo..lo + |Print(e)|];
    }
  }

  /** At a comma of the call itself one argument ends and the next begins. */
  lemma ScanComma(q: string, start: nat, i: nat, args: seq<string>)
    requires start <= i && At(q, i, ", ")
    ensures Scan(q, 1, None, start, i, args) == Scan(q, 1, None, i + 1, i + 2, args + [Piece(q, start, i)])
  {
    AtChar(q, i, ", ", 0);
    AtChar(q, i, ", ", 1);
    ScanIsByte(q, 1, None, start, i, args);
    ScanIsByte(q, 1, None, i + 1, i + 1, args + [Piece(q, start, i)]);
  }

  lemma ScanEnd(q: string, start: nat, i: nat, args: seq<string>)
    requires start <= i && At(q, i, ")")
    ensures Scan(q, 1, None, start, i, args) == Some(Args(i, args + [Piece(q, start, i)]))
  {
    AtChar(q, i, ")", 0);
    ScanIsByte(q, 1, None, start, i, args);
  }

  lemma ScanArgument(q: string, start: nat, lo: nat, e: Expr, args: seq<string>)
    requires WellFormed(e) && At(q, lo, Print(e))
    requires start == lo || (start + 1 == lo && q[start] == ' ')
    ensures var i := lo + |Print(e)|;
            Scan(q, 1, None, start, lo, args) == Scan(q, 1, None, start, i, args) && Piece(q, start, i) == Print(e)
  {
    ReadsExpr(q, lo, e, 0);
    ScanReads(q, lo, lo + |Print(e)|, 0, None, start, args);
    PieceIs(q, start, lo, e);
  }

  /** One argument and the separator behind it. */
  lemma ScanOne(q: string, start: nat, lo: nat, e: Expr, rest: string, args: seq<string>)
    requires WellFormed(e) && At(q, lo, Print(e) + (", " + rest))
    requires start == lo || (start + 1 == lo && q[start] == ' ')
    ensures var i := lo + |Print(e)|;
            At(q, i + 2, rest) && q[i + 1] == ' ' &&
            Scan(q, 1, None, start, lo, args) == Scan(q, 1, None, i + 1, i + 2, args + [Print(e)])
  {
    var i := lo + |Print(e)|;
    AtSplit(q, lo, Print(e), ", " + rest);
    AtSplit(q, i, ", ", rest);
    ScanArgument(q, start, lo, e, args);
    ScanComma(q, start, i, args);
    AtChar(q, i, ", ", 1);
  }

  lemma ScanNone(q: string, lo: nat, args: seq<string>)
    requires At(q, lo, ")")
    ensures Scan(q, 1, None, lo, lo, args) == Some(Args(lo, args + [""]))
  {
    assert q[lo..lo] == "";
    ScanEnd(q, lo, lo, args);
  }

  lemma ScanLast(q: string, start: nat, lo: nat, e: Expr, args: seq<string>)
    requires WellFormed(e) && At(q, lo, Print(e)) && At(q, lo + |Print(e)|, ")")
    requires start == lo || (start + 1 == lo && q[start] == ' ')
    ensures Scan(q, 1, None, start, lo, args) == Some(Args(lo + |Print(e)|, args + [Print(e)]))
  {
    ScanArgument(q, start, lo, e, args);
    ScanEnd(q, start, lo + |Print(e)|, args);
  }

  lemma {:induction false} ScanArguments(q: string, start: nat, lo: nat, es: Exprs, args: seq<string>)
    requires AllWellFormed(es) && At(q, lo, PrintAll(es, ", ")) && At(q, lo + |PrintAll(es, ", ")|, ")")
    requires start == lo || (start + 1 == lo && q[start] == ' ' && es.Cons?)
    ensures Scan(q, 1, None, start, lo, args) == Some(Args(lo + |PrintAll(es, ", ")|, args + Texts(es)))
    decreases es
  {
    match es
    case Nil => ScanNone(q, lo, args);
    case Cons(e, Nil) => ScanLast(q, start, lo, e, args);
    case Cons(e, tail) =>
      var i := lo + |Print(e)|;
      ScanOne(q, start, lo, e, PrintAll(tail, ", "), args);
      ScanArguments(q, i + 1, i + 2, tail, args + [Print(e)]);
      Assoc(args, [Print(e)], Texts(tail));
  }

  /** Joined with bars, the printed arguments are the printed chain. */
  lemma {:induction false} JoinTexts(es: Exprs)
    ensures |Texts(es)| >= 1 && (es.Cons? && es.tail.Cons? ==> |Texts(es)| >= 2)
    ensures Join(Texts(es), " || ") == PrintAll(es, " || ")
    ensures |Texts(es)| < 2 ==> Join(Texts(es), " ") == PrintAll(es, " || ")
  {
    if es.Cons? && es.tail.Cons? {
      JoinTexts(es.tail);
      assert Texts(es)[1..] == Texts(es.tail);
    }
  }
}
