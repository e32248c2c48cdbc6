/** CONCAT rewriting on printed trees: it turns every CONCAT into a chain, and nothing else. */
module ConcatTheorems {
  import opened Text
  import opened Concat
  import opened ConcatTrees

  // ---- The first CONCAT of a tree, in the order of the text ----------------------------------

  predicate HasConcat(e: Expr) {
    match e
    case Leaf(_) => false
    case Call(_, args) => AnyConcat(args)
    case Paren(inner) => HasConcat(inner)
    case Binary(l, _, r) => HasConcat(l) || HasConcat(r)
    case ConcatCall(_) => true
    case Chain(args) => AnyConcat(args)
  }

  predicate AnyConcat(es: Exprs) { es.Cons? && (HasConcat(es.head) || AnyConcat(es.tail)) }

  /** How far into the printed tree the first CONCAT is; the whole length if there is none. */
  function FirstAt(e: Expr): nat {
    match e
    case Leaf(text) => |text|
    case Call(fn, args) => if AnyConcat(args) then |fn| + 1 + FirstAmong(args, ", ") else |Print(e)|
    case Paren(inner) => if HasConcat(inner) then 1 + FirstAt(inner) else |Print(e)|
    case Binary(l, op, r) =>
      if HasConcat(l) then FirstAt(l)
      else if HasConcat(r) then |Print(l)| + |op| + 2 + FirstAt(r)
      else |Print(e)|
    case ConcatCall(_) => 0
    case Chain(args) => if AnyConcat(args) then 1 + FirstAmong(args, " || ") else |Print(e)|
  }

  function FirstAmong(es: Exprs, sep: string): nat {
    match es
    case Nil => 0
    case Cons(e, tail) =>
      if HasConcat(e) then FirstAt(e)
      else if AnyConcat(tail) then |Print(e)| + |sep| + FirstAmong(tail, sep)
      else |PrintAll(es, sep)|
  }

  function FirstArgs(e: Expr): Exprs
    requires HasConcat(e)
  {
    match e
    case Call(_, args) => FirstArgsAmong(args)
    case Paren(inner) => FirstArgs(inner)
    case Binary(l, _, r) => if HasConcat(l) then FirstArgs(l) else FirstArgs(r)
    case ConcatCall(args) => args
    case Chain(args) => FirstArgsAmong(args)
  }

  function FirstArgsAmong(es: Exprs): Exprs
    requires AnyConcat(es)
  {
    if HasConcat(es.head) then FirstArgs(es.head) else FirstArgsAmong(es.tail)
  }

  /** The tree with its first CONCAT made a chain. */
  function Convert(e: Expr): Expr
    requires HasConcat(e)
  {
    match e
    case Call(fn, args) => Call(fn, ConvertAmong(args))
    case Paren(inner) => Paren(Convert(inner))
    case Binary(l, op, r) => if HasConcat(l) then Binary(Convert(l), op, r) else Binary(l, op, Convert(r))
    case ConcatCall(args) => Chain(args)
    case Chain(args) => Chain(ConvertAmong(args))
  }

  function ConvertAmong(es: Exprs): Exprs
    requires AnyConcat(es)
  {
    if HasConcat(es.head) then Cons(Convert(es.head), es.tail) else Cons(es.head, ConvertAmong(es.tail))
  }

  // ---- No match before it --------------------------------------------------------------------

  ghost predicate NoMatch(q: string, lo: nat, hi: nat) { forall i :: lo <= i < hi ==> !MatchAt(q, i) }

  /** What follows `hi` can neither continue a word nor be an opening parenthesis. */
  predicate Barrier(q: string, hi: nat)
    requires hi <= |q|
  {
    OpenAfter(q, hi).None? && (hi < |q| ==> !IsIdentByte(q[hi]))
  }

  predicate LeftEdge(q: string, lo: nat)
    requires lo <= |q|
  {
    lo == 0 || !IsIdentByte(q[lo - 1])
  }

  lemma {:induction false} OpenSkips(q: string, i: nat, k: nat)
    requires i <= k <= |q| && OpenAfter(q, i).Some? && k <= OpenAfter(q, i).value
    ensures OpenAfter(q, k) == OpenAfter(q, i)
    ensures i < k ==> IsBlank(q[k - 1])
    decreases k - i
  {
    if i < k {
      OpenSkips(q, i + 1, k);
    }
  }

  lemma {:induction false} OpenWithin(q: string, lo: nat, x: string, i: nat)
    requires At(q, lo, x) && i <= |x| && OpenAfter(q, lo + i).Some? && OpenAfter(q, lo + i).value < lo + |x|
    ensures OpenAfter(x, i).Some?
    decreases |x| - i
  {
    AtChar(q, lo, x, i);
    if x[i] != '(' {
      OpenWithin(q, lo, x, i + 1);
    }
  }

  lemma SpellsWithin(q: string, lo: nat, x: string, i: nat)
    requires At(q, lo, x) && i + 6 <= |x|
    ensures SpellsAt(q, lo + i) == SpellsAt(x, i)
  {
    assert forall k :: i <= k < i + 6 ==> q[lo + k] == x[k];
  }

  /** A match whose parenthesis lies in `x` is a match of `x`. */
  lemma MatchWithin(q: string, lo: nat, x: string, i: nat)
    requires At(q, lo, x) && MatchAt(q, lo + i) && OpenAfter(q, lo + i + 6).value < lo + |x|
    ensures i + 6 <= |x| && MatchAt(x, i)
  {
    SpellsWithin(q, lo, x, i);
    OpenWithin(q, lo, x, i + 6);
    if i > 0 {
      AtChar(q, lo, x, i - 1);
    }
  }

  lemma LettersAreWord(q: string, i: nat, k: nat)
    requires SpellsAt(q, i) && i <= k < i + 6
    ensures IsIdentByte(q[k])
  {
  }

  /** A match that starts in trimmed text and opens beyond it has a parenthesis right after it. */
  lemma MatchBeyond(q: string, lo: nat, x: string, i: nat)
    requires At(q, lo, x) && Trimmed(x) && lo <= i < lo + |x| && MatchAt(q, i)
    requires OpenAfter(q, i + 6).value >= lo + |x|
    ensures !Barrier(q, lo + |x|)
  {
    var hi := lo + |x|;
    AtChar(q, lo, x, |x| - 1);
    if i + 6 > hi {
      LettersAreWord(q, i, hi);
    } else {
      OpenSkips(q, i + 6, hi);
    }
  }

  lemma LeafNoMatch(q: string, lo: nat, x: string)
    requires At(q, lo, x) && Trimmed(x) && FindConcat(x, 0).None? && Barrier(q, lo + |x|)
    ensures NoMatch(q, lo, lo + |x|)
  {
    forall i | lo <= i < lo + |x|
      ensures !MatchAt(q, i)
    {
      if MatchAt(q, i) {
        if OpenAfter(q, i + 6).value < lo + |x| {
          MatchWithin(q, lo, x, i - lo);
        } else {
          MatchBeyond(q, lo, x, i);
        }
      }
    }
  }

  lemma OpNoMatch(q: string, lo: nat, op: string, y: string)
    requires At(q, lo, op) && At(q, lo + |op|, " ") && At(q, lo + |op| + 1, y) && Trimmed(y)
    requires Trimmed(op) && FindConcat(op, 0).None? && FindConcat(op + " (", 0).None?
    ensures NoMatch(q, lo, lo + |op| + 1)
  {
    var hi := lo + |op|;
    AtChar(q, hi, " ", 0);
    AtChar(q, hi + 1, y, 0);
    if y[0] == '(' {
      var x := op + " (";
      assert At(q, lo, x);
      forall i | lo <= i < hi
        ensures !MatchAt(q, i)
      {
        if MatchAt(q, i) {
          OpMatchWithin(q, lo, x, i);
        }
      }
    } else {
      LeafNoMatch(q, lo, op);
    }
  }

  lemma OpMatchWithin(q: string, lo: nat, x: string, i: nat)
    requires At(q, lo, x) && |x| >= 2 && x[|x| - 2] == ' ' && x[|x| - 1] == '('
    requires lo <= i < lo + |x| - 2 && MatchAt(q, i)
    ensures MatchAt(x, i - lo)
  {
    var hi := lo + |x| - 2;
    AtChar(q, lo, x, |x| - 2);
    AtChar(q, lo, x, |x| - 1);
    if i + 6 > hi {
      LettersAreWord(q, i, hi);
    } else {
      if OpenAfter(q, i + 6).value >= lo + |x| {
        OpenSkips(q, i + 6, lo + |x|);
      }
      MatchWithin(q, lo, x, i - lo);
    }
  }

  /** A function name other than CONCAT, before its parenthesis, is no match. */
  lemma NameIsNoMatch(q: string, lo: nat, fn: string)
    requires At(q, lo, fn) && IsWord(fn) && !(|fn| == 6 && SpellsAt(fn, 0)) && At(q, lo + |fn|, "(")
    ensures !MatchAt(q, lo)
  {
    AtChar(q, lo + |fn|, "(", 0);
    if |fn| == 6 {
      SpellsWithin(q, lo, fn, 0);
    } else if |fn| > 6 {
      AtChar(q, lo, fn, 6);
    }
  }

  lemma WordNoMatch(q: string, lo: nat, fn: string)
    requires At(q, lo, fn) && IsWord(fn) && !(|fn| == 6 && SpellsAt(fn, 0)) && At(q, lo + |fn|, "(")
    ensures NoMatch(q, lo, lo + |fn| + 1)
  {
    NameIsNoMatch(q, lo, fn);
    AtChar(q, lo + |fn|, "(", 0);
    forall i | lo < i < lo + |fn|
      ensures !MatchAt(q, i)
    {
      AtChar(q, lo, fn, i - 1 - lo);
    }
  }

  lemma SeparatorNoMatch(q: string, lo: nat, sep: string)
    requires At(q, lo, sep) && forall k :: 0 <= k < |sep| ==> Breaks(sep[k])
    ensures NoMatch(q, lo, lo + |sep|)
  {
    forall i | lo <= i < lo + |sep|
      ensures !MatchAt(q, i)
    {
      AtChar(q, lo, sep, i - lo);
    }
  }

  lemma SeparatorIsBarrier(q: string, lo: nat, sep: string)
    requires At(q, lo, sep) && (sep == ", " || sep == " || " || sep == ")")
    ensures Barrier(q, lo)
  {
    AtChar(q, lo, sep, 0);
    if sep == " || " {
      AtChar(q, lo, sep, 1);
    }
  }

  lemma OpIsBarrier(q: string, lo: nat, op: string)
    requires At(q, lo, " ") && At(q, lo + 1, op) && Trimmed(op) && Quiet(op, 0, None)
    ensures Barrier(q, lo)
  {
    AtChar(q, lo, " ", 0);
    AtChar(q, lo + 1, op, 0);
  }

  lemma NoMatchOn(q: string, lo: nat, mid: nat, hi: nat)
    requires NoMatch(q, lo, mid) && NoMatch(q, mid, hi)
    ensures NoMatch(q, lo, hi)
  {
  }

  lemma ParenEdges(q: string, open: nat, close: nat)
    requires At(q, open, "(") && At(q, close, ")")
    ensures NoMatch(q, open, open + 1) && LeftEdge(q, open + 1)
    ensures Barrier(q, close) && NoMatch(q, close, close + 1)
  {
    SeparatorNoMatch(q, open, "(");
    AtChar(q, open, "(", 0);
    SeparatorIsBarrier(q, close, ")");
    SeparatorNoMatch(q, close, ")");
  }

  lemma {:induction false} CallQuiet(q: string, lo: nat, fn: string, args: Exprs)
    requires IsWord(fn) && !(|fn| == 6 && SpellsAt(fn, 0)) && AllWellFormed(args)
    requires At(q, lo, fn + ("(" + (PrintAll(args, ", ") + ")")))
    ensures NoMatch(q, lo, lo + |fn| + 1 + if AnyConcat(args) then FirstAmong(args, ", ") else |PrintAll(args, ", ")| + 1)
    decreases args, 2
  {
    AtSplit(q, lo, fn, "(" + (PrintAll(args, ", ") + ")"));
    BracketsAt(q, lo + |fn|, PrintAll(args, ", "));
    WordNoMatch(q, lo, fn);
    GroupQuiet(q, lo + |fn|, args, ", ");
    NoMatchOn(q, lo, lo + |fn| + 1, lo + |fn| + 1 + if AnyConcat(args) then FirstAmong(args, ", ") else |PrintAll(args, ", ")| + 1);
  }

  /** Up to its first CONCAT, or its end, a printed tree holds no match. */
  lemma {:induction false} QuietBefore(q: string, lo: nat, e: Expr)
    requires WellFormed(e) && At(q, lo, Print(e)) && LeftEdge(q, lo) && Barrier(q, lo + |Print(e)|)
    ensures NoMatch(q, lo, lo + FirstAt(e))
    decreases e, 1
  {
    match e
    case Leaf(text) => LeafNoMatch(q, lo, text);
    case Call(fn, args) => CallQuiet(q, lo, fn, args);
    case Paren(inner) =>
      BracketsAt(q, lo, Print(inner));
      ParenEdges(q, lo, lo + 1 + |Print(inner)|);
      QuietBefore(q, lo + 1, inner);
    case Binary(_, _, _) => BinaryQuiet(q, lo, e);
    case ConcatCall(_) =>
    case Chain(args) =>
      BracketsAt(q, lo, PrintAll(args, " || "));
      SeparatorNoMatch(q, lo, "(");
      GroupQuiet(q, lo, args, " || ");
  }

  lemma {:induction false} BinaryQuiet(q: string, lo: nat, e: Expr)
    requires e.Binary? && WellFormed(e) && At(q, lo, Print(e)) && LeftEdge(q, lo) && Barrier(q, lo + |Print(e)|)
    ensures NoMatch(q, lo, lo + FirstAt(e))
    decreases e, 0
  {
    var op, x, y := e.op, Print(e.left), Print(e.right);
    var i := lo + |x|;
    BinaryAt(q, lo, x, op, y);
    OpIsBarrier(q, i, op);
    QuietBefore(q, lo, e.left);
    if !HasConcat(e.left) {
      NoConcatWholeLength(e.left);
      SeparatorNoMatch(q, i, " ");
      NoMatchOn(q, lo, i, i + 1);
      PrintTrimmed(e.right);
      OpNoMatch(q, i + 1, op, y);
      NoMatchOn(q, lo, i + 1, i + 2 + |op|);
      AtChar(q, i + 1 + |op|, " ", 0);
      QuietBefore(q, i + 2 + |op|, e.right);
      NoConcatWholeLength(e.right);
      NoMatchOn(q, lo, i + 2 + |op|, lo + FirstAt(e));
    }
  }

  lemma NoConcatWholeLength(e: Expr)
    ensures !HasConcat(e) ==> FirstAt(e) == |Print(e)|
  {
  }

  /** Inside brackets, from after the opening one: up to the first CONCAT, or past the closing one. */
  lemma {:induction false} GroupQuiet(q: string, lo: nat, es: Exprs, sep: string)
    requires AllWellFormed(es) && (sep == ", " || sep == " || ")
    requires At(q, lo, "(") && At(q, lo + 1, PrintAll(es, sep)) && At(q, lo + 1 + |PrintAll(es, sep)|, ")")
    ensures NoMatch(q, lo + 1, lo + 1 + if AnyConcat(es) then FirstAmong(es, sep) else |PrintAll(es, sep)| + 1)
    decreases es, 1
  {
    var end := lo + 1 + |PrintAll(es, sep)|;
    AtChar(q, lo, "(", 0);
    SeparatorIsBarrier(q, end, ")");
    SeparatorNoMatch(q, end, ")");
    ListQuiet(q, lo + 1, es, sep);
  }

  /** The separator behind an argument without CONCAT. */
  lemma SeparatorQuiet(q: string, lo: nat, i: nat, sep: string)
    requires (sep == ", " || sep == " || ") && lo <= i && At(q, i, sep) && NoMatch(q, lo, i)
    ensures NoMatch(q, lo, i + |sep|) && LeftEdge(q, i + |sep|)
  {
    SeparatorNoMatch(q, i, sep);
    NoMatchOn(q, lo, i, i + |sep|);
    AtChar(q, i, sep, |sep| - 1);
  }

  lemma ListParts(q: string, lo: nat, es: Exprs, sep: string)
    requires es.Cons? && es.tail.Cons? && At(q, lo, PrintAll(es, sep))
    ensures var i := lo + |Print(es.head)|;
            At(q, lo, Print(es.head)) && At(q, i, sep) && At(q, i + |sep|, PrintAll(es.tail, sep))
  {
    AtThree(q, lo, Print(es.head), sep, PrintAll(es.tail, sep));
  }

  lemma AtThree(q: string, lo: nat, x: string, sep: string, y: string)
    requires At(q, lo, x + (sep + y))
    ensures At(q, lo, x) && At(q, lo + |x|, sep) && At(q, lo + |x| + |sep|, y)
  {
    AtSplit(q, lo, x, sep + y);
    AtSplit(q, lo + |x|, sep, y);
  }

  lemma {:induction false} ListQuiet(q: string, lo: nat, es: Exprs, sep: string)
    requires AllWellFormed(es) && (sep == ", " || sep == " || ") && At(q, lo, PrintAll(es, sep))
    requires LeftEdge(q, lo) && Barrier(q, lo + |PrintAll(es, sep)|)
    ensures NoMatch(q, lo, lo + if AnyConcat(es) then FirstAmong(es, sep) else |PrintAll(es, sep)|)
    decreases es, 0
  {
    if es.Cons? {
      var i := lo + |Print(es.head)|;
      NoConcatWholeLength(es.head);
      if es.tail.Nil? {
        QuietBefore(q, lo, es.head);
      } else {
        ListParts(q, lo, es, sep);
        SeparatorIsBarrier(q, i, sep);
        QuietBefore(q, lo, es.head);
        if !HasConcat(es.head) {
          SeparatorQuiet(q, lo, i, sep);
          ListQuiet(q, i + |sep|, es.tail, sep);
        }
      }
    }
  }

  // ---- One turn converts the first CONCAT ------------------------------------------------------

  /** `text` is the printed CONCAT between `pre` and `post`; `result` has the printed chain there. */
  ghost predicate Converts(text: string, pre: string, post: string, args: Exprs, result: string) {
    text == pre + (Print(ConcatCall(args)) + post) && result == pre + (Print(Chain(args)) + post)
  }

  lemma ConvertsLeft(a: string, b: string, pre: string, post: string, args: Exprs, r: string)
    requires Converts(a, pre, post, args, r)
    ensures Converts(a + b, pre, post + b, args, r + b)
  {
    var x, y := Print(ConcatCall(args)), Print(Chain(args));
    Assoc(pre, x + post, b);
    Assoc(x, post, b);
    Assoc(pre, y + post, b);
    Assoc(y, post, b);
  }

  lemma ConvertsRight(a: string, b: string, pre: string, post: string, args: Exprs, r: string)
    requires Converts(b, pre, post, args, r)
    ensures Converts(a + b, a + pre, post, args, a + r)
  {
    Assoc(a, pre, Print(ConcatCall(args)) + post);
    Assoc(a, pre, Print(Chain(args)) + post);
  }

  lemma ConvertsBrackets(x: string, pre: string, post: string, args: Exprs, r: string)
    requires Converts(x, pre, post, args, r)
    ensures Converts("(" + (x + ")"), "(" + pre, post + ")", args, "(" + (r + ")"))
  {
    ConvertsLeft(x, ")", pre, post, args, r);
    ConvertsRight("(", x + ")", pre, post + ")", args, r + ")");
  }

  lemma ConvertsOperand(x: string, op: string, y: string, pre: string, post: string, args: Exprs, r: string)
    returns (pre': string)
    requires Converts(y, pre, post, args, r)
    ensures Converts(x + (" " + (op + (" " + y))), pre', post, args, x + (" " + (op + (" " + r))))
    ensures |pre'| == |x| + |op| + 2 + |pre|
  {
    ConvertsRight(" ", y, pre, post, args, r);
    ConvertsRight(op, " " + y, " " + pre, post, args, " " + r);
    ConvertsRight(" ", op + (" " + y), op + (" " + pre), post, args, op + (" " + r));
    ConvertsRight(x, " " + (op + (" " + y)), " " + (op + (" " + pre)), post, args, " " + (op + (" " + r)));
    pre' := x + (" " + (op + (" " + pre)));
  }

  lemma {:induction false} ConvertPrints(e: Expr) returns (pre: string, post: string)
    requires HasConcat(e)
    ensures Converts(Print(e), pre, post, FirstArgs(e), Print(Convert(e))) && |pre| == FirstAt(e)
    decreases e, 1
  {
    match e
    case Call(fn, args) =>
      pre, post := ConvertListPrints(args, ", ");
      var x, r := PrintAll(args, ", "), PrintAll(ConvertAmong(args), ", ");
      ConvertsBrackets(x, pre, post, FirstArgs(e), r);
      ConvertsRight(fn, "(" + (x + ")"), "(" + pre, post + ")", FirstArgs(e), "(" + (r + ")"));
      pre, post := fn + ("(" + pre), post + ")";
    case Paren(inner) =>
      pre, post := ConvertPrints(inner);
      ConvertsBrackets(Print(inner), pre, post, FirstArgs(e), Print(Convert(inner)));
      pre, post := "(" + pre, post + ")";
    case Binary(l, op, r) =>
      if HasConcat(l) {
        pre, post := ConvertPrints(l);
        var rest := " " + (op + (" " + Print(r)));
        ConvertsLeft(Print(l), rest, pre, post, FirstArgs(e), Print(Convert(l)));
        post := post + rest;
      } else {
        pre, post := ConvertPrints(r);
        pre := ConvertsOperand(Print(l), op, Print(r), pre, post, FirstArgs(e), Print(Convert(r)));
      }
    case ConcatCall(args) => pre, post := "", "";
    case Chain(args) =>
      pre, post := ConvertListPrints(args, " || ");
      ConvertsBrackets(PrintAll(args, " || "), pre, post, FirstArgs(e), PrintAll(ConvertAmong(args), " || "));
      pre, post := "(" + pre, post + ")";
  }

  lemma {:induction false} ConvertListPrints(es: Exprs, sep: string) returns (pre: string, post: string)
    requires AnyConcat(es)
    ensures Converts(PrintAll(es, sep), pre, post, FirstArgsAmong(es), PrintAll(ConvertAmong(es), sep))
    ensures |pre| == FirstAmong(es, sep)
    decreases es, 0
  {
    var x, c := Print(es.head), FirstArgsAmong(es);
    if HasConcat(es.head) {
      pre, post := ConvertPrints(es.head);
      if es.tail.Cons? {
        var rest := sep + PrintAll(es.tail, sep);
        ConvertsLeft(x, rest, pre, post, c, Print(Convert(es.head)));
        post := post + rest;
      }
    } else {
      pre, post := ConvertListPrints(es.tail, sep);
      var rest, r := PrintAll(es.tail, sep), PrintAll(ConvertAmong(es.tail), sep);
      ConvertsRight(sep, rest, pre, post, c, r);
      ConvertsRight(x, sep + rest, sep + pre, post, c, sep + r);
      pre := x + (sep + pre);
    }
  }

  /** The first CONCAT of a tree starts at a word boundary of the whole text. */
  lemma {:induction false} FirstHasEdge(q: string, lo: nat, e: Expr)
    requires HasConcat(e) && At(q, lo, Print(e)) && LeftEdge(q, lo)
    ensures FirstAt(e) <= |Print(e)| && LeftEdge(q, lo + FirstAt(e))
    decreases e, 1
  {
    match e
    case Call(fn, args) =>
      AtSplit(q, lo, fn, "(" + (PrintAll(args, ", ") + ")"));
      BracketsAt(q, lo + |fn|, PrintAll(args, ", "));
      AtChar(q, lo + |fn|, "(", 0);
      FirstAmongHasEdge(q, lo + |fn| + 1, args, ", ");
    case Paren(inner) =>
      BracketsAt(q, lo, Print(inner));
      AtChar(q, lo, "(", 0);
      FirstHasEdge(q, lo + 1, inner);
    case Binary(_, _, _) => BinaryHasEdge(q, lo, e);
    case ConcatCall(_) =>
    case Chain(args) =>
      BracketsAt(q, lo, PrintAll(args, " || "));
      AtChar(q, lo, "(", 0);
      FirstAmongHasEdge(q, lo + 1, args, " || ");
  }

  lemma {:induction false} BinaryHasEdge(q: string, lo: nat, e: Expr)
    requires e.Binary? && HasConcat(e) && At(q, lo, Print(e)) && LeftEdge(q, lo)
    ensures FirstAt(e) <= |Print(e)| && LeftEdge(q, lo + FirstAt(e))
    decreases e, 0
  {
    var x, op := Print(e.left), e.op;
    BinaryAt(q, lo, x, op, Print(e.right));
    if HasConcat(e.left) {
      FirstHasEdge(q, lo, e.left);
    } else {
      AtChar(q, lo + |x| + 1 + |op|, " ", 0);
      FirstHasEdge(q, lo + |x| + 2 + |op|, e.right);
    }
  }

  lemma {:induction false} FirstAmongHasEdge(q: string, lo: nat, es: Exprs, sep: string)
    requires AnyConcat(es) && (sep == ", " || sep == " || ") && At(q, lo, PrintAll(es, sep)) && LeftEdge(q, lo)
    ensures FirstAmong(es, sep) <= |PrintAll(es, sep)| && LeftEdge(q, lo + FirstAmong(es, sep))
    decreases es, 0
  {
    var x := Print(es.head);
    if es.tail.Cons? {
      AtSplit(q, lo, x, sep + PrintAll(es.tail, sep));
      AtSplit(q, lo + |x|, sep, PrintAll(es.tail, sep));
    }
    if HasConcat(es.head) {
      FirstHasEdge(q, lo, es.head);
    } else {
      AtChar(q, lo + |x|, sep, |sep| - 1);
      FirstAmongHasEdge(q, lo + |x| + |sep|, es.tail, sep);
    }
  }

  lemma {:induction false} FirstArgsWellFormed(e: Expr)
    requires WellFormed(e) && HasConcat(e)
    ensures AllWellFormed(FirstArgs(e))
    decreases e, 1
  {
    match e
    case Call(_, args) => FirstArgsAmongWellFormed(args);
    case Paren(inner) => FirstArgsWellFormed(inner);
    case Binary(l, _, r) => if HasConcat(l) { FirstArgsWellFormed(l); } else { FirstArgsWellFormed(r); }
    case ConcatCall(_) =>
    case Chain(args) => FirstArgsAmongWellFormed(args);
  }

  lemma {:induction false} FirstArgsAmongWellFormed(es: Exprs)
    requires AllWellFormed(es) && AnyConcat(es)
    ensures AllWellFormed(FirstArgsAmong(es))
    decreases es, 0
  {
    if HasConcat(es.head) { FirstArgsWellFormed(es.head); } else { FirstArgsAmongWellFormed(es.tail); }
  }

  /** A printed CONCAT at a word boundary is a match, and its split gives its printed arguments. */
  lemma ConcatSpelled(q: string, f: nat)
    requires At(q, f, "CONCAT") && At(q, f + 6, "(") && LeftEdge(q, f)
    ensures MatchAt(q, f) && OpenAfter(q, f + 6) == Some(f + 6)
  {
    assert SpellsAt("CONCAT", 0);
    SpellsWithin(q, f, "CONCAT", 0);
    AtChar(q, f + 6, "(", 0);
  }

  lemma ConcatSplits(q: string, open: nat, args: Exprs)
    requires At(q, open, "(" + (PrintAll(args, ", ") + ")")) && AllWellFormed(args)
    ensures SplitArgs(q, open) == Some(Args(open + 1 + |PrintAll(args, ", ")|, Texts(args)))
  {
    BracketsAt(q, open, PrintAll(args, ", "));
    AtChar(q, open, "(", 0);
    SplitStarts(q, open);
    ScanArguments(q, open + 1, open + 1, args, []);
    assert [] + Texts(args) == Texts(args);
  }

  lemma ConcatMatches(q: string, f: nat, args: Exprs)
    requires At(q, f, Print(ConcatCall(args))) && LeftEdge(q, f) && AllWellFormed(args)
    ensures MatchAt(q, f) && OpenAfter(q, f + 6) == Some(f + 6)
    ensures SplitArgs(q, f + 6) == Some(Args(f + 7 + |PrintAll(args, ", ")|, Texts(args)))
  {
    var x := PrintAll(args, ", ");
    AtSplit(q, f, "CONCAT", "(" + (x + ")"));
    AtSplit(q, f + 6, "(", x + ")");
    ConcatSpelled(q, f);
    ConcatSplits(q, f + 6, args);
  }

  lemma Around(pre: string, x: string, post: string)
    ensures var q := pre + (x + post);
            q[..|pre|] == pre && q[|pre| + |x|..] == post
  {
    var q := pre + (x + post);
    assert q[|pre|..] == x + post;
    Suffix(q, |pre|, |x|);
  }

  /** The chain as it is written in place of the call. */
  lemma ChainText(args: Exprs, post: string)
    ensures Print(Chain(args)) + post == "(" + (PrintAll(args, " || ") + (")" + post))
  {
    var y := PrintAll(args, " || ");
    Assoc("(", y + ")", post);
    Assoc(y, ")", post);
  }

  lemma ReplacedIsChain(q: string, pre: string, args: Exprs, post: string)
    requires q == pre + (Print(ConcatCall(args)) + post)
    ensures |pre| + 7 + |PrintAll(args, ", ")| < |q|
    ensures Replaced(q, |pre|, Args(|pre| + 7 + |PrintAll(args, ", ")|, Texts(args))) ==
            pre + (Print(Chain(args)) + post)
  {
    Around(pre, Print(ConcatCall(args)), post);
    JoinTexts(args);
    ChainText(args, post);
  }

  lemma FirstMatchIs(q: string, i: nat, f: nat)
    requires i <= f < |q| && NoMatch(q, i, f) && MatchAt(q, f)
    ensures FindConcat(q, i) == Some(f)
  {
  }

  lemma FirstConcat(q: string, pre: string, args: Exprs, post: string)
    requires q == pre + (Print(ConcatCall(args)) + post)
    requires LeftEdge(q, |pre|) && AllWellFormed(args) && NoMatch(q, 0, |pre|)
    ensures FindConcat(q, 0) == Some(|pre|) && OpenAfter(q, |pre| + 6) == Some(|pre| + 6)
    ensures SplitArgs(q, |pre| + 6) == Some(Args(|pre| + 7 + |PrintAll(args, ", ")|, Texts(args)))
  {
    AtMiddle(pre, Print(ConcatCall(args)), post);
    ConcatMatches(q, |pre|, args);
    FirstMatchIs(q, 0, |pre|);
  }

  lemma TurnAt(q: string, pre: string, args: Exprs, post: string)
    requires q == pre + (Print(ConcatCall(args)) + post)
    requires LeftEdge(q, |pre|) && AllWellFormed(args) && NoMatch(q, 0, |pre|)
    ensures Turn(q) == Some(pre + (Print(Chain(args)) + post))
  {
    FirstConcat(q, pre, args, post);
    ReplacedIsChain(q, pre, args, post);
    TurnIs(q, |pre|, |pre| + 6, Args(|pre| + 7 + |PrintAll(args, ", ")|, Texts(args)));
  }

  lemma TurnIs(q: string, at: nat, open: nat, split: Args)
    requires FindConcat(q, 0) == Some(at) && OpenAfter(q, at + 6) == Some(open) && SplitArgs(q, open) == Some(split)
    ensures Turn(q) == Some(Replaced(q, at, split))
  {
  }

  lemma AtMiddle(pre: string, x: string, post: string)
    ensures At(pre + (x + post), |pre|, x)
  {
    assert forall k :: 0 <= k < |x| ==> (pre + (x + post))[|pre| + k] == (x + post)[k] == x[k];
  }

  /** One turn of the loop on a printed tree converts its first CONCAT; with none it stops. */
  lemma TurnConverts(e: Expr)
    requires WellFormed(e)
    ensures Turn(Print(e)) == if HasConcat(e) then Some(Print(Convert(e))) else None
  {
    var q := Print(e);
    assert At(q, 0, q) && OpenAfter(q, |q|).None?;
    QuietBefore(q, 0, e);
    if HasConcat(e) {
      var args := FirstArgs(e);
      var pre, post := ConvertPrints(e);
      FirstHasEdge(q, 0, e);
      FirstArgsWellFormed(e);
      AtMiddle(pre, Print(ConcatCall(args)), post);
      TurnAt(q, pre, args, post);
    } else {
      NoConcatWholeLength(e);
    }
  }

  // ---- The whole loop -----------------------------------------------------------------------------

  function Chained(e: Expr): Expr {
    match e
    case Leaf(_) => e
    case Call(fn, args) => Call(fn, ChainedAll(args))
    case Paren(inner) => Paren(Chained(inner))
    case Binary(l, op, r) => Binary(Chained(l), op, Chained(r))
    case ConcatCall(args) => Chain(ChainedAll(args))
    case Chain(args) => Chain(ChainedAll(args))
  }

  function ChainedAll(es: Exprs): Exprs {
    match es
    case Nil => Nil
    case Cons(e, tail) => Cons(Chained(e), ChainedAll(tail))
  }

  lemma {:induction false} ConvertFacts(e: Expr)
    requires WellFormed(e) && HasConcat(e)
    ensures WellFormed(Convert(e)) && Chained(Convert(e)) == Chained(e)
    decreases e, 1
  {
    match e
    case Call(_, args) => ConvertAmongFacts(args);
    case Paren(inner) => ConvertFacts(inner);
    case Binary(l, _, r) => if HasConcat(l) { ConvertFacts(l); } else { ConvertFacts(r); }
    case ConcatCall(_) =>
    case Chain(args) => ConvertAmongFacts(args);
  }

  lemma {:induction false} ConvertAmongFacts(es: Exprs)
    requires AllWellFormed(es) && AnyConcat(es)
    ensures AllWellFormed(ConvertAmong(es)) && ChainedAll(ConvertAmong(es)) == ChainedAll(es)
    decreases es, 0
  {
    if HasConcat(es.head) { ConvertFacts(es.head); } else { ConvertAmongFacts(es.tail); }
  }

  lemma {:induction false} NothingToChain(e: Expr)
    requires !HasConcat(e)
    ensures Chained(e) == e
    decreases e, 1
  {
    match e
    case Leaf(_) =>
    case Call(_, args) => NothingToChainAll(args);
    case Paren(inner) => NothingToChain(inner);
    case Binary(l, _, r) => NothingToChain(l); NothingToChain(r);
    case Chain(args) => NothingToChainAll(args);
  }

  lemma {:induction false} NothingToChainAll(es: Exprs)
    requires !AnyConcat(es)
    ensures ChainedAll(es) == es
    decreases es, 0
  {
    if es.Cons? {
      NothingToChain(es.head);
      NothingToChainAll(es.tail);
    }
  }

  /** Rewriting the printed tree gives exactly the printed tree with `||` chains. */
  lemma {:induction false} RewritesToChains(e: Expr)
    requires WellFormed(e)
    ensures Rewritten(Print(e)) == Print(Chained(e))
    decreases Spellings(Print(e))
  {
    TurnConverts(e);
    if HasConcat(e) {
      TurnShrinks(Print(e));
      ConvertFacts(e);
      RewritesToChains(Convert(e));
    } else {
      NothingToChain(e);
    }
  }
}
