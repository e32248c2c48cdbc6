/** What rewriting CONCAT does to the value of a text. */
module ConcatTextTheorems {
  import opened Text
  import opened Concat
  import opened ConcatTrees
  import opened ConcatTheorems
  import opened ConcatGrammar
  import opened ConcatText
  import opened ConcatMeaning
  import opened ConcatLoose

  /** The text is that of the tree; there is at most one. */
  predicate Denotes(b: Table, s: string, e: Expr) { Grouped(b, e) && Lexical(e) && Print(e) == s }

  lemma DenotesOne(b: Table, s: string, e: Expr, f: Expr)
    requires Denotes(b, s, e) && Denotes(b, s, f)
    ensures e == f
  {
    TextDeterminesTree(b, e, f);
  }

  // ---- Rewriting keeps tokens -----------------------------------------------------------------

  lemma {:induction false} ChainedIsLexical(e: Expr)
    requires Lexical(e)
    ensures Lexical(Chained(e))
    decreases e, 1
  {
    match e
    case Leaf(_) =>
    case Call(_, args) => ChainedAreLexical(args);
    case Paren(inner) => ChainedIsLexical(inner);
    case Binary(l, _, r) => ChainedIsLexical(l); ChainedIsLexical(r);
    case ConcatCall(args) => ChainedAreLexical(args);
    case Chain(args) => ChainedAreLexical(args);
  }

  lemma {:induction false} ChainedAreLexical(es: Exprs)
    requires AllLexical(es)
    ensures AllLexical(ChainedAll(es))
    decreases es, 0
  {
    if es.Cons? {
      ChainedIsLexical(es.head);
      ChainedAreLexical(es.tail);
    }
  }

  lemma {:induction false} PutIsLexical(b: Table, t: Expr, op: string, x: Expr)
    requires Lexical(t) && IsOperator(op) && Lexical(x)
    ensures Lexical(Put(b, t, op, x))
  {
    if t.Binary? && b(t.op) < b(op) {
      PutIsLexical(b, t.right, op, x);
    }
  }

  lemma {:induction false} ExtendIsLexical(b: Table, t: Expr, op: string, a: Expr)
    requires Lexical(t) && IsOperator(op) && Lexical(a)
    ensures Lexical(Extend(b, t, op, a))
    decreases a
  {
    if a.Binary? {
      ExtendBinary(b, t, op, a.left, a.op, a.right);
      ExtendIsLexical(b, t, op, a.left);
      ExtendIsLexical(b, Extend(b, t, op, a.left), a.op, a.right);
    } else {
      ExtendAtom(b, t, op, a);
      PutIsLexical(b, t, op, a);
    }
  }

  lemma {:induction false} ExtendAllIsLexical(b: Table, t: Expr, es: Exprs)
    requires Lexical(t) && AllLexical(es)
    ensures Lexical(ExtendAll(b, t, es))
    decreases es
  {
    if es.Cons? {
      ExtendIsLexical(b, t, "||", es.head);
      ExtendAllIsLexical(b, Extend(b, t, "||", es.head), es.tail);
    }
  }

  lemma {:induction false} RereadIsLexical(b: Table, e: Expr)
    requires Lexical(e)
    ensures Lexical(Reread(b, e))
    decreases e, 1
  {
    match e
    case Leaf(_) =>
    case Call(_, args) => RereadAreLexical(b, args);
    case Paren(inner) => RereadIsLexical(b, inner);
    case Binary(l, op, r) =>
      RereadIsLexical(b, l);
      RereadIsLexical(b, r);
      ExtendIsLexical(b, Reread(b, l), op, Reread(b, r));
    case ConcatCall(args) => RereadAreLexical(b, args);
    case Chain(Nil) =>
    case Chain(Cons(a, tail)) =>
      RereadIsLexical(b, a);
      RereadAreLexical(b, tail);
      ExtendAllIsLexical(b, Reread(b, a), RereadAll(b, tail));
  }

  lemma {:induction false} RereadAreLexical(b: Table, es: Exprs)
    requires AllLexical(es)
    ensures AllLexical(RereadAll(b, es))
    decreases es, 0
  {
    if es.Cons? {
      RereadIsLexical(b, es.head);
      RereadAreLexical(b, es.tail);
    }
  }

  /** The rewritten text is that of one tree of the grammar. */
  lemma RewrittenDenotes(b: Table, s: string, e: Expr)
    requires Denotes(b, s, e) && WellFormed(e)
    ensures Denotes(b, Rewritten(s), Meant(b, e))
  {
    RewrittenIsRead(b, e);
    ChainedIsLexical(e);
    RereadIsLexical(b, Chained(e));
  }

  // ---- Exactly when a text keeps its value ----------------------------------------------------

  /** Under every reading with bars, the two texts have the same value. */
  ghost predicate SameValue(b: Table, s: string, t: string) {
    forall m, e, f :: ReadsBars(m) && Denotes(b, s, e) && Denotes(b, t, f) ==> Eval(e, m) == Eval(f, m)
  }

  /** In the tree of the text, every CONCAT joins tightly. */
  ghost predicate JoinsTightly(b: Table, s: string) {
    forall e :: Denotes(b, s, e) ==> Tight(b, e)
  }

  /** For every text of an expression: rewriting keeps its value, under every reading, if and only if
      every CONCAT in it joins tightly. */
  lemma TextKeepsValueIff(b: Table, s: string, e: Expr)
    requires Denotes(b, s, e) && WellFormed(e)
    ensures SameValue(b, s, Rewritten(s)) <==> JoinsTightly(b, s)
    ensures JoinsTightly(b, s) <==> Tight(b, e)
  {
    var f := Meant(b, e);
    RewrittenDenotes(b, s, e);
    ValueIsKeptIff(b, e);
    forall x | Denotes(b, s, x) ensures x == e {
      DenotesOne(b, s, x, e);
    }
    forall y | Denotes(b, Rewritten(s), y) ensures y == f {
      DenotesOne(b, Rewritten(s), y, f);
    }
    if SameValue(b, s, Rewritten(s)) {
      assert KeepsValue(b, e);
    }
    if KeepsValue(b, e) {
      assert SameValue(b, s, Rewritten(s));
    }
  }

  /** `CONCAT(x = y, z)` has one tree, and with `=` looser than `||` it does not keep its value. */
  lemma LooseTextIsLoose(b: Table, s: string)
    requires b("=") < b("||") && s == Print(LOOSE)
    ensures s == "CONCAT(x = y, z)" && Denotes(b, s, LOOSE) && !SameValue(b, s, Rewritten(s))
  {
    LooseIsWritten(b);
    assert !Tight(b, LOOSE);
    TextKeepsValueIff(b, s, LOOSE);
  }
}
