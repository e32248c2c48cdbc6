/**
 What rewriting CONCAT does to the value of an expression. Its arguments are joined with `||` as they
 stand, so an operator among them that binds no tighter may take in a neighbouring argument. The
 value is kept under every reading of names, functions and operators exactly if none does.
 */
module ConcatMeaning {
  import opened Text
  import opened Concat
  import opened ConcatTrees
  import opened ConcatTheorems
  import opened ConcatGrammar

  // ---- The rewritten text ---------------------------------------------------------------------

  lemma {:induction false} ExtendAllPrints(b: Table, t: Expr, es: Exprs)
    ensures Print(ExtendAll(b, t, es)) == Print(t) + (if es.Nil? then "" else " || " + PrintAll(es, " || "))
    decreases es
  {
    if es.Cons? {
      var u := Extend(b, t, "||", es.head);
      ExtendPrints(b, t, "||", es.head);
      ExtendAllPrints(b, u, es.tail);
      var x, y := Print(t), Print(es.head);
      assert Print(u) == x + (" || " + y) by {
        assert " " + ("||" + (" " + y)) == " || " + y;
      }
      if es.tail.Cons? {
        var z := " || " + PrintAll(es.tail, " || ");
        Assoc(x, " || " + y, z);
        Assoc(" || ", y, z);
      } else {
        assert Print(u) + "" == Print(u);
      }
    } else {
      assert Print(t) + "" == Print(t);
    }
  }

  /** Reading back changes no text. */
  lemma {:induction false} RereadPrints(b: Table, e: Expr)
    ensures Print(Reread(b, e)) == Print(e)
    decreases e, 1
  {
    match e
    case Leaf(_) =>
    case Call(_, args) => RereadAllPrints(b, args, ", ");
    case Paren(inner) => RereadPrints(b, inner);
    case Binary(l, op, r) =>
      RereadPrints(b, l);
      RereadPrints(b, r);
      ExtendPrints(b, Reread(b, l), op, Reread(b, r));
    case ConcatCall(args) => RereadAllPrints(b, args, ", ");
    case Chain(Nil) =>
    case Chain(Cons(a, tail)) =>
      RereadPrints(b, a);
      RereadAllPrints(b, tail, " || ");
      ExtendAllPrints(b, Reread(b, a), RereadAll(b, tail));
  }

  lemma {:induction false} RereadAllPrints(b: Table, es: Exprs, sep: string)
    ensures PrintAll(RereadAll(b, es), sep) == PrintAll(es, sep)
    decreases es, 0
  {
    if es.Cons? {
      RereadPrints(b, es.head);
      RereadAllPrints(b, es.tail, sep);
    }
  }

  /** The rewritten text of an expression is the text of this tree of the grammar. */
  lemma RewrittenIsRead(b: Table, e: Expr)
    requires WellFormed(e) && Grouped(b, e)
    ensures Rewritten(Print(e)) == Print(Meant(b, e)) && Grouped(b, Meant(b, e))
  {
    RewritesToChains(e);
    RereadPrints(b, Chained(e));
    MeantShape(b, e);
  }

  // ---- Values ---------------------------------------------------------------------------------

  datatype Value = Null | Str(s: string)

  datatype Values = NoValues | Values(head: Value, tail: Values)

  /** How leaves, functions and operators are read. */
  datatype Reading = Reading(leaf: string -> Value, call: (string, Values) -> Value, binary: (string, Value, Value) -> Value)

  /** SQLite's `||`, and BigQuery's: NULL as soon as one operand is. */
  function Bar(u: Value, v: Value): Value {
    if u.Null? || v.Null? then Null else Str(u.s + v.s)
  }

  /** BigQuery's CONCAT: NULL as soon as one argument is. */
  function ConcatValue(vs: Values): Value {
    match vs
    case NoValues => Str("")
    case Values(v, rest) =>
      var r := ConcatValue(rest);
      if v.Null? || r.Null? then Null else Str(v.s + r.s)
  }

  ghost predicate ReadsBars(m: Reading) { forall u, v :: m.binary("||", u, v) == Bar(u, v) }

  /** The value of a tree of the grammar; an empty CONCAT or a chain is none, and gets no text. */
  function Eval(e: Expr, m: Reading): Value {
    match e
    case Leaf(text) => m.leaf(text)
    case Call(fn, args) => m.call(fn, EvalAll(args, m))
    case Paren(inner) => Eval(inner, m)
    case Binary(l, op, r) => m.binary(op, Eval(l, m), Eval(r, m))
    case ConcatCall(args) => if args.Nil? then Null else ConcatValue(EvalAll(args, m))
    case Chain(_) => Null
  }

  function EvalAll(es: Exprs, m: Reading): Values {
    match es
    case Nil => NoValues
    case Cons(e, tail) => Values(Eval(e, m), EvalAll(tail, m))
  }

  // ---- The condition --------------------------------------------------------------------------

  /** Every operator of the level binds tighter than `||` or is `||`. */
  predicate Firm(b: Table, e: Expr) {
    e.Binary? ==> (b(e.op) > b("||") || e.op == "||") && Firm(b, e.left) && Firm(b, e.right)
  }

  predicate AllFirm(b: Table, es: Exprs) { es.Cons? ==> Firm(b, es.head) && AllFirm(b, es.tail) }

  /** In every CONCAT of two or more arguments, no operator of the first binds looser than `||`, and
      those of the others bind tighter or are `||` themselves. */
  predicate Tight(b: Table, e: Expr) {
    match e
    case Leaf(_) => true
    case Call(_, args) => AllTight(b, args)
    case Paren(inner) => Tight(b, inner)
    case Binary(l, _, r) => Tight(b, l) && Tight(b, r)
    case ConcatCall(args) => AllTight(b, args) && (args.Cons? && args.tail.Cons? ==> Joins(b, args.head, args.tail))
    case Chain(args) => AllTight(b, args)
  }

  predicate AllTight(b: Table, es: Exprs) { es.Cons? ==> Tight(b, es.head) && AllTight(b, es.tail) }

  predicate Joins(b: Table, first: Expr, rest: Exprs) { Above(b, b("||"), first) && AllFirm(b, rest) }

  /** Reading the rewritten text keeps the operators of each level. */
  lemma {:induction false} MeantIsFirm(b: Table, e: Expr)
    requires Grouped(b, e)
    ensures Firm(b, Meant(b, e)) <==> Firm(b, e)
    decreases e
  {
    MeantShape(b, e);
    if e.Binary? {
      MeantIsFirm(b, e.left);
      MeantIsFirm(b, e.right);
    }
  }

  lemma {:induction false} MeantAreFirm(b: Table, es: Exprs)
    requires AllGrouped(b, es)
    ensures AllFirm(b, MeantAll(b, es)) <==> AllFirm(b, es)
    decreases es
  {
    if es.Cons? {
      MeantIsFirm(b, es.head);
      MeantAreFirm(b, es.tail);
    }
  }

  lemma MeantJoins(b: Table, first: Expr, rest: Exprs)
    requires Grouped(b, first) && AllGrouped(b, rest)
    ensures Joins(b, Meant(b, first), MeantAll(b, rest)) <==> Joins(b, first, rest)
  {
    MeantShape(b, first);
    MeantAreFirm(b, rest);
  }

  // ---- Joined tightly, the value is kept ------------------------------------------------------

  lemma BarAssoc(u: Value, v: Value, w: Value)
    ensures Bar(Bar(u, v), w) == Bar(u, Bar(v, w))
  {
    if u.Str? && v.Str? && w.Str? {
      Assoc(u.s, v.s, w.s);
    }
  }

  /** A firm argument that has an operator at most as tight as `||` is itself a chain of bars. */
  lemma FirmTop(b: Table, a: Expr)
    requires Grouped(b, a) && Firm(b, a) && !Above(b, b("||") + 1, a)
    ensures a.Binary? && a.op == "||"
  {
    if a.Binary? && b(a.op) > b("||") {
      TopIsLoosest(b, b("||") + 1, a);
    }
  }

  lemma {:induction false} FirmIsAbove(b: Table, a: Expr)
    requires Firm(b, a)
    ensures Above(b, b("||"), a)
  {
    if a.Binary? {
      FirmIsAbove(b, a.left);
      FirmIsAbove(b, a.right);
    }
  }

  lemma {:induction false} ExtendIsBar(b: Table, t: Expr, a: Expr, m: Reading)
    requires Grouped(b, a) && Above(b, b("||"), t) && Firm(b, a) && ReadsBars(m)
    ensures Eval(Extend(b, t, "||", a), m) == Bar(Eval(t, m), Eval(a, m))
    decreases a
  {
    if Above(b, b("||") + 1, a) {
      TightStaysTogether(b, t, "||", a);
    } else {
      FirmTop(b, a);
      ExtendBinary(b, t, "||", a.left, "||", a.right);
      ExtendIsBar(b, t, a.left, m);
      FirmIsAbove(b, a.left);
      ExtendAbove(b, b("||"), t, "||", a.left);
      TightStaysTogether(b, Extend(b, t, "||", a.left), "||", a.right);
      BarAssoc(Eval(t, m), Eval(a.left, m), Eval(a.right, m));
    }
  }

  lemma {:induction false} ExtendAllIsConcat(b: Table, t: Expr, es: Exprs, m: Reading)
    requires AllGrouped(b, es) && Joins(b, t, es) && ReadsBars(m)
    ensures Eval(ExtendAll(b, t, es), m) == ConcatValue(Values(Eval(t, m), EvalAll(es, m)))
    decreases es
  {
    var v := Eval(t, m);
    if es.Nil? {
      assert v.Str? ==> v.s + "" == v.s;
    } else {
      var u := Extend(b, t, "||", es.head);
      ExtendIsBar(b, t, es.head, m);
      FirmIsAbove(b, es.head);
      ExtendAbove(b, b("||"), t, "||", es.head);
      ExtendAllIsConcat(b, u, es.tail, m);
      BarAssoc(v, Eval(es.head, m), ConcatValue(EvalAll(es.tail, m)));
    }
  }

  lemma SingleConcat(v: Value)
    ensures ConcatValue(Values(v, NoValues)) == v
  {
    assert v.Str? ==> v.s + "" == v.s;
  }

  lemma {:induction false} TightKeepsValue(b: Table, e: Expr, m: Reading)
    requires Grouped(b, e) && Tight(b, e) && ReadsBars(m)
    ensures Eval(Meant(b, e), m) == Eval(e, m)
    decreases e, 1
  {
    match e
    case Leaf(_) =>
    case Call(_, args) => TightKeepValues(b, args, m);
    case Paren(inner) => TightKeepsValue(b, inner, m);
    case Binary(l, op, r) =>
      MeantShape(b, e);
      TightKeepsValue(b, l, m);
      TightKeepsValue(b, r, m);
    case ConcatCall(args) =>
      TightKeepValues(b, args, m);
      if args.tail.Nil? {
        SingleConcat(Eval(args.head, m));
      } else {
        MeantShapes(b, args.tail);
        MeantJoins(b, args.head, args.tail);
        ExtendAllIsConcat(b, Meant(b, args.head), MeantAll(b, args.tail), m);
      }
  }

  lemma {:induction false} TightKeepValues(b: Table, es: Exprs, m: Reading)
    requires AllGrouped(b, es) && AllTight(b, es) && ReadsBars(m)
    ensures EvalAll(MeantAll(b, es), m) == EvalAll(es, m)
    decreases es, 0
  {
    if es.Cons? {
      TightKeepsValue(b, es.head, m);
      TightKeepValues(b, es.tail, m);
    }
  }
}
