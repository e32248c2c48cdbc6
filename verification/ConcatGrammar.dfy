/**
 How SQL reads an expression back from its text. One nesting level of a printed tree is a row of
 operands with operators between them; the grammar groups a row by how tightly its operators bind,
 equal ones to the left.
 */
module ConcatGrammar {
  import opened Text
  import opened ConcatTrees
  import opened ConcatTheorems

  /** How tightly each operator binds; a greater number is tighter. */
  type Table = string -> int

  // ---- Rows -----------------------------------------------------------------------------------

  datatype Ops = Stop | Step(op: string, operand: Expr, rest: Ops)

  datatype Row = Row(first: Expr, ops: Ops)

  function Then(p: Ops, q: Ops): Ops {
    match p
    case Stop => q
    case Step(op, x, rest) => Step(op, x, Then(rest, q))
  }

  /** Operands and operators of the outermost level, in the order of the text. */
  function RowOf(e: Expr): Row {
    match e
    case Binary(l, op, r) =>
      var left, right := RowOf(l), RowOf(r);
      Row(left.first, Then(left.ops, Step(op, right.first, right.ops)))
    case _ => Row(e, Stop)
  }

  /** One more operator and operand at the right end of a grouped level. */
  function Put(b: Table, t: Expr, op: string, x: Expr): Expr {
    if t.Binary? && b(t.op) < b(op) then Binary(t.left, t.op, Put(b, t.right, op, x)) else Binary(t, op, x)
  }

  function PutAll(b: Table, t: Expr, ops: Ops): Expr
    decreases ops
  {
    match ops
    case Stop => t
    case Step(op, x, rest) => PutAll(b, Put(b, t, op, x), rest)
  }

  function Group(b: Table, row: Row): Expr { PutAll(b, row.first, row.ops) }

  /** The level of `t`, then `op`, then the level of `a`, grouped anew. */
  function Extend(b: Table, t: Expr, op: string, a: Expr): Expr {
    PutAll(b, t, Step(op, RowOf(a).first, RowOf(a).ops))
  }

  // ---- Trees as the grammar builds them -------------------------------------------------------

  /** Every operator of the outermost level binds at least as tightly as `k`. */
  predicate Above(b: Table, k: int, e: Expr) {
    e.Binary? ==> b(e.op) >= k && Above(b, k, e.left) && Above(b, k, e.right)
  }

  /** A tree of the grammar: grouped at every level, and without empty CONCATs or chains, which are
      written with parentheses and bars. */
  predicate Grouped(b: Table, e: Expr) {
    match e
    case Leaf(_) => true
    case Call(_, args) => AllGrouped(b, args)
    case Paren(inner) => Grouped(b, inner)
    case Binary(l, op, r) => Grouped(b, l) && Grouped(b, r) && Above(b, b(op), l) && Above(b, b(op) + 1, r)
    case ConcatCall(args) => args.Cons? && AllGrouped(b, args)
    case Chain(_) => false
  }

  predicate AllGrouped(b: Table, es: Exprs) { es.Cons? ==> Grouped(b, es.head) && AllGrouped(b, es.tail) }

  lemma {:induction false} AboveLess(b: Table, j: int, k: int, e: Expr)
    requires j <= k && Above(b, k, e)
    ensures Above(b, j, e)
  {
    if e.Binary? {
      AboveLess(b, j, k, e.left);
      AboveLess(b, j, k, e.right);
    }
  }

  /** In a grouped level no operator binds looser than the topmost. */
  lemma TopIsLoosest(b: Table, k: int, e: Expr)
    requires Grouped(b, e) && (e.Binary? ==> b(e.op) >= k)
    ensures Above(b, k, e)
  {
    if e.Binary? {
      AboveLess(b, k, b(e.op), e.left);
      AboveLess(b, k, b(e.op) + 1, e.right);
    }
  }

  // ---- Grouping ------------------------------------------------------------------------------

  lemma {:induction false} PutAllThen(b: Table, t: Expr, p: Ops, q: Ops)
    ensures PutAll(b, t, Then(p, q)) == PutAll(b, PutAll(b, t, p), q)
    decreases p
  {
    if p.Step? {
      PutAllThen(b, Put(b, t, p.op, p.operand), p.rest, q);
    }
  }

  lemma ExtendAtom(b: Table, t: Expr, op: string, a: Expr)
    requires !a.Binary?
    ensures Extend(b, t, op, a) == Put(b, t, op, a)
  {
    assert PutAll(b, Put(b, t, op, a), Stop) == Put(b, t, op, a);
  }

  lemma ExtendBinary(b: Table, t: Expr, op: string, l: Expr, o: string, r: Expr)
    ensures Extend(b, t, op, Binary(l, o, r)) == Extend(b, Extend(b, t, op, l), o, r)
  {
    var left, right := RowOf(l), RowOf(r);
    var more := Step(o, right.first, right.ops);
    assert Then(Step(op, left.first, left.ops), more) == Step(op, left.first, Then(left.ops, more));
    PutAllThen(b, t, Step(op, left.first, left.ops), more);
  }

  lemma {:induction false} PutPut(b: Table, t: Expr, op: string, l: Expr, o: string, r: Expr)
    requires b(op) < b(o) && Above(b, b(o), l)
    ensures Put(b, Put(b, t, op, l), o, r) == Put(b, t, op, Binary(l, o, r))
  {
    if t.Binary? && b(t.op) < b(op) {
      PutPut(b, t.right, op, l, o, r);
    }
  }

  /** An operand level that binds tighter than the operator before it stays together. */
  lemma {:induction false} TightStaysTogether(b: Table, t: Expr, op: string, a: Expr)
    requires Grouped(b, a) && Above(b, b(op) + 1, a)
    ensures Extend(b, t, op, a) == Put(b, t, op, a)
    decreases a
  {
    if a.Binary? {
      ExtendBinary(b, t, op, a.left, a.op, a.right);
      TightStaysTogether(b, t, op, a.left);
      TightStaysTogether(b, Put(b, t, op, a.left), a.op, a.right);
      PutPut(b, t, op, a.left, a.op, a.right);
    } else {
      ExtendAtom(b, t, op, a);
    }
  }

  /** Grouping the row of a tree of the grammar gives the tree back. */
  lemma {:induction false} GroupedIsRegrouped(b: Table, e: Expr)
    requires Grouped(b, e)
    ensures Group(b, RowOf(e)) == e
  {
    if e.Binary? {
      GroupedIsRegrouped(b, e.left);
      PutAllThen(b, RowOf(e.left).first, RowOf(e.left).ops, Step(e.op, RowOf(e.right).first, RowOf(e.right).ops));
      TightStaysTogether(b, e.left, e.op, e.right);
    }
  }

  /** So a row is read in one way only. */
  lemma RowsAreReadOneWay(b: Table, e: Expr, f: Expr)
    requires Grouped(b, e) && Grouped(b, f) && RowOf(e) == RowOf(f)
    ensures e == f
  {
    GroupedIsRegrouped(b, e);
    GroupedIsRegrouped(b, f);
  }

  lemma {:induction false} PutAbove(b: Table, k: int, t: Expr, op: string, x: Expr)
    requires Above(b, k, t) && b(op) >= k && Above(b, k, x)
    ensures Above(b, k, Put(b, t, op, x))
  {
    if t.Binary? && b(t.op) < b(op) {
      PutAbove(b, k, t.right, op, x);
    }
  }

  lemma {:induction false} ExtendAbove(b: Table, k: int, t: Expr, op: string, a: Expr)
    requires Above(b, k, t) && b(op) >= k && Above(b, k, a)
    ensures Above(b, k, Extend(b, t, op, a))
    decreases a
  {
    if a.Binary? {
      ExtendBinary(b, t, op, a.left, a.op, a.right);
      ExtendAbove(b, k, t, op, a.left);
      ExtendAbove(b, k, Extend(b, t, op, a.left), a.op, a.right);
    } else {
      ExtendAtom(b, t, op, a);
      PutAbove(b, k, t, op, a);
    }
  }

  lemma {:induction false} PutGroups(b: Table, t: Expr, op: string, x: Expr)
    requires Grouped(b, t) && Grouped(b, x) && Above(b, b(op) + 1, x)
    ensures Grouped(b, Put(b, t, op, x))
  {
    if t.Binary? && b(t.op) < b(op) {
      PutGroups(b, t.right, op, x);
      AboveLess(b, b(t.op) + 1, b(op) + 1, x);
      PutAbove(b, b(t.op) + 1, t.right, op, x);
    } else {
      TopIsLoosest(b, b(op), t);
    }
  }

  lemma {:induction false} ExtendGroups(b: Table, t: Expr, op: string, a: Expr)
    requires Grouped(b, t) && Grouped(b, a)
    ensures Grouped(b, Extend(b, t, op, a))
    decreases a
  {
    if a.Binary? {
      ExtendBinary(b, t, op, a.left, a.op, a.right);
      ExtendGroups(b, t, op, a.left);
      ExtendGroups(b, Extend(b, t, op, a.left), a.op, a.right);
    } else {
      ExtendAtom(b, t, op, a);
      PutGroups(b, t, op, a);
    }
  }

  /** Below a looser operator the right operand alone takes the rest of the row. */
  lemma {:induction false} ExtendSinks(b: Table, l: Expr, o: string, r: Expr, op: string, a: Expr)
    requires b(o) < b(op) && Above(b, b(o) + 1, a)
    ensures Extend(b, Binary(l, o, r), op, a) == Binary(l, o, Extend(b, r, op, a))
    decreases a
  {
    if a.Binary? {
      ExtendBinary(b, Binary(l, o, r), op, a.left, a.op, a.right);
      ExtendBinary(b, r, op, a.left, a.op, a.right);
      ExtendSinks(b, l, o, r, op, a.left);
      ExtendSinks(b, l, o, Extend(b, r, op, a.left), a.op, a.right);
    } else {
      ExtendAtom(b, Binary(l, o, r), op, a);
      ExtendAtom(b, r, op, a);
    }
  }

  // ---- Text -----------------------------------------------------------------------------------

  lemma PrintAssoc(l: Expr, o: string, r: Expr, op: string, x: Expr)
    ensures Print(Binary(Binary(l, o, r), op, x)) == Print(Binary(l, o, Binary(r, op, x)))
  {
    var tail := " " + (op + (" " + Print(x)));
    Assoc(Print(l), " " + (o + (" " + Print(r))), tail);
    Assoc(" ", o + (" " + Print(r)), tail);
    Assoc(o, " " + Print(r), tail);
    Assoc(" ", Print(r), tail);
  }

  lemma {:induction false} PutPrints(b: Table, t: Expr, op: string, x: Expr)
    ensures Print(Put(b, t, op, x)) == Print(Binary(t, op, x))
  {
    if t.Binary? && b(t.op) < b(op) {
      PutPrints(b, t.right, op, x);
      PrintAssoc(t.left, t.op, t.right, op, x);
    }
  }

  /** Regrouping a level leaves its text alone. */
  lemma {:induction false} ExtendPrints(b: Table, t: Expr, op: string, a: Expr)
    ensures Print(Extend(b, t, op, a)) == Print(Binary(t, op, a))
    decreases a
  {
    if a.Binary? {
      var u := Extend(b, t, op, a.left);
      ExtendBinary(b, t, op, a.left, a.op, a.right);
      ExtendPrints(b, t, op, a.left);
      ExtendPrints(b, u, a.op, a.right);
      PrintAssoc(t, op, a.left, a.op, a.right);
    } else {
      ExtendAtom(b, t, op, a);
      PutPrints(b, t, op, a);
    }
  }

  // ---- Reading the rewritten text -------------------------------------------------------------

  /** The tree of the grammar whose text is that of `e`: each level regrouped, a chain as what stands
      in its parentheses. */
  function Reread(b: Table, e: Expr): Expr
    decreases e, 1
  {
    match e
    case Leaf(_) => e
    case Call(fn, args) => Call(fn, RereadAll(b, args))
    case Paren(inner) => Paren(Reread(b, inner))
    case Binary(l, op, r) => Extend(b, Reread(b, l), op, Reread(b, r))
    case ConcatCall(args) => ConcatCall(RereadAll(b, args))
    case Chain(Nil) => e
    case Chain(Cons(a, tail)) => Paren(ExtendAll(b, Reread(b, a), RereadAll(b, tail)))
  }

  function RereadAll(b: Table, es: Exprs): Exprs
    decreases es, 0
  {
    match es
    case Nil => Nil
    case Cons(e, tail) => Cons(Reread(b, e), RereadAll(b, tail))
  }

  function ExtendAll(b: Table, t: Expr, es: Exprs): Expr
    decreases es
  {
    match es
    case Nil => t
    case Cons(a, tail) => ExtendAll(b, Extend(b, t, "||", a), tail)
  }

  lemma {:induction false} ExtendAllGroups(b: Table, t: Expr, es: Exprs)
    requires Grouped(b, t) && AllGrouped(b, es)
    ensures Grouped(b, ExtendAll(b, t, es))
    decreases es
  {
    if es.Cons? {
      ExtendGroups(b, t, "||", es.head);
      ExtendAllGroups(b, Extend(b, t, "||", es.head), es.tail);
    }
  }

  /** The rewritten tree of `e` as the grammar reads it. */
  function Meant(b: Table, e: Expr): Expr { Reread(b, Chained(e)) }

  function MeantAll(b: Table, es: Exprs): Exprs { RereadAll(b, ChainedAll(es)) }

  /** Rewriting keeps the operators of a level and how they group, and reading is grouped everywhere. */
  lemma {:induction false} MeantShape(b: Table, e: Expr)
    requires Grouped(b, e)
    ensures Grouped(b, Meant(b, e)) && (forall k :: Above(b, k, Meant(b, e)) <==> Above(b, k, e))
    ensures e.Binary? <==> Meant(b, e).Binary?
    ensures e.Binary? ==> Meant(b, e) == Binary(Meant(b, e.left), e.op, Meant(b, e.right))
    decreases e, 1
  {
    match e
    case Leaf(_) =>
    case Call(_, args) => MeantShapes(b, args);
    case Paren(inner) => MeantShape(b, inner);
    case Binary(l, op, r) =>
      MeantShape(b, l);
      MeantShape(b, r);
      TightStaysTogether(b, Meant(b, l), op, Meant(b, r));
      assert Above(b, b(op), Meant(b, l));
    case ConcatCall(args) =>
      MeantShapes(b, args);
      ExtendAllGroups(b, Meant(b, args.head), MeantAll(b, args.tail));
  }

  lemma {:induction false} MeantShapes(b: Table, es: Exprs)
    requires AllGrouped(b, es)
    ensures AllGrouped(b, MeantAll(b, es))
    decreases es, 0
  {
    if es.Cons? {
      MeantShape(b, es.head);
      MeantShapes(b, es.tail);
    }
  }
}
