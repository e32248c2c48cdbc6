/**
 The converse: a CONCAT argument with a loose operator changes the value. One reading shows it for
 every tree: each operator other than `||` repeats what it is applied to, so an operator that takes in
 a neighbouring argument makes the result longer, and nothing around it can hide that.
 */
module ConcatLoose {
  import opened Text
  import opened Concat
  import opened ConcatTrees
  import opened ConcatTheorems
  import opened ConcatGrammar
  import opened ConcatMeaning

  function TextOf(v: Value): string { if v.Str? then v.s else "" }

  function Glue(vs: Values): string {
    match vs
    case NoValues => ""
    case Values(v, rest) => TextOf(v) + Glue(rest)
  }

  /** Every leaf is one byte, a function adds one to its arguments, an operator repeats its operands. */
  function Repeating(): (m: Reading)
    ensures ReadsBars(m)
  {
    Reading(
      t => Str("x"),
      (fn, vs) => Str("x" + Glue(vs)),
      (op, u, v) => if op == "||" then Bar(u, v) else Bar(Bar(u, v), Bar(u, v)))
  }

  /** How long a text that reading makes of a tree. */
  function Length(e: Expr): nat {
    match e
    case Leaf(_) => 1
    case Call(_, args) => 1 + TotalLength(args)
    case Paren(inner) => Length(inner)
    case Binary(l, op, r) => if op == "||" then Length(l) + Length(r) else 2 * (Length(l) + Length(r))
    case ConcatCall(args) => TotalLength(args)
    case Chain(_) => 0
  }

  function TotalLength(es: Exprs): nat { if es.Nil? then 0 else Length(es.head) + TotalLength(es.tail) }

  predicate Measures(e: Expr) { Eval(e, Repeating()).Str? && |Eval(e, Repeating()).s| == Length(e) }

  predicate AllMeasure(es: Exprs) { es.Cons? ==> Measures(es.head) && AllMeasure(es.tail) }

  lemma {:induction false} ConcatLength(es: Exprs)
    requires AllMeasure(es)
    ensures var v := ConcatValue(EvalAll(es, Repeating()));
            v.Str? && |v.s| == TotalLength(es)
  {
    if es.Cons? {
      ConcatLength(es.tail);
    }
  }

  lemma {:induction false} GlueLength(es: Exprs)
    requires AllMeasure(es)
    ensures |Glue(EvalAll(es, Repeating()))| == TotalLength(es)
  {
    if es.Cons? {
      GlueLength(es.tail);
    }
  }

  lemma {:induction false} LengthIsMeasured(b: Table, e: Expr)
    requires Grouped(b, e)
    ensures Measures(e)
    decreases e, 1
  {
    match e
    case Leaf(_) =>
    case Call(_, args) =>
      LengthsAreMeasured(b, args);
      GlueLength(args);
    case Paren(inner) => LengthIsMeasured(b, inner);
    case Binary(l, _, r) =>
      LengthIsMeasured(b, l);
      LengthIsMeasured(b, r);
    case ConcatCall(args) =>
      LengthsAreMeasured(b, args);
      ConcatLength(args);
  }

  lemma {:induction false} LengthsAreMeasured(b: Table, es: Exprs)
    requires AllGrouped(b, es)
    ensures AllMeasure(es)
    decreases es, 0
  {
    if es.Cons? {
      LengthIsMeasured(b, es.head);
      LengthsAreMeasured(b, es.tail);
    }
  }

  lemma {:induction false} LengthIsPositive(b: Table, e: Expr)
    requires Grouped(b, e)
    ensures Length(e) > 0
  {
    match e
    case Leaf(_) =>
    case Call(_, _) =>
    case Paren(inner) => LengthIsPositive(b, inner);
    case Binary(l, _, r) => LengthIsPositive(b, l);
    case ConcatCall(args) => LengthIsPositive(b, args.head);
  }

  // ---- Regrouping never shortens --------------------------------------------------------------

  /** Behind `||` an operand that stays together; longer if a looser operator takes it in. */
  lemma {:induction false} PutIsLonger(b: Table, t: Expr, x: Expr)
    requires Grouped(b, t) && Grouped(b, x)
    ensures Length(Put(b, t, "||", x)) >= Length(t) + Length(x)
    ensures !Above(b, b("||"), t) ==> Length(Put(b, t, "||", x)) > Length(t) + Length(x)
  {
    LengthIsPositive(b, x);
    if t.Binary? && b(t.op) < b("||") {
      PutIsLonger(b, t.right, x);
    } else {
      TopIsLoosest(b, b("||"), t);
    }
  }

  /** The argument's topmost operator is at most as tight as `||`, and a looser one ahead takes all of it in. */
  lemma SinkIsLonger(b: Table, l: Expr, o: string, r: Expr, a: Expr)
    requires Grouped(b, a) && b(o) < b("||") && Above(b, b(o) + 1, a)
    requires Length(Extend(b, r, "||", a)) >= Length(r) + Length(a)
    ensures Length(Extend(b, Binary(l, o, r), "||", a)) > Length(Binary(l, o, r)) + Length(a)
  {
    LengthIsPositive(b, a);
    ExtendSinks(b, l, o, r, "||", a);
    DoubledIsLonger(l, o, Extend(b, r, "||", a), r, Length(a));
  }

  lemma DoubledIsLonger(l: Expr, o: string, x: Expr, r: Expr, n: nat)
    requires o != "||" && n > 0 && Length(x) >= Length(r) + n
    ensures Length(Binary(l, o, x)) > Length(Binary(l, o, r)) + n
  {
  }

  /** The argument's topmost operator is at most as tight as `||` and ends up on top of everything. */
  lemma TopIsLonger(b: Table, t: Expr, a: Expr)
    requires Grouped(b, t) && Grouped(b, a) && a.Binary? && b(a.op) <= b("||") && Above(b, b(a.op), t)
    requires Length(Extend(b, t, "||", a.left)) >= Length(t) + Length(a.left)
    ensures Extend(b, t, "||", a) == Binary(Extend(b, t, "||", a.left), a.op, a.right)
    ensures a.op != "||" ==> Length(Extend(b, t, "||", a)) > Length(t) + Length(a)
  {
    var u := Extend(b, t, "||", a.left);
    LengthIsPositive(b, t);
    ExtendBinary(b, t, "||", a.left, a.op, a.right);
    TightStaysTogether(b, u, a.op, a.right);
    ExtendAbove(b, b(a.op), t, "||", a.left);
  }

  lemma FirmBars(b: Table, a: Expr)
    requires Grouped(b, a) && a.Binary? && a.op == "||"
    ensures Firm(b, a) <==> Firm(b, a.left)
  {
    TighterIsFirm(b, a.right);
  }

  /** The case of an argument that stays together. */
  lemma TightIsLonger(b: Table, t: Expr, a: Expr)
    requires Grouped(b, t) && Grouped(b, a) && Above(b, b("||") + 1, a)
    ensures Length(Extend(b, t, "||", a)) >= Length(t) + Length(a)
    ensures !(Above(b, b("||"), t) && Firm(b, a)) ==> Length(Extend(b, t, "||", a)) > Length(t) + Length(a)
  {
    TightStaysTogether(b, t, "||", a);
    PutIsLonger(b, t, a);
    TighterIsFirm(b, a);
  }

  lemma {:induction false} ExtendIsLonger(b: Table, t: Expr, a: Expr)
    requires Grouped(b, t) && Grouped(b, a)
    ensures Length(Extend(b, t, "||", a)) >= Length(t) + Length(a)
    ensures !(Above(b, b("||"), t) && Firm(b, a)) ==> Length(Extend(b, t, "||", a)) > Length(t) + Length(a)
    decreases a, t
  {
    if Above(b, b("||") + 1, a) {
      TightIsLonger(b, t, a);
    } else {
      TopIsLoose(b, a);
      if t.Binary? && b(t.op) < b(a.op) {
        TopIsLoosest(b, b(t.op) + 1, a);
        ExtendIsLonger(b, t.right, a);
        SinkIsLonger(b, t.left, t.op, t.right, a);
      } else {
        TopIsLoosest(b, b(a.op), t);
        ExtendIsLonger(b, t, a.left);
        TopIsLonger(b, t, a);
        if a.op == "||" {
          FirmBars(b, a);
        }
      }
    }
  }

  lemma TopIsLoose(b: Table, a: Expr)
    requires Grouped(b, a) && !Above(b, b("||") + 1, a)
    ensures a.Binary? && b(a.op) <= b("||")
  {
    if a.Binary? && b(a.op) > b("||") {
      TopIsLoosest(b, b("||") + 1, a);
    }
  }

  lemma {:induction false} TighterIsFirm(b: Table, a: Expr)
    requires Above(b, b("||") + 1, a)
    ensures Firm(b, a)
  {
    if a.Binary? {
      TighterIsFirm(b, a.left);
      TighterIsFirm(b, a.right);
    }
  }

  lemma {:induction false} ExtendAllIsLonger(b: Table, t: Expr, es: Exprs)
    requires Grouped(b, t) && AllGrouped(b, es)
    ensures Length(ExtendAll(b, t, es)) >= Length(t) + TotalLength(es)
    ensures es.Cons? && !Joins(b, t, es) ==> Length(ExtendAll(b, t, es)) > Length(t) + TotalLength(es)
    decreases es
  {
    if es.Cons? {
      var u := Extend(b, t, "||", es.head);
      ExtendIsLonger(b, t, es.head);
      ExtendGroups(b, t, "||", es.head);
      ExtendAllIsLonger(b, u, es.tail);
      assert !AllFirm(b, es.tail) ==> es.tail.Cons? && !Joins(b, u, es.tail);
    }
  }

  // ---- Nor does anything around it hide the difference ----------------------------------------

  lemma {:induction false} MeantIsLonger(b: Table, e: Expr)
    requires Grouped(b, e)
    ensures Length(Meant(b, e)) >= Length(e) && (!Tight(b, e) ==> Length(Meant(b, e)) > Length(e))
    decreases e, 1
  {
    match e
    case Leaf(_) =>
    case Call(_, args) => MeantAreLonger(b, args);
    case Paren(inner) => MeantIsLonger(b, inner);
    case Binary(l, op, r) =>
      MeantShape(b, e);
      MeantIsLonger(b, l);
      MeantIsLonger(b, r);
    case ConcatCall(args) =>
      MeantAreLonger(b, args);
      MeantShape(b, args.head);
      MeantShapes(b, args.tail);
      ExtendAllIsLonger(b, Meant(b, args.head), MeantAll(b, args.tail));
      MeantJoins(b, args.head, args.tail);
  }

  lemma {:induction false} MeantAreLonger(b: Table, es: Exprs)
    requires AllGrouped(b, es)
    ensures TotalLength(MeantAll(b, es)) >= TotalLength(es)
    ensures !AllTight(b, es) ==> TotalLength(MeantAll(b, es)) > TotalLength(es)
    decreases es, 0
  {
    if es.Cons? {
      MeantIsLonger(b, es.head);
      MeantAreLonger(b, es.tail);
    }
  }

  // ---- Exactly when the value is kept ---------------------------------------------------------

  ghost predicate KeepsValue(b: Table, e: Expr) {
    forall m :: ReadsBars(m) ==> Eval(Meant(b, e), m) == Eval(e, m)
  }

  /** For every tree of the grammar: the rewritten text, read back by the grammar, has the value of the
      original under every reading if and only if every CONCAT joins tightly. */
  lemma ValueIsKeptIff(b: Table, e: Expr)
    requires Grouped(b, e)
    ensures KeepsValue(b, e) <==> Tight(b, e)
  {
    if Tight(b, e) {
      forall m | ReadsBars(m) ensures Eval(Meant(b, e), m) == Eval(e, m) {
        TightKeepsValue(b, e, m);
      }
    } else {
      MeantIsLonger(b, e);
      MeantShape(b, e);
      LengthIsMeasured(b, e);
      LengthIsMeasured(b, Meant(b, e));
      assert Eval(Meant(b, e), Repeating()) != Eval(e, Repeating());
    }
  }

  /** Atoms, calls, parenthesised arguments and CONCATs always join tightly. */
  lemma {:induction false} PlainArgumentsJoin(b: Table, first: Expr, rest: Exprs)
    requires !first.Binary? && NoneBinary(rest)
    ensures Joins(b, first, rest)
    decreases rest
  {
    if rest.Cons? {
      PlainArgumentsJoin(b, rest.head, rest.tail);
    }
  }

  predicate NoneBinary(es: Exprs) { es.Cons? ==> !es.head.Binary? && NoneBinary(es.tail) }

  // ---- A text that changes its value ----------------------------------------------------------

  lemma ShortHoldsNoConcat(x: string)
    requires |x| < 6
    ensures FindConcat(x, 0).None?
  {
  }

  lemma ByteIsLeaf(c: char)
    requires !IsSpace(c) && !IsQuote(c) && c != '(' && c != ')' && c != ','
    ensures WellFormed(Leaf([c]))
  {
    ShortHoldsNoConcat([c]);
    assert Quiet([c], 1, None);
  }

  const EQUALS := Binary(Leaf("x"), "=", Leaf("y"))

  const LOOSE := ConcatCall(Cons(EQUALS, Cons(Leaf("z"), Nil)))

  lemma LooseIsWritten(b: Table)
    requires b("=") < b("||")
    ensures Print(LOOSE) == "CONCAT(x = y, z)" && WellFormed(LOOSE) && Grouped(b, LOOSE)
  {
    ByteIsLeaf('x');
    ByteIsLeaf('y');
    ByteIsLeaf('z');
    ByteIsLeaf('=');
    ShortHoldsNoConcat("=" + " (");
    assert Print(EQUALS) == "x = y";
    assert PrintAll(Cons(Leaf("z"), Nil), ", ") == "z";
    assert PrintAll(LOOSE.args, ", ") == "x = y, z";
  }

  lemma LooseIsRead(b: Table)
    requires b("=") < b("||")
    ensures Meant(b, LOOSE) == SWALLOWED
  {
    var x, y, z := Leaf("x"), Leaf("y"), Leaf("z");
    ExtendAtom(b, x, "=", y);
    ExtendAtom(b, EQUALS, "||", z);
    assert Chained(LOOSE) == Chain(LOOSE.args);
    assert Reread(b, EQUALS) == EQUALS;
    assert RereadAll(b, Cons(z, Nil)) == Cons(z, RereadAll(b, Nil));
    assert ExtendAll(b, EQUALS, Cons(z, Nil)) == ExtendAll(b, Extend(b, EQUALS, "||", z), Nil);
  }

  /** Names stand for themselves; `=` compares. */
  function Comparing(): (m: Reading)
    ensures ReadsBars(m)
  {
    Reading(
      t => Str(t),
      (fn, vs) => Null,
      (op, u, v) =>
        if op == "||" then Bar(u, v) else if u.Null? || v.Null? then Null else if u == v then Str("1") else Str("0"))
  }

  lemma LooseValue()
    ensures Eval(LOOSE, Comparing()) == Str("0z")
  {
    var m := Comparing();
    assert Eval(EQUALS, m) == Str("0");
    assert Eval(Leaf("z"), m) == Str("z");
    SingleConcat(Str("z"));
    assert EvalAll(Cons(Leaf("z"), Nil), m) == Values(Str("z"), NoValues);
    assert EvalAll(LOOSE.args, m) == Values(Str("0"), Values(Str("z"), NoValues));
    assert "0" + "z" == "0z";
  }

  const SWALLOWED := Paren(Binary(Leaf("x"), "=", Binary(Leaf("y"), "||", Leaf("z"))))

  lemma SwallowedValue()
    ensures Eval(SWALLOWED, Comparing()) == Str("0")
  {
    var m := Comparing();
    assert Eval(Binary(Leaf("y"), "||", Leaf("z")), m) == Str("y" + "z");
  }

  lemma SwallowedText()
    ensures Print(SWALLOWED) == "(x = y || z)"
  {
    var x, y, z := Leaf("x"), Leaf("y"), Leaf("z");
    assert Print(Binary(y, "||", z)) == "y || z";
    assert Print(Binary(x, "=", Binary(y, "||", z))) == "x = y || z";
  }

  /** `CONCAT(x = y, z)` becomes `(x = y || z)`. With `=` looser than `||` that compares x with y and z
      joined: of unequal names the original makes "0z", the rewritten text "0". */
  lemma LooseTextChangesValue(b: Table)
    requires b("=") < b("||")
    ensures Rewritten("CONCAT(x = y, z)") == "(x = y || z)" == Print(Meant(b, LOOSE))
    ensures Eval(LOOSE, Comparing()) == Str("0z") && Eval(Meant(b, LOOSE), Comparing()) == Str("0")
  {
    LooseIsWritten(b);
    LooseIsRead(b);
    RewrittenIsRead(b, LOOSE);
    SwallowedText();
    LooseValue();
    SwallowedValue();
  }
}
