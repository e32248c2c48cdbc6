/**
 The text of an expression determines its tree: with leaves and operators that are single tokens, no
 two trees of the grammar print alike.
 */
module ConcatText {
  import opened Text
  import opened Quotes
  import opened Concat
  import opened ConcatTrees
  import opened ConcatGrammar

  // ---- Tokens ---------------------------------------------------------------------------------

  predicate IsNameByte(c: char) { IsIdentByte(c) || c == '.' }

  /** A name, possibly qualified, or a number. */
  predicate IsName(x: string) { x != "" && forall k :: 0 <= k < |x| ==> IsNameByte(x[k]) }

  /** A quoted literal: the first quote that closes it is its last byte. */
  predicate IsLiteral(x: string) {
    && |x| >= 2 && IsQuote(x[0]) && ClosesAt(x[0], false, x, 1, |x|)
    && StaysOpen(x[0], false, x, 1, |x|)
  }

  predicate IsOperatorByte(c: char) { c != ' ' && c != '(' && c != ')' && c != ',' }

  predicate IsOperator(op: string) { op != "" && forall k :: 0 <= k < |op| ==> IsOperatorByte(op[k]) }

  /** Every leaf is one name, number or literal, every operator one token, and no function is CONCAT. */
  predicate Lexical(e: Expr) {
    match e
    case Leaf(text) => IsName(text) || IsLiteral(text)
    case Call(fn, args) => IsWord(fn) && fn != "CONCAT" && AllLexical(args)
    case Paren(inner) => Lexical(inner)
    case Binary(l, op, r) => Lexical(l) && IsOperator(op) && Lexical(r)
    case ConcatCall(args) => AllLexical(args)
    case Chain(args) => AllLexical(args)
  }

  predicate AllLexical(es: Exprs) { es.Cons? ==> Lexical(es.head) && AllLexical(es.tail) }

  // ---- Cancelling text ------------------------------------------------------------------------

  lemma Cancel(a: string, s: string, t: string)
    requires a + s == a + t
    ensures s == t
  {
    assert (a + s)[|a|..] == s && (a + t)[|a|..] == t;
  }

  lemma CancelSame(a: string, b: string, s: string, t: string)
    requires a + s == b + t && |a| == |b|
    ensures a == b && s == t
  {
    assert (a + s)[..|a|] == a && (b + t)[..|b|] == b;
    assert (a + s)[|a|..] == s && (b + t)[|b|..] == t;
  }

  /** What may follow an operand. */
  predicate EndsOperand(s: string) { s == "" || s[0] == ' ' || s[0] == ',' || s[0] == ')' }

  /** What may follow a whole level. */
  predicate EndsLevel(s: string) { s == "" || s[0] == ',' || s[0] == ')' }

  lemma NameIsLongest(u: string, x: string, s: string, y: string, t: string)
    requires u == x + s && u == y + t && IsName(y) && (s != "" ==> !IsNameByte(s[0]))
    ensures |y| <= |x|
  {
    assert forall k :: 0 <= k < |y| ==> u[k] == y[k];
    assert s != "" ==> u[|x|] == s[0];
  }

  lemma NamesEnd(u: string, x: string, s: string, y: string, t: string)
    requires u == x + s && u == y + t && IsName(x) && IsName(y)
    requires (s != "" ==> !IsNameByte(s[0])) && (t != "" ==> !IsNameByte(t[0]))
    ensures x == y && s == t
  {
    NameIsLongest(u, x, s, y, t);
    NameIsLongest(u, y, t, x, s);
    CancelSame(x, y, s, t);
  }

  lemma OperatorIsLongest(u: string, x: string, s: string, y: string, t: string)
    requires u == x + (" " + s) && u == y + t && IsOperator(y)
    ensures |y| <= |x|
  {
    assert forall k :: 0 <= k < |y| ==> u[k] == y[k];
    assert u[|x|] == (" " + s)[0];
  }

  lemma OperatorsEnd(u: string, x: string, s: string, y: string, t: string)
    requires u == x + (" " + s) && u == y + (" " + t) && IsOperator(x) && IsOperator(y)
    ensures x == y && s == t
  {
    OperatorIsLongest(u, x, s, y, " " + t);
    OperatorIsLongest(u, y, t, x, " " + s);
    CancelSame(x, y, " " + s, " " + t);
    Cancel(" ", s, t);
  }

  lemma {:induction false} SpotOfPrefix(q: char, x: string, y: string, k: nat)
    requires 1 <= k <= |x| && k <= |y| && forall i :: 0 <= i < k ==> x[i] == y[i]
    ensures SpotAt(q, false, x, 1, k) == SpotAt(q, false, y, 1, k)
    decreases k
  {
    if k > 1 {
      SpotOfPrefix(q, x, y, k - 1);
    }
  }

  /** The byte behind the first quote that is not yet the last of a literal is its second half. */
  lemma QuoteIsPaired(x: string, y: string)
    requires IsLiteral(x) && IsLiteral(y) && x < y
    ensures y[|x|] == x[0]
  {
    SpotOfPrefix(x[0], x, y, |x|);
    assert !ClosesAt(y[0], false, y, 1, |x|);
  }

  /** A literal is no proper beginning of another one with an operand's end behind it. */
  lemma LiteralIsLongest(u: string, x: string, s: string, y: string, t: string)
    requires u == x + s && u == y + t && IsLiteral(x) && IsLiteral(y) && EndsOperand(s)
    ensures |y| <= |x|
  {
    assert u[..|x|] == x && u[..|y|] == y;
    assert s != "" ==> u[|x|] == s[0];
    if |x| < |y| {
      assert x == y[..|x|];
      QuoteIsPaired(x, y);
      assert false;
    }
  }

  lemma LiteralsEnd(u: string, x: string, s: string, y: string, t: string)
    requires u == x + s && u == y + t && IsLiteral(x) && IsLiteral(y) && EndsOperand(s) && EndsOperand(t)
    ensures x == y && s == t
  {
    LiteralIsLongest(u, x, s, y, t);
    LiteralIsLongest(u, y, t, x, s);
    CancelSame(x, y, s, t);
  }

  // ---- Rows -----------------------------------------------------------------------------------

  function PrintOps(ops: Ops): string {
    match ops
    case Stop => ""
    case Step(op, x, rest) => " " + (op + (" " + (Print(x) + PrintOps(rest))))
  }

  function PrintRow(row: Row): string { Print(row.first) + PrintOps(row.ops) }

  lemma {:induction false} PrintOpsThen(p: Ops, q: Ops)
    ensures PrintOps(Then(p, q)) == PrintOps(p) + PrintOps(q)
  {
    match p
    case Stop => assert "" + PrintOps(q) == PrintOps(q);
    case Step(op, x, rest) =>
      PrintOpsThen(rest, q);
      var z := PrintOps(q);
      Assoc(Print(x), PrintOps(rest), z);
      Assoc(" ", Print(x) + PrintOps(rest), z);
      Assoc(op, " " + (Print(x) + PrintOps(rest)), z);
      Assoc(" ", op + (" " + (Print(x) + PrintOps(rest))), z);
  }

  /** The text of a tree depends on its row alone. */
  lemma {:induction false} PrintIsRow(e: Expr)
    ensures Print(e) == PrintRow(RowOf(e))
  {
    if e.Binary? {
      PrintIsRow(e.left);
      PrintIsRow(e.right);
      var l, r := RowOf(e.left), RowOf(e.right);
      PrintOpsThen(l.ops, Step(e.op, r.first, r.ops));
      Assoc(Print(l.first), PrintOps(l.ops), PrintOps(Step(e.op, r.first, r.ops)));
    } else {
      assert Print(e) + "" == Print(e);
    }
  }

  predicate IsOperand(b: Table, x: Expr) { !x.Binary? && Grouped(b, x) && Lexical(x) }

  predicate AreOps(b: Table, ops: Ops) {
    ops.Step? ==> IsOperator(ops.op) && IsOperand(b, ops.operand) && AreOps(b, ops.rest)
  }

  lemma {:induction false} ThenAreOps(b: Table, p: Ops, q: Ops)
    requires AreOps(b, p) && AreOps(b, q)
    ensures AreOps(b, Then(p, q))
  {
    if p.Step? {
      ThenAreOps(b, p.rest, q);
    }
  }

  lemma {:induction false} RowsOfTrees(b: Table, e: Expr)
    requires Grouped(b, e) && Lexical(e)
    ensures IsOperand(b, RowOf(e).first) && AreOps(b, RowOf(e).ops)
  {
    if e.Binary? {
      RowsOfTrees(b, e.left);
      RowsOfTrees(b, e.right);
      ThenAreOps(b, RowOf(e.left).ops, Step(e.op, RowOf(e.right).first, RowOf(e.right).ops));
    }
  }

  // ---- How an operand starts ------------------------------------------------------------------

  /** The name an operand starts with, if it starts with one. */
  function NameOf(x: Expr): string {
    match x
    case Leaf(text) => text
    case Call(fn, _) => fn
    case _ => "CONCAT"
  }

  predicate IsNamed(x: Expr) { (x.Leaf? && IsName(x.text)) || x.Call? || x.ConcatCall? }

  /** What follows that name. */
  function BehindName(x: Expr, s: string): string
    requires IsNamed(x)
  {
    if x.Leaf? then s else "(" + (PrintAll(x.args, ", ") + (")" + s))
  }

  lemma NamedText(b: Table, x: Expr, s: string)
    requires IsOperand(b, x) && IsNamed(x) && EndsOperand(s)
    ensures Print(x) + s == NameOf(x) + BehindName(x, s) && IsName(NameOf(x))
    ensures var r := BehindName(x, s);
            (r != "" ==> !IsNameByte(r[0])) && (x.Leaf? <==> r == "" || r[0] != '(')
  {
    if !x.Leaf? {
      var p := PrintAll(x.args, ", ");
      Assoc(NameOf(x), "(" + (p + ")"), s);
      Assoc("(", p + ")", s);
      Assoc(p, ")", s);
    }
  }

  lemma ParenText(x: Expr, s: string)
    requires x.Paren?
    ensures Print(x) + s == "(" + (Print(x.inner) + (")" + s))
  {
    var p := Print(x.inner);
    Assoc("(", p + ")", s);
    Assoc(p, ")", s);
  }

  /** The first byte tells names, literals and parentheses apart. */
  lemma FirstByte(b: Table, x: Expr, s: string, u: string)
    requires IsOperand(b, x) && EndsOperand(s) && u == Print(x) + s
    ensures u != "" && u[0] != ')' && u[0] != ' ' && u[0] != ','
    ensures IsNamed(x) <==> IsNameByte(u[0])
    ensures (x.Leaf? && IsLiteral(x.text)) <==> IsQuote(u[0])
    ensures x.Paren? <==> u[0] == '('
  {
    if IsNamed(x) {
      NamedText(b, x, s);
      assert u[0] == NameOf(x)[0];
    } else if x.Paren? {
      ParenText(x, s);
    } else {
      assert u[0] == x.text[0];
    }
  }

  lemma TreeFirstByte(b: Table, e: Expr, s: string, u: string)
    requires Grouped(b, e) && Lexical(e) && u == Print(e) + s && EndsLevel(s)
    ensures u != "" && u[0] != ')'
  {
    PrintIsRow(e);
    RowsOfTrees(b, e);
    var row := RowOf(e);
    Assoc(Print(row.first), PrintOps(row.ops), s);
    OpsFirstByte(row.ops, s);
    FirstByte(b, row.first, PrintOps(row.ops) + s, u);
  }

  lemma OpsFirstByte(ops: Ops, s: string)
    requires EndsLevel(s)
    ensures EndsOperand(PrintOps(ops) + s)
    ensures ops.Step? <==> PrintOps(ops) + s != "" && (PrintOps(ops) + s)[0] == ' '
  {
    if ops.Stop? {
      assert "" + s == s;
    }
  }

  // ---- No two trees print alike ---------------------------------------------------------------

  lemma {:induction false} OperandsEnd(b: Table, u: string, x: Expr, s: string, y: Expr, t: string)
    requires IsOperand(b, x) && IsOperand(b, y) && u == Print(x) + s && u == Print(y) + t && EndsOperand(s) && EndsOperand(t)
    ensures x == y && s == t
    decreases |u|, 1
  {
    FirstByte(b, x, s, u);
    FirstByte(b, y, t, u);
    if IsNameByte(u[0]) {
      NamedEnd(b, u, x, s, y, t);
    } else if u[0] == '(' {
      ParenText(x, s);
      ParenText(y, t);
      var v := u[1..];
      assert v == Print(x.inner) + (")" + s) && v == Print(y.inner) + (")" + t);
      TreesEnd(b, v, x.inner, ")" + s, y.inner, ")" + t);
      Cancel(")", s, t);
    } else {
      LiteralsEnd(u, x.text, s, y.text, t);
    }
  }

  lemma {:induction false} NamedEnd(b: Table, u: string, x: Expr, s: string, y: Expr, t: string)
    requires IsOperand(b, x) && IsOperand(b, y) && u == Print(x) + s && u == Print(y) + t && EndsOperand(s) && EndsOperand(t)
    requires IsNamed(x) && IsNamed(y)
    ensures x == y && s == t
    decreases |u|, 0
  {
    NamedText(b, x, s);
    NamedText(b, y, t);
    NamesEnd(u, NameOf(x), BehindName(x, s), NameOf(y), BehindName(y, t));
    if !x.Leaf? {
      var v, w := PrintAll(x.args, ", ") + (")" + s), PrintAll(y.args, ", ") + (")" + t);
      Cancel("(", v, w);
      assert |v| < |u|;
      ListsEnd(b, v, x.args, s, y.args, t);
    }
  }

  lemma {:induction false} RowsEnd(b: Table, u: string, p: Row, s: string, q: Row, t: string)
    requires IsOperand(b, p.first) && AreOps(b, p.ops) && IsOperand(b, q.first) && AreOps(b, q.ops)
    requires u == PrintRow(p) + s && u == PrintRow(q) + t && EndsLevel(s) && EndsLevel(t)
    ensures p == q && s == t
    decreases |u|, 2
  {
    var v, w := PrintOps(p.ops) + s, PrintOps(q.ops) + t;
    Assoc(Print(p.first), PrintOps(p.ops), s);
    Assoc(Print(q.first), PrintOps(q.ops), t);
    OpsFirstByte(p.ops, s);
    OpsFirstByte(q.ops, t);
    OperandsEnd(b, u, p.first, v, q.first, w);
    FirstByte(b, p.first, v, u);
    OperandIsText(b, p.first);
    OpsEnd(b, v, p.ops, s, q.ops, t);
  }

  lemma OperandIsText(b: Table, x: Expr)
    requires IsOperand(b, x)
    ensures Print(x) != ""
  {
    FirstByte(b, x, "", Print(x) + "");
  }

  lemma StepText(p: Ops, s: string)
    requires p.Step?
    ensures PrintOps(p) + s == " " + (p.op + (" " + (PrintRow(Row(p.operand, p.rest)) + s)))
  {
    var r := PrintRow(Row(p.operand, p.rest));
    Assoc(" ", p.op + (" " + r), s);
    Assoc(p.op, " " + r, s);
    Assoc(" ", r, s);
  }

  lemma {:induction false} OpsEnd(b: Table, v: string, p: Ops, s: string, q: Ops, t: string)
    requires AreOps(b, p) && AreOps(b, q) && v == PrintOps(p) + s && v == PrintOps(q) + t && EndsLevel(s) && EndsLevel(t)
    ensures p == q && s == t
    decreases |v|, 2
  {
    OpsFirstByte(p, s);
    OpsFirstByte(q, t);
    if p.Stop? {
      assert "" + s == s && "" + t == t;
    } else {
      var x, y := PrintRow(Row(p.operand, p.rest)) + s, PrintRow(Row(q.operand, q.rest)) + t;
      StepText(p, s);
      StepText(q, t);
      Cancel(" ", p.op + (" " + x), q.op + (" " + y));
      OperatorsEnd(p.op + (" " + x), p.op, x, q.op, y);
      RowsEnd(b, x, Row(p.operand, p.rest), s, Row(q.operand, q.rest), t);
    }
  }

  lemma {:induction false} TreesEnd(b: Table, u: string, e: Expr, s: string, f: Expr, t: string)
    requires Grouped(b, e) && Lexical(e) && Grouped(b, f) && Lexical(f)
    requires u == Print(e) + s && u == Print(f) + t && EndsLevel(s) && EndsLevel(t)
    ensures e == f && s == t
    decreases |u|, 3
  {
    PrintIsRow(e);
    PrintIsRow(f);
    RowsOfTrees(b, e);
    RowsOfTrees(b, f);
    RowsEnd(b, u, RowOf(e), s, RowOf(f), t);
    RowsAreReadOneWay(b, e, f);
  }

  /** What follows the first argument of a list. */
  function BehindHead(tail: Exprs, s: string): string {
    if tail.Nil? then ")" + s else ", " + (PrintAll(tail, ", ") + (")" + s))
  }

  lemma ListText(es: Exprs, s: string)
    requires es.Cons?
    ensures PrintAll(es, ", ") + (")" + s) == Print(es.head) + BehindHead(es.tail, s)
  {
    if es.tail.Cons? {
      var z := PrintAll(es.tail, ", ");
      Assoc(Print(es.head), ", " + z, ")" + s);
      Assoc(", ", z, ")" + s);
    }
  }

  lemma ListFirstByte(b: Table, es: Exprs, s: string, u: string)
    requires AllGrouped(b, es) && AllLexical(es) && u == PrintAll(es, ", ") + (")" + s)
    ensures u != "" && (es.Nil? <==> u[0] == ')')
  {
    if es.Cons? {
      ListText(es, s);
      TreeFirstByte(b, es.head, BehindHead(es.tail, s), u);
    } else {
      assert "" + (")" + s) == ")" + s;
    }
  }

  lemma {:induction false} ListsEnd(b: Table, u: string, es: Exprs, s: string, fs: Exprs, t: string)
    requires AllGrouped(b, es) && AllLexical(es) && AllGrouped(b, fs) && AllLexical(fs)
    requires u == PrintAll(es, ", ") + (")" + s) && u == PrintAll(fs, ", ") + (")" + t)
    ensures es == fs && s == t
    decreases |u|, 4
  {
    ListFirstByte(b, es, s, u);
    ListFirstByte(b, fs, t, u);
    if es.Nil? {
      assert "" + (")" + s) == ")" + s && "" + (")" + t) == ")" + t;
      Cancel(")", s, t);
    } else {
      var v, w := BehindHead(es.tail, s), BehindHead(fs.tail, t);
      ListText(es, s);
      ListText(fs, t);
      TreesEnd(b, u, es.head, v, fs.head, w);
      TailsEnd(b, u, es, s, fs, t);
    }
  }

  lemma {:induction false} TailsEnd(b: Table, u: string, es: Exprs, s: string, fs: Exprs, t: string)
    requires es.Cons? && fs.Cons? && es.head == fs.head && u == Print(es.head) + BehindHead(es.tail, s)
    requires AllGrouped(b, es) && AllLexical(es) && AllGrouped(b, fs) && AllLexical(fs)
    requires BehindHead(es.tail, s) == BehindHead(fs.tail, t)
    ensures es == fs && s == t
    decreases |u|, 3
  {
    var v := BehindHead(es.tail, s);
    assert es.tail.Nil? <==> v[0] == ')';
    assert fs.tail.Nil? <==> BehindHead(fs.tail, t)[0] == ')';
    if es.tail.Nil? {
      Cancel(")", s, t);
    } else {
      var x, y := PrintAll(es.tail, ", ") + (")" + s), PrintAll(fs.tail, ", ") + (")" + t);
      Cancel(", ", x, y);
      ListsEnd(b, x, es.tail, s, fs.tail, t);
    }
  }

  /** Two trees of the grammar with the same text are the same tree. */
  lemma TextDeterminesTree(b: Table, e: Expr, f: Expr)
    requires Grouped(b, e) && Lexical(e) && Grouped(b, f) && Lexical(f) && Print(e) == Print(f)
    ensures e == f
  {
    TreesEnd(b, Print(e) + "", e, "", f, "");
  }
}
