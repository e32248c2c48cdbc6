/** Every balanced parenthesis of a MySQL statement is a list of columns. */
module MySqlNesting {
  import opened Text
  import opened MySqlLexemes
  import opened MySqlTranslate
  import opened MySqlColumns
  import opened MySqlRule

  /** Read from inside `d + 1` open parentheses, the lexemes close them all. */
  predicate Closes(xs: Lexemes, d: nat)
    decreases xs
  {
    match xs
    case Done => false
    case Next(Open, rest) => Closes(rest, d + 1)
    case Next(Close, rest) => d == 0 || Closes(rest, d - 1)
    case Next(_, rest) => Closes(rest, d)
  }

  function Size(xs: Lexemes): nat { if xs.Done? then 0 else 1 + Size(xs.tail) }

  datatype Nested = Unclosed | Nested(items: Items, rest: Lexemes)

  /** What stands up to the closing parenthesis, and what follows it. */
  function Nest(xs: Lexemes): (r: Nested)
    ensures r.Nested? ==> Size(r.rest) < Size(xs)
    decreases Size(xs)
  {
    if xs.Done? then Unclosed
    else if xs.head.Close? then Nested(End, xs.tail)
    else if xs.head.Open? then
      var inner := Nest(xs.tail);
      if inner.Unclosed? then Unclosed
      else
        var more := Nest(inner.rest);
        if more.Unclosed? then Unclosed else Nested(Group(inner.items, more.items), more.rest)
    else
      var more := Nest(xs.tail);
      if more.Unclosed? then Unclosed else Nested(Led(xs.head, more.items), more.rest)
  }

  function Led(x: Lexeme, xs: Items): Items { if x.Comma? then Sep(xs) else Item(x, xs) }

  lemma {:induction false} NestIsFlat(xs: Lexemes)
    requires Nest(xs).Nested?
    ensures WellNested(Nest(xs).items) && xs == Flat(Nest(xs).items, Next(Close, Nest(xs).rest))
    decreases Size(xs)
  {
    match xs
    case Next(Close, _) =>
    case Next(Open, rest) =>
      NestIsFlat(rest);
      NestIsFlat(Nest(rest).rest);
    case Next(_, rest) => NestIsFlat(rest);
  }

  /** The parenthesis is found exactly if it is closed. */
  lemma {:induction false} NestIffCloses(xs: Lexemes, d: nat)
    ensures Closes(xs, d) <==> Nest(xs).Nested? && (d == 0 || Closes(Nest(xs).rest, d - 1))
    decreases Size(xs)
  {
    match xs
    case Done =>
    case Next(Close, _) =>
    case Next(Open, rest) =>
      NestIffCloses(rest, d + 1);
      if Nest(rest).Nested? {
        NestIffCloses(Nest(rest).rest, d);
      }
    case Next(_, rest) => NestIffCloses(rest, d);
  }

  // ---- Columns --------------------------------------------------------------------------------

  function WithHead(x: Lexeme, cs: Columns): Columns {
    if cs.Only? then Only(Item(x, cs.column)) else More(Item(x, cs.column), cs.rest)
  }

  function WithGroup(inner: Items, cs: Columns): Columns {
    if cs.Only? then Only(Group(inner, cs.column)) else More(Group(inner, cs.column), cs.rest)
  }

  /** The pieces between the commas of the outermost level. */
  function ColumnsOf(xs: Items): Columns {
    match xs
    case End => Only(End)
    case Item(x, rest) => WithHead(x, ColumnsOf(rest))
    case Sep(rest) => More(End, ColumnsOf(rest))
    case Group(inner, rest) => WithGroup(inner, ColumnsOf(rest))
  }

  lemma {:induction false} ColumnsAreAll(xs: Items)
    requires WellNested(xs)
    ensures AreColumns(ColumnsOf(xs)) && Joined(ColumnsOf(xs)) == xs
  {
    match xs
    case End =>
    case Item(_, rest) => ColumnsAreAll(rest);
    case Sep(rest) => ColumnsAreAll(rest);
    case Group(_, rest) => ColumnsAreAll(rest);
  }

  /** Behind any lexemes, an opening parenthesis that is closed holds columns, and they are translated
      one by one. */
  lemma BalancedIsPerColumn(before: Lexemes, xs: Lexemes) returns (cs: Columns, rest: Lexemes, st: State)
    requires Closes(xs, 0)
    ensures AreColumns(cs) && xs == Flat(Joined(cs), Next(Close, rest))
    ensures Run("", Start, Behind(before, Next(Open, xs))) ==
            Run(PerColumn(Run("", Start, before) + "(", cs) + ")", st, rest)
  {
    NestIffCloses(xs, 0);
    NestIsFlat(xs);
    var n := Nest(xs);
    ColumnsAreAll(n.items);
    cs, rest := ColumnsOf(n.items), n.rest;
    var out, st0 := Run("", Start, before), StateBehind(Start, before);
    st := StateOf(st0.depth + 1, NewColumn(Walk(out + "(", Fresh, Joined(cs)).level), st0.pending, st0.key).(depth := st0.depth);
    ListIsPerColumn(before, cs, rest);
  }

  /** In every statement, a parenthesis that is closed holds columns, and they are translated one by one. */
  lemma StatementIsPerColumn(s: string, before: Lexemes, xs: Lexemes) returns (cs: Columns, rest: Lexemes, st: State)
    requires LexemesFrom(s, 0) == Behind(before, Next(Open, xs)) && Closes(xs, 0)
    ensures AreColumns(cs) && xs == Flat(Joined(cs), Next(Close, rest))
    ensures Translated(s) == Run(PerColumn(Run("", Start, before) + "(", cs) + ")", st, rest)
  {
    cs, rest, st := BalancedIsPerColumn(before, xs);
  }
}
