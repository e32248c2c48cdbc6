/**
 AUTO_INCREMENT and PRIMARY KEY, column by column. The translator remembers one pending keyword and
 one printed key, each with a depth; here the same output is computed from the nesting of the text,
 every column having its own memory.
 */
module MySqlColumns {
  import opened Text
  import opened MySqlLexemes
  import opened MySqlTranslate

  // ---- Nested column lists --------------------------------------------------------------------

  /** The inside of a parenthesis: lexemes, commas between columns, and nested parentheses. */
  datatype Items =
    | End
    | Item(lexeme: Lexeme, rest: Items)
    | Sep(rest: Items)
    | Group(inner: Items, rest: Items)

  predicate IsInner(x: Lexeme) { !x.Open? && !x.Close? && !x.Comma? }

  predicate WellNested(xs: Items) {
    match xs
    case End => true
    case Item(x, rest) => IsInner(x) && WellNested(rest)
    case Sep(rest) => WellNested(rest)
    case Group(inner, rest) => WellNested(inner) && WellNested(rest)
  }

  /** The lexemes of `xs`, with `more` behind them. */
  function Flat(xs: Items, more: Lexemes): Lexemes
    decreases xs
  {
    match xs
    case End => more
    case Item(x, rest) => Next(x, Flat(rest, more))
    case Sep(rest) => Next(Comma, Flat(rest, more))
    case Group(inner, rest) => Next(Open, Flat(inner, Next(Close, Flat(rest, more))))
  }

  // ---- What one level does --------------------------------------------------------------------

  /** The current column: an AUTO_INCREMENT waits, its PRIMARY KEY is printed. And the level so far:
      some AUTO_INCREMENT had to wait, some PRIMARY KEY was printed, here or deeper. */
  datatype Level = Level(pending: bool, key: bool, waited: bool, printed: bool)

  const Fresh := Level(false, false, false, false)

  function NewColumn(l: Level): Level { l.(pending := false, key := false) }

  /** A nested parenthesis forgets, at its own depth, whatever the outer column remembered. */
  function Around(l: Level, inner: Level): Level {
    Level(l.pending && !inner.waited, l.key && !inner.printed, l.waited || inner.waited, l.printed || inner.printed)
  }

  function LevelAfter(l: Level, x: Lexeme): Level {
    match x
    case Auto(_) => if l.key then l else l.(pending := true, waited := true)
    case Key => l.(pending := false, key := true, printed := true)
    case _ => l
  }

  function TextAfter(out: string, l: Level, x: Lexeme): string {
    match x
    case Auto(blanks) => if l.key then out + ("AUTOINCREMENT" + blanks) else out
    case Key => out + (if l.pending then "PRIMARY KEY AUTOINCREMENT" else "PRIMARY KEY")
    case _ => OutAfter(out, Start, x)
  }

  function Closed(out: string, l: Level): string { if l.pending then TrimBlanks(out) else out }

  datatype Walked = Walked(out: string, level: Level)

  function Walk(out: string, l: Level, xs: Items): Walked
    decreases xs
  {
    match xs
    case End => Walked(out, l)
    case Item(x, rest) => Walk(TextAfter(out, l, x), LevelAfter(l, x), rest)
    case Sep(rest) => Walk(Closed(out, l) + ",", NewColumn(l), rest)
    case Group(inner, rest) =>
      var w := Walk(out + "(", Fresh, inner);
      Walk(Closed(w.out, w.level) + ")", Around(l, w.level), rest)
  }

  // ---- The streaming pass computes it ---------------------------------------------------------

  predicate IsOuter(o: Option<int>, d: int) { o.Some? ==> o.value < d }

  /** The translator's state at depth `d`, given what it remembered from outside. */
  function StateOf(d: int, l: Level, pending: Option<int>, key: Option<int>): State {
    State(d,
          if l.pending then Some(d) else if l.waited then None else pending,
          if l.key then Some(d) else if l.printed then None else key)
  }

  predicate IsLevel(l: Level) { (l.pending ==> l.waited) && (l.key ==> l.printed) }

  lemma ItemStep(out: string, d: int, l: Level, pending: Option<int>, key: Option<int>, x: Lexeme)
    requires IsInner(x) && IsLevel(l) && IsOuter(pending, d) && IsOuter(key, d)
    ensures var st := StateOf(d, l, pending, key);
            OutAfter(out, st, x) == TextAfter(out, l, x) && StateAfter(st, x) == StateOf(d, LevelAfter(l, x), pending, key)
  {
  }

  lemma SepStep(out: string, d: int, l: Level, pending: Option<int>, key: Option<int>)
    requires IsLevel(l) && IsOuter(pending, d) && IsOuter(key, d)
    ensures var st := StateOf(d, l, pending, key);
            Ended(out, st) == Closed(out, l) && Leave(st) == StateOf(d, NewColumn(l), pending, key)
  {
  }

  /** Coming back from a nested parenthesis at depth `d + 1`. */
  lemma GroupStep(d: int, l: Level, inner: Level, pending: Option<int>, key: Option<int>)
    requires IsLevel(l) && IsLevel(inner)
    ensures var st := StateOf(d, l, pending, key);
            StateOf(d + 1, NewColumn(inner), st.pending, st.key).(depth := d) == StateOf(d, Around(l, inner), pending, key)
  {
  }

  lemma {:induction false} WalkKeepsLevel(out: string, l: Level, xs: Items)
    requires IsLevel(l)
    ensures IsLevel(Walk(out, l, xs).level)
    decreases xs
  {
    match xs
    case End =>
    case Item(x, rest) => WalkKeepsLevel(TextAfter(out, l, x), LevelAfter(l, x), rest);
    case Sep(rest) => WalkKeepsLevel(Closed(out, l) + ",", NewColumn(l), rest);
    case Group(inner, rest) =>
      var w := Walk(out + "(", Fresh, inner);
      WalkKeepsLevel(out + "(", Fresh, inner);
      WalkKeepsLevel(Closed(w.out, w.level) + ")", Around(l, w.level), rest);
  }

  /** For every nesting and every state, the single pass does what the columns say. */
  lemma {:induction false} StreamingIsPerColumn(out: string, d: int, l: Level, pending: Option<int>, key: Option<int>, xs: Items, more: Lexemes)
    requires WellNested(xs) && IsLevel(l) && IsOuter(pending, d) && IsOuter(key, d)
    ensures var w := Walk(out, l, xs);
            Run(out, StateOf(d, l, pending, key), Flat(xs, more)) == Run(w.out, StateOf(d, w.level, pending, key), more)
    decreases xs
  {
    var st := StateOf(d, l, pending, key);
    match xs
    case End =>
    case Item(x, rest) =>
      ItemStep(out, d, l, pending, key, x);
      StreamingIsPerColumn(TextAfter(out, l, x), d, LevelAfter(l, x), pending, key, rest, more);
    case Sep(rest) =>
      SepStep(out, d, l, pending, key);
      StreamingIsPerColumn(Closed(out, l) + ",", d, NewColumn(l), pending, key, rest, more);
    case Group(inner, rest) =>
      var tail := Flat(rest, more);
      var w := Walk(out + "(", Fresh, inner);
      WalkKeepsLevel(out + "(", Fresh, inner);
      StreamingIsPerColumn(out + "(", d + 1, Fresh, st.pending, st.key, inner, Next(Close, tail));
      SepStep(w.out, d + 1, w.level, st.pending, st.key);
      GroupStep(d, l, w.level, pending, key);
      StreamingIsPerColumn(Closed(w.out, w.level) + ")", d, Around(l, w.level), pending, key, rest, more);
  }

  /** A statement `before ( columns ) behind`: the list between the parentheses comes out column by
      column, whatever was pending before it. */
  lemma ColumnListIsPerColumn(out: string, st: State, xs: Items, more: Lexemes)
    requires WellNested(xs) && IsOuter(st.pending, st.depth + 1) && IsOuter(st.key, st.depth + 1)
    ensures var w := Walk(out + "(", Fresh, xs);
            var st' := StateOf(st.depth + 1, NewColumn(w.level), st.pending, st.key).(depth := st.depth);
            Run(out, st, Next(Open, Flat(xs, Next(Close, more)))) == Run(Closed(w.out, w.level) + ")", st', more)
  {
    var w := Walk(out + "(", Fresh, xs);
    WalkKeepsLevel(out + "(", Fresh, xs);
    StreamingIsPerColumn(out + "(", st.depth + 1, Fresh, st.pending, st.key, xs, Next(Close, more));
    SepStep(w.out, st.depth + 1, w.level, st.pending, st.key);
  }
}
