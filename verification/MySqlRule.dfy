/**
 The documented rule for AUTO_INCREMENT: it goes behind the PRIMARY KEY of its own column, and is
 dropped from a column without one. Columns never affect each other; a parenthesis nested in a
 column can, and exactly when it does is stated here.
 */
module MySqlRule {
  import opened Text
  import opened MySqlLexemes
  import opened MySqlTranslate
  import opened MySqlColumns

  // ---- Columns are independent ----------------------------------------------------------------

  predicate HasNoSep(xs: Items) {
    match xs
    case End => true
    case Item(_, rest) => HasNoSep(rest)
    case Sep(_) => false
    case Group(_, rest) => HasNoSep(rest)
  }

  /** A non-empty list of columns. */
  datatype Columns = Only(column: Items) | More(column: Items, rest: Columns)

  predicate AreColumns(cs: Columns) {
    WellNested(cs.column) && HasNoSep(cs.column) && (cs.More? ==> AreColumns(cs.rest))
  }

  /** `xs` with `ys` behind it. */
  function Then(xs: Items, ys: Items): Items {
    match xs
    case End => ys
    case Item(x, rest) => Item(x, Then(rest, ys))
    case Sep(rest) => Sep(Then(rest, ys))
    case Group(inner, rest) => Group(inner, Then(rest, ys))
  }

  function Joined(cs: Columns): Items {
    if cs.Only? then cs.column else Then(cs.column, Sep(Joined(cs.rest)))
  }

  /** One column on its own, with nothing remembered from any other. */
  function ColumnText(out: string, column: Items): string {
    var w := Walk(out, Fresh, column);
    Closed(w.out, w.level)
  }

  function PerColumn(out: string, cs: Columns): string
    decreases cs
  {
    if cs.Only? then ColumnText(out, cs.column) else PerColumn(ColumnText(out, cs.column) + ",", cs.rest)
  }

  lemma {:induction false} WalkThen(out: string, l: Level, xs: Items, ys: Items)
    ensures var w := Walk(out, l, xs);
            Walk(out, l, Then(xs, ys)) == Walk(w.out, w.level, ys)
    decreases xs
  {
    match xs
    case End =>
    case Item(x, rest) => WalkThen(TextAfter(out, l, x), LevelAfter(l, x), rest, ys);
    case Sep(rest) => WalkThen(Closed(out, l) + ",", NewColumn(l), rest, ys);
    case Group(inner, rest) =>
      var w := Walk(out + "(", Fresh, inner);
      WalkThen(Closed(w.out, w.level) + ")", Around(l, w.level), rest, ys);
  }

  /** What a level went through does not matter to its columns, only what the column itself holds. */
  lemma {:induction false} PastDoesNotMatter(out: string, l: Level, m: Level, xs: Items)
    requires l.pending == m.pending && l.key == m.key
    ensures var v, w := Walk(out, l, xs), Walk(out, m, xs);
            v.out == w.out && v.level.pending == w.level.pending && v.level.key == w.level.key
    decreases xs
  {
    match xs
    case End =>
    case Item(x, rest) => PastDoesNotMatter(TextAfter(out, l, x), LevelAfter(l, x), LevelAfter(m, x), rest);
    case Sep(rest) => PastDoesNotMatter(Closed(out, l) + ",", NewColumn(l), NewColumn(m), rest);
    case Group(inner, rest) =>
      var w := Walk(out + "(", Fresh, inner);
      PastDoesNotMatter(Closed(w.out, w.level) + ")", Around(l, w.level), Around(m, w.level), rest);
  }

  lemma {:induction false} ColumnsWalk(out: string, l: Level, cs: Columns)
    requires !l.pending && !l.key
    ensures var w := Walk(out, l, Joined(cs));
            Closed(w.out, w.level) == PerColumn(out, cs)
    decreases cs
  {
    var w := Walk(out, l, cs.column);
    PastDoesNotMatter(out, l, Fresh, cs.column);
    if cs.More? {
      WalkThen(out, l, cs.column, Sep(Joined(cs.rest)));
      ColumnsWalk(Closed(w.out, w.level) + ",", NewColumn(w.level), cs.rest);
    }
  }

  lemma {:induction false} ThenNested(xs: Items, ys: Items)
    requires WellNested(xs) && WellNested(ys)
    ensures WellNested(Then(xs, ys))
  {
    match xs
    case End =>
    case Item(_, rest) => ThenNested(rest, ys);
    case Sep(rest) => ThenNested(rest, ys);
    case Group(_, rest) => ThenNested(rest, ys);
  }

  lemma {:induction false} JoinedNested(cs: Columns)
    requires AreColumns(cs)
    ensures WellNested(Joined(cs))
  {
    if cs.More? {
      JoinedNested(cs.rest);
      ThenNested(cs.column, Sep(Joined(cs.rest)));
    }
  }

  /** A parenthesised column list comes out column by column: an AUTOINCREMENT is decided by its own
      column alone, whatever its neighbours hold and whatever was pending before the list. */
  lemma ColumnsAreIndependent(out: string, st: State, cs: Columns, more: Lexemes)
    requires AreColumns(cs) && IsOuter(st.pending, st.depth + 1) && IsOuter(st.key, st.depth + 1)
    ensures var l := Walk(out + "(", Fresh, Joined(cs)).level;
            var st' := StateOf(st.depth + 1, NewColumn(l), st.pending, st.key).(depth := st.depth);
            Run(out, st, Next(Open, Flat(Joined(cs), Next(Close, more)))) == Run(PerColumn(out + "(", cs) + ")", st', more)
  {
    JoinedNested(cs);
    ColumnListIsPerColumn(out, st, Joined(cs), more);
    ColumnsWalk(out + "(", Fresh, cs);
  }

  function Behind(before: Lexemes, xs: Lexemes): Lexemes {
    if before.Done? then xs else Next(before.head, Behind(before.tail, xs))
  }

  function StateBehind(st: State, before: Lexemes): State
    decreases before
  {
    if before.Done? then st else StateBehind(StateAfter(st, before.head), before.tail)
  }

  lemma {:induction false} RunBehind(out: string, st: State, before: Lexemes, xs: Lexemes)
    ensures Run(out, st, Behind(before, xs)) == Run(Run(out, st, before), StateBehind(st, before), xs)
    decreases before
  {
    if before.Next? {
      RunBehind(OutAfter(out, st, before.head), StateAfter(st, before.head), before.tail, xs);
    }
  }

  /** The translator never remembers a keyword from deeper than it stands. */
  lemma {:induction false} MemoryIsOuter(st: State, before: Lexemes)
    requires IsOuter(st.pending, st.depth + 1) && IsOuter(st.key, st.depth + 1)
    ensures var r := StateBehind(st, before);
            IsOuter(r.pending, r.depth + 1) && IsOuter(r.key, r.depth + 1)
    decreases before
  {
    if before.Next? {
      MemoryIsOuter(StateAfter(st, before.head), before.tail);
    }
  }

  /** In every statement whose lexemes hold a column list, the list is translated column by column. */
  lemma ListIsPerColumn(before: Lexemes, cs: Columns, more: Lexemes)
    requires AreColumns(cs)
    ensures var out, st := Run("", Start, before), StateBehind(Start, before);
            var l := Walk(out + "(", Fresh, Joined(cs)).level;
            var st' := StateOf(st.depth + 1, NewColumn(l), st.pending, st.key).(depth := st.depth);
            Run("", Start, Behind(before, Next(Open, Flat(Joined(cs), Next(Close, more))))) ==
            Run(PerColumn(out + "(", cs) + ")", st', more)
  {
    var list := Next(Open, Flat(Joined(cs), Next(Close, more)));
    RunBehind("", Start, before, list);
    MemoryIsOuter(Start, before);
    ColumnsAreIndependent(Run("", Start, before), StateBehind(Start, before), cs, more);
  }

  // ---- What a nested parenthesis does to the column around it ---------------------------------

  /** Some PRIMARY KEY is inside, at any depth. */
  predicate Prints(xs: Items) {
    match xs
    case End => false
    case Item(x, rest) => x.Key? || Prints(rest)
    case Sep(rest) => Prints(rest)
    case Group(inner, rest) => Prints(inner) || Prints(rest)
  }

  /** Some AUTO_INCREMENT inside, at any depth, comes before the PRIMARY KEY of its column or has
      none; `key` says that the current column's is printed. */
  predicate Waits(xs: Items, key: bool)
    decreases xs
  {
    match xs
    case End => false
    case Item(x, rest) => (x.Auto? && !key) || Waits(rest, key || x.Key?)
    case Sep(rest) => Waits(rest, false)
    case Group(inner, rest) => Waits(inner, false) || Waits(rest, key && !Prints(inner))
  }

  lemma {:induction false} WalkMarks(out: string, l: Level, xs: Items)
    ensures var m := Walk(out, l, xs).level;
            (m.waited <==> l.waited || Waits(xs, l.key)) && (m.printed <==> l.printed || Prints(xs))
    decreases xs
  {
    match xs
    case End =>
    case Item(x, rest) => WalkMarks(TextAfter(out, l, x), LevelAfter(l, x), rest);
    case Sep(rest) => WalkMarks(Closed(out, l) + ",", NewColumn(l), rest);
    case Group(inner, rest) =>
      var w := Walk(out + "(", Fresh, inner);
      WalkMarks(out + "(", Fresh, inner);
      WalkMarks(Closed(w.out, w.level) + ")", Around(l, w.level), rest);
  }

  /** Part of one column, with no AUTO_INCREMENT or PRIMARY KEY of its own. */
  predicate IsPart(xs: Items) {
    match xs
    case End => true
    case Item(x, rest) => !x.Auto? && !x.Key? && IsPart(rest)
    case Sep(_) => false
    case Group(inner, rest) => IsPart(rest)
  }

  /** The column's memory survives a part exactly if no parenthesis nested in it uses the same
      memory; what the part prints does not depend on that memory. */
  lemma {:induction false} PartKeepsMemoryIff(out: string, l: Level, xs: Items)
    requires IsPart(xs)
    ensures var w := Walk(out, l, xs);
            && (w.level.pending <==> l.pending && !Waits(xs, l.key))
            && (w.level.key <==> l.key && !Prints(xs))
            && w.out == Walk(out, Fresh, xs).out && (Waits(xs, l.key) <==> Waits(xs, false))
    decreases xs
  {
    match xs
    case End =>
    case Item(x, rest) =>
      PartKeepsMemoryIff(TextAfter(out, l, x), l, rest);
    case Group(inner, rest) =>
      var w := Walk(out + "(", Fresh, inner);
      var next := Closed(w.out, w.level) + ")";
      WalkMarks(out + "(", Fresh, inner);
      PartKeepsMemoryIff(next, Around(l, w.level), rest);
      PartKeepsMemoryIff(next, Around(Fresh, w.level), rest);
  }

  function PartText(out: string, xs: Items): string { Walk(out, Fresh, xs).out }

  // ---- The rule -------------------------------------------------------------------------------

  /** AUTO_INCREMENT before PRIMARY KEY: printed behind the key, unless an AUTO_INCREMENT had to wait in
      a parenthesis between the two, which loses it. */
  lemma AutoBeforeKey(out: string, a: Items, blanks: string, b: Items, c: Items)
    requires IsPart(a) && IsPart(b) && IsPart(c)
    ensures ColumnText(out, Then(a, Item(Auto(blanks), Then(b, Item(Key, c))))) ==
            PartText(PartText(PartText(out, a), b)
                     + (if Waits(b, false) then "PRIMARY KEY" else "PRIMARY KEY AUTOINCREMENT"), c)
  {
    var keyed := Item(Key, c);
    var auto := Item(Auto(blanks), Then(b, keyed));
    var o1 := PartText(out, a);
    PartKeepsMemoryIff(out, Fresh, a);
    WalkThen(out, Fresh, a, auto);
    var l1 := Walk(out, Fresh, a).level;
    var l2 := l1.(pending := true, waited := true);
    PartKeepsMemoryIff(o1, l2, b);
    WalkThen(o1, l2, b, keyed);
    var w := Walk(o1, l2, b);
    PartKeepsMemoryIff(TextAfter(w.out, w.level, Key), LevelAfter(w.level, Key), c);
  }

  /** PRIMARY KEY before AUTO_INCREMENT: printed in place, unless a parenthesis between the two holds a
      PRIMARY KEY; then it is dropped, and the blanks at the column's end with it if it is still pending. */
  lemma KeyBeforeAuto(out: string, a: Items, b: Items, blanks: string, c: Items)
    requires IsPart(a) && IsPart(b) && IsPart(c)
    ensures var o := PartText(PartText(out, a) + "PRIMARY KEY", b);
            ColumnText(out, Then(a, Item(Key, Then(b, Item(Auto(blanks), c))))) ==
            if !Prints(b) then PartText(o + ("AUTOINCREMENT" + blanks), c)
            else if Waits(c, false) then PartText(o, c)
            else TrimBlanks(PartText(o, c))
  {
    var auto := Item(Auto(blanks), c);
    var keyed := Item(Key, Then(b, auto));
    PartKeepsMemoryIff(out, Fresh, a);
    WalkThen(out, Fresh, a, keyed);
    var l1 := LevelAfter(Walk(out, Fresh, a).level, Key);
    var o1 := PartText(out, a) + "PRIMARY KEY";
    PartKeepsMemoryIff(o1, l1, b);
    WalkThen(o1, l1, b, auto);
    var w := Walk(o1, l1, b);
    PartKeepsMemoryIff(TextAfter(w.out, w.level, Auto(blanks)), LevelAfter(w.level, Auto(blanks)), c);
  }

  /** AUTO_INCREMENT without PRIMARY KEY: dropped with the blanks around it. */
  lemma AutoAlone(out: string, a: Items, blanks: string, c: Items)
    requires IsPart(a) && IsPart(c)
    ensures var o := PartText(PartText(out, a), c);
            ColumnText(out, Then(a, Item(Auto(blanks), c))) == if Waits(c, false) then o else TrimBlanks(o)
  {
    var auto := Item(Auto(blanks), c);
    PartKeepsMemoryIff(out, Fresh, a);
    WalkThen(out, Fresh, a, auto);
    var l1 := Walk(out, Fresh, a).level;
    PartKeepsMemoryIff(PartText(out, a), l1.(pending := true, waited := true), c);
  }

  /** A column without AUTO_INCREMENT never gets one. */
  lemma NoAuto(out: string, a: Items, c: Items)
    requires IsPart(a) && IsPart(c)
    ensures ColumnText(out, a) == PartText(out, a)
    ensures ColumnText(out, Then(a, Item(Key, c))) == PartText(PartText(out, a) + "PRIMARY KEY", c)
  {
    PartKeepsMemoryIff(out, Fresh, a);
    WalkThen(out, Fresh, a, Item(Key, c));
    var l1 := Walk(out, Fresh, a).level;
    PartKeepsMemoryIff(PartText(out, a) + "PRIMARY KEY", LevelAfter(l1, Key), c);
  }
}
