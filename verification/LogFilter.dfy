/**
 The parser and evaluator of the Cloud Logging filter language. `time.Parse` for RFC 3339 is the
 parameter `rfc3339`: from a text to an instant, or none.
 */
module LogFilter {
  import opened Text
  import opened FilterLexer

  /** A decoded JSON value, as far as filters look into it. */
  datatype Json = JsonString(text: string) | JsonObject(members: map<string, Json>) | JsonOther

  datatype Entry = Entry(severity: string, logName: string, resource: map<string, Json>, timestamp: int)

  type Predicate = Entry -> bool

  const SeverityRank: map<string, int> :=
    map["DEFAULT" := 0, "DEBUG" := 100, "INFO" := 200, "NOTICE" := 300, "WARNING" := 400,
        "ERROR" := 500, "CRITICAL" := 600, "ALERT" := 700, "EMERGENCY" := 800]

  // ---- What a filter means --------------------------------------------------------------------

  datatype Relation = Eq | Ne | Gt | Ge | Lt | Le

  datatype Field = Severity | LogName | ResourceType | Label(key: string) | Timestamp

  /** One comparison of the filter. */
  datatype Atom = Atom(field: Field, rel: Relation, value: string)

  function FieldName(f: Field): string {
    match f
    case Severity => "severity"
    case LogName => "logName"
    case ResourceType => "resource.type"
    case Label(key) => "resource.labels." + key
    case Timestamp => "timestamp"
  }

  function RelationText(r: Relation): string {
    match r
    case Eq => "="
    case Ne => "!="
    case Gt => ">"
    case Ge => ">="
    case Lt => "<"
    case Le => "<="
  }

  predicate Relates(r: Relation, a: int, b: int) {
    match r
    case Eq => a == b
    case Ne => a != b
    case Gt => a > b
    case Ge => a >= b
    case Lt => a < b
    case Le => a <= b
  }

  predicate IsTextField(f: Field) { f.LogName? || f.ResourceType? || f.Label? }

  /** The comparisons the language has: every relation on severities that exist and on timestamps
      that parse, equality and inequality on texts, labels with a key. */
  predicate IsValid(rfc3339: string -> Option<int>, a: Atom) {
    match a.field
    case Severity => Upper(a.value) in SeverityRank || IsNumber(a.value)
    case Timestamp => rfc3339(a.value).Some?
    case _ => (a.rel.Eq? || a.rel.Ne?) && (a.field.Label? ==> a.field.key != "")
  }

  /** A byte less '0', as a byte: a sign counts as a digit above nine. */
  function ByteDigit(c: char): nat { (c as int - '0' as int) % 256 }

  function ByteValue(s: string): nat {
    if s == "" then 0 else ByteValue(s[..|s| - 1]) * 10 + ByteDigit(s[|s| - 1])
  }

  function WantedRank(value: string): int {
    var up := Upper(value);
    if up in SeverityRank then SeverityRank[up] else Wrap64(ByteValue(value))
  }

  function EntryRank(e: Entry): int {
    var up := Upper(e.severity);
    if up in SeverityRank then SeverityRank[up] else 0
  }

  function TextOf(m: map<string, Json>, key: string): string {
    if key in m && m[key].JsonString? then m[key].text else ""
  }

  function Labels(e: Entry): map<string, Json> {
    if "labels" in e.resource && e.resource["labels"].JsonObject? then e.resource["labels"].members else map[]
  }

  /** The text a text field names in an entry; a missing one reads as empty. */
  function Subject(f: Field, e: Entry): string
    requires IsTextField(f)
  {
    match f
    case LogName => e.logName
    case ResourceType => TextOf(e.resource, "type")
    case Label(key) => TextOf(Labels(e), key)
  }

  predicate Holds(rfc3339: string -> Option<int>, a: Atom, e: Entry) {
    match a.field
    case Severity => Relates(a.rel, EntryRank(e), WantedRank(a.value))
    case Timestamp => rfc3339(a.value).Some? && Relates(a.rel, e.timestamp, rfc3339(a.value).value)
    case _ => (Subject(a.field, e) == a.value) == a.rel.Eq?
  }

  // ---- Comparators and predicates -------------------------------------------------------------

  function RelationOf(op: string): (r: Option<Relation>)
    ensures r.Some? ==> RelationText(r.value) == op
    ensures r.None? ==> forall rel :: RelationText(rel) != op
  {
    if op == "=" then Some(Eq) else if op == "!=" then Some(Ne)
    else if op == ">" then Some(Gt) else if op == ">=" then Some(Ge)
    else if op == "<" then Some(Lt) else if op == "<=" then Some(Le)
    else None
  }

  function NumericCmp(op: string): (r: Option<(int, int) -> bool>)
    ensures r.Some? <==> RelationOf(op).Some?
    ensures r.Some? ==> forall a, b :: r.value(a, b) <==> Relates(RelationOf(op).value, a, b)
  {
    match op
    case "=" => Some((a, b) => a == b)
    case "!=" => Some((a, b) => a != b)
    case ">" => Some((a, b) => a > b)
    case ">=" => Some((a, b) => a >= b)
    case "<" => Some((a, b) => a < b)
    case "<=" => Some((a, b) => a <= b)
    case _ => None
  }

  /** The field a name stands for. */
  function FieldOf(name: string): (f: Option<Field>)
    ensures f.Some? ==> FieldName(f.value) == name
  {
    if name == "severity" then Some(Severity)
    else if name == "logName" then Some(LogName)
    else if name == "resource.type" then Some(ResourceType)
    else if HasPrefix(name, "resource.labels.") then Some(Label(name[16..]))
    else if name == "timestamp" then Some(Timestamp)
    else None
  }

  lemma FieldNamed(f: Field)
    ensures FieldOf(FieldName(f)) == Some(f)
  {
    if f.Label? {
      var name := FieldName(f);
      assert name[16..] == f.key;
      assert name[9] == 'l';
    }
  }

  /** The comparison a triple of texts stands for, if the language has it. */
  function ReadAtom(rfc3339: string -> Option<int>, field: string, op: string, val: string): (a: Option<Atom>)
    ensures a.Some? ==> IsValid(rfc3339, a.value) && a.value.value == val
    ensures a.Some? ==> FieldName(a.value.field) == field && RelationText(a.value.rel) == op
  {
    var f, r := FieldOf(field), RelationOf(op);
    if f.Some? && r.Some? && IsValid(rfc3339, Atom(f.value, r.value, val)) then Some(Atom(f.value, r.value, val)) else None
  }

  /** Printing and reading one comparison. */
  lemma ReadPrinted(rfc3339: string -> Option<int>, a: Atom)
    requires IsValid(rfc3339, a)
    ensures ReadAtom(rfc3339, FieldName(a.field), RelationText(a.rel), a.value) == Some(a)
  {
    FieldNamed(a.field);
  }

  /** The source's digit loop, in wrapping machine integers. */
  method NumberFrom(val: string) returns (n: int)
    ensures n == Wrap64(ByteValue(val))
  {
    n := 0;
    for i := 0 to |val|
      invariant n == Wrap64(ByteValue(val[..i]))
    {
      assert val[..i + 1][..i] == val[..i];
      var d := ByteDigit(val[i]);
      WrapStep(ByteValue(val[..i]), d);
      n := Wrap64(n * 10 + d);
    }
    assert val[..|val|] == val;
  }

  method BuildPredicate(rfc3339: string -> Option<int>, field: string, op: string, val: string) returns (r: Option<Predicate>)
    ensures r.Some? <==> ReadAtom(rfc3339, field, op, val).Some?
    ensures r.Some? ==> forall e :: r.value(e) <==> Holds(rfc3339, ReadAtom(rfc3339, field, op, val).value, e)
  {
    if field == "severity" {
      var want;
      if Upper(val) in SeverityRank {
        want := SeverityRank[Upper(val)];
      } else {
        var number := CheckNumber(val);
        if !number {
          return None;
        }
        want := NumberFrom(val);
      }
      var cmp := NumericCmp(op);
      if cmp.None? {
        return None;
      }
      return Some((e: Entry) => var up := Upper(e.severity);
                                   cmp.value(if up in SeverityRank then SeverityRank[up] else 0, want));
    } else if field == "logName" {
      if op != "=" && op != "!=" {
        return None;
      }
      return Some((e: Entry) => if op == "=" then e.logName == val else e.logName != val);
    } else if field == "resource.type" {
      if op != "=" && op != "!=" {
        return None;
      }
      return Some((e: Entry) => var t := TextOf(e.resource, "type"); if op == "=" then t == val else t != val);
    } else if HasPrefix(field, "resource.labels.") {
      if op != "=" && op != "!=" {
        return None;
      }
      var key := field[16..];
      if key == "" {
        return None;
      }
      return Some((e: Entry) => var t := TextOf(Labels(e), key); if op == "=" then t == val else t != val);
    } else if field == "timestamp" {
      var ts := rfc3339(val);
      if ts.None? {
        return None;
      }
      var cmp := NumericCmp(op);
      if cmp.None? {
        return None;
      }
      return Some((e: Entry) => cmp.value(e.timestamp, ts.value));
    }
    return None;
  }

  // ---- The parser -----------------------------------------------------------------------------

  predicate IsValue(t: Token) { t.Str? || t.Ident? || t.Number? }

  /** The comparison that starts at token `p`, if there is one. */
  function TripleAt(rfc3339: string -> Option<int>, toks: seq<Token>, p: nat): Option<Atom> {
    if p + 3 <= |toks| && toks[p].Ident? && toks[p + 1].Operator? && IsValue(toks[p + 2])
    then ReadAtom(rfc3339, toks[p].val, toks[p + 1].val, toks[p + 2].val)
    else None
  }

  function Clause(rfc3339: string -> Option<int>, toks: seq<Token>, k: nat): Option<Atom> {
    TripleAt(rfc3339, toks, 4 * k)
  }

  predicate AndAt(toks: seq<Token>, k: nat) { 4 * k + 3 < |toks| && toks[4 * k + 3].And? }

  /** The first `n` comparisons are there, joined by AND. */
  predicate Joined(rfc3339: string -> Option<int>, toks: seq<Token>, n: nat) {
    && (forall k :: 0 <= k < n ==> Clause(rfc3339, toks, k).Some?)
    && (forall k :: 0 <= k < n - 1 ==> AndAt(toks, k))
  }

  predicate AllHold(rfc3339: string -> Option<int>, toks: seq<Token>, n: nat, e: Entry) {
    forall k :: 0 <= k < n ==> Clause(rfc3339, toks, k).Some? && Holds(rfc3339, Clause(rfc3339, toks, k).value, e)
  }

  function Both(l: Predicate, r: Predicate): (p: Predicate)
    ensures forall e :: p(e) <==> l(e) && r(e)
  {
    e => l(e) && r(e)
  }

  /** Comparisons joined by AND and nothing else: a list of tokens the parser should accept. */
  predicate IsConjunction(rfc3339: string -> Option<int>, toks: seq<Token>) {
    |toks| % 4 == 3 && Joined(rfc3339, toks, |toks| / 4 + 1)
  }

  /** The first `n` comparisons are there, and `p` is their conjunction. */
  ghost predicate Compiled(rfc3339: string -> Option<int>, toks: seq<Token>, n: nat, p: Predicate) {
    Joined(rfc3339, toks, n) && forall e :: p(e) <==> AllHold(rfc3339, toks, n, e)
  }

  /** `p` is the comparison that starts at token `at`. */
  ghost predicate Tests(rfc3339: string -> Option<int>, toks: seq<Token>, at: nat, p: Predicate) {
    var a := TripleAt(rfc3339, toks, at);
    a.Some? && forall e :: p(e) <==> Holds(rfc3339, a.value, e)
  }

  /** Behind ANDs only, no comparison follows. */
  ghost predicate Stuck(rfc3339: string -> Option<int>, toks: seq<Token>, n: nat) {
    (forall k :: 0 <= k < n ==> AndAt(toks, k)) && TripleAt(rfc3339, toks, 4 * n).None?
  }

  lemma CompiledOne(rfc3339: string -> Option<int>, toks: seq<Token>, p: Predicate)
    requires Tests(rfc3339, toks, 0, p)
    ensures Compiled(rfc3339, toks, 1, p)
  {
    assert Clause(rfc3339, toks, 0) == TripleAt(rfc3339, toks, 0);
  }

  lemma CompiledMore(rfc3339: string -> Option<int>, toks: seq<Token>, n: nat, l: Predicate, r: Predicate)
    requires n > 0 && Compiled(rfc3339, toks, n, l) && AndAt(toks, n - 1) && Tests(rfc3339, toks, 4 * n, r)
    ensures Compiled(rfc3339, toks, n + 1, Both(l, r))
  {
    assert Clause(rfc3339, toks, n) == TripleAt(rfc3339, toks, 4 * n);
  }

  lemma StuckAfter(rfc3339: string -> Option<int>, toks: seq<Token>, n: nat)
    requires n > 0 ==> Joined(rfc3339, toks, n) && AndAt(toks, n - 1)
    requires TripleAt(rfc3339, toks, 4 * n).None?
    ensures Stuck(rfc3339, toks, n)
  {
  }

  /** A comparison missing behind ANDs only, or text behind the last comparison, spoils the filter. */
  lemma NoConjunction(rfc3339: string -> Option<int>, toks: seq<Token>, n: nat)
    requires forall k :: 0 <= k < n ==> AndAt(toks, k)
    requires TripleAt(rfc3339, toks, 4 * n).None? || (!AndAt(toks, n) && 4 * n + 3 < |toks|)
    ensures !IsConjunction(rfc3339, toks)
  {
    assert Clause(rfc3339, toks, n) == TripleAt(rfc3339, toks, 4 * n);
    var last := |toks| / 4;
    assert |toks| % 4 == 3 ==> !AndAt(toks, last);
  }

  class Parser {
    const toks: seq<Token>
    var pos: nat

    constructor (toks: seq<Token>)
      ensures this.toks == toks && pos == 0
    {
      this.toks := toks;
      pos := 0;
    }

    ghost predicate Valid()
      reads this
    {
      pos <= |toks|
    }

    method Peek() returns (t: Option<Token>)
      requires Valid()
      ensures t == if pos < |toks| then Some(toks[pos]) else None
    {
      if pos >= |toks| {
        return None;
      }
      return Some(toks[pos]);
    }

    method Eat() returns (t: Option<Token>)
      requires Valid()
      modifies this
      ensures Valid()
      ensures t == if old(pos) < |toks| then Some(toks[old(pos)]) else None
      ensures pos == if t.Some? then old(pos) + 1 else old(pos)
    {
      t := Peek();
      if t.Some? {
        pos := pos + 1;
      }
    }

    method ParsePredicate(rfc3339: string -> Option<int>) returns (r: Option<Predicate>)
      requires Valid()
      modifies this
      ensures Valid() && old(pos) <= pos
      ensures r.None? ==> TripleAt(rfc3339, toks, old(pos)).None?
      ensures r.Some? ==> pos == old(pos) + 3 && Tests(rfc3339, toks, old(pos), r.value)
    {
      var field := Eat();
      if field.None? || !field.value.Ident? {
        return None;
      }
      var op := Eat();
      if op.None? || !op.value.Operator? {
        return None;
      }
      var val := Eat();
      if val.None? || !IsValue(val.value) {
        return None;
      }
      r := BuildPredicate(rfc3339, field.value.val, op.value.val, val.value.val);
    }

    /** Stops at the first token that is not an AND: everything before it is one conjunction. */
    method ParseExpr(rfc3339: string -> Option<int>) returns (r: Option<Predicate>)
      requires Valid() && pos == 0
      modifies this
      ensures Valid()
      ensures r.Some? ==> pos % 4 == 3 && !AndAt(toks, pos / 4) && Compiled(rfc3339, toks, pos / 4 + 1, r.value)
      ensures r.None? ==> exists n: nat :: Stuck(rfc3339, toks, n)
    {
      var left := ParsePredicate(rfc3339);
      ghost var n := 0;
      if left.None? {
        StuckAfter(rfc3339, toks, 0);
        return None;
      }
      CompiledOne(rfc3339, toks, left.value);
      while true
        invariant Valid() && left.Some? && pos == 4 * n + 3 && Compiled(rfc3339, toks, n + 1, left.value)
        decreases |toks| - pos
      {
        var t := Peek();
        if t.None? || !t.value.And? {
          break;
        }
        t := Eat();
        assert AndAt(toks, n);
        n := n + 1;
        assert pos == 4 * n;
        var right := ParsePredicate(rfc3339);
        if right.None? {
          StuckAfter(rfc3339, toks, n);
          return None;
        }
        CompiledMore(rfc3339, toks, n, left.value, right.value);
        left := Some(Both(left.value, right.value));
      }
      assert pos / 4 == n;
      return left;
    }
  }

  /** The filters the language has, and the entries each of them selects. */
  predicate Accepts(rfc3339: string -> Option<int>, s: string) {
    var text := TrimSpace(s);
    text == "" || (Lex(text, 0).Some? && IsConjunction(rfc3339, Lex(text, 0).value))
  }

  predicate Selects(rfc3339: string -> Option<int>, s: string, e: Entry)
    requires Accepts(rfc3339, s)
  {
    var text := TrimSpace(s);
    text == "" || AllHold(rfc3339, Lex(text, 0).value, |Lex(text, 0).value| / 4 + 1, e)
  }

  method ParseFilter(rfc3339: string -> Option<int>, s: string) returns (r: Option<Predicate>)
    ensures r.Some? <==> Accepts(rfc3339, s)
    ensures r.Some? ==> forall e :: r.value(e) <==> Selects(rfc3339, s, e)
  {
    var text := TrimSpace(s);
    if text == "" {
      return Some((e: Entry) => true);
    }
    var toks := Tokenize(text);
    if toks.None? {
      return None;
    }
    var p := new Parser(toks.value);
    var pred := p.ParseExpr(rfc3339);
    if pred.None? {
      ghost var n: nat :| Stuck(rfc3339, toks.value, n);
      NoConjunction(rfc3339, toks.value, n);
      return None;
    }
    if p.pos < |p.toks| {
      NoConjunction(rfc3339, toks.value, p.pos / 4);
      return None;
    }
    return pred;
  }
}
