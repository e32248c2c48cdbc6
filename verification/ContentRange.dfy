/**
 The Content-Range header of resumable uploads: the server's parser, the printed shapes clients
 send (section 14.4 of RFC 9110, plus the `start-*` form), and the round trip between them.
 */
module ContentRange {
  import opened Text

  const PREFIX := "bytes "

  datatype Range = Range(start: int, end: int, total: int, final: bool, isStatus: bool)

  /** parseContentRange: `None` stands for the error return. */
  function Parse(s: string): Option<Range> {
    if !HasPrefix(s, PREFIX) then None
    else
      var rest := s[|PREFIX|..];
      var slash := IndexByte(rest, '/');
      if slash < 0 then None
      else
        ParseParts(rest[..slash], ParseTotal(rest[slash + 1..]))
  }

  function ParseTotal(totalPart: string): Option<int> {
    if totalPart == "*" then Some(-1) else ParseInt64(totalPart)
  }

  function ParseParts(rangePart: string, total: Option<int>): Option<Range> {
    if total.None? then None
    else if rangePart == "*" then Some(Range(-1, -1, total.value, false, true))
    else ParseSpan(rangePart, total.value)
  }

  /** The `start-end` and `start-*` forms. */
  function ParseSpan(rangePart: string, total: int): Option<Range> {
    var dash := IndexByte(rangePart, '-');
    if dash < 0 then None
    else
      ParseBounds(ParseInt64(rangePart[..dash]), rangePart[dash + 1..], total)
  }

  function ParseBounds(start: Option<int>, endStr: string, total: int): Option<Range> {
    if start.None? then None
    else if endStr == "*" then Some(Range(start.value, -1, total, false, false))
    else
      var end := ParseInt64(endStr);
      if end.None? then None
      else Some(Range(start.value, end.value, total, total >= 0 && end.value == total - 1, false))
  }

  /** What a client may print. */
  datatype Shape =
    | Chunk(start: nat, end: nat, total: Option<nat>)
    | OpenEnded(start: nat, total: Option<nat>)
    | Status(total: Option<nat>)

  predicate Representable(n: nat) { n <= INT64_MAX }

  predicate Printable(shape: Shape) {
    && (shape.total.Some? ==> Representable(shape.total.value))
    && (!shape.Status? ==> Representable(shape.start))
    && (shape.Chunk? ==> Representable(shape.end))
  }

  function PrintTotal(total: Option<nat>): string {
    if total.Some? then Decimal(total.value) else "*"
  }

  function PrintSpan(shape: Shape): string {
    match shape
    case Chunk(start, end, _) => Decimal(start) + "-" + Decimal(end)
    case OpenEnded(start, _) => Decimal(start) + "-" + "*"
    case Status(_) => "*"
  }

  function Print(shape: Shape): string { PREFIX + (PrintSpan(shape) + "/" + PrintTotal(shape.total)) }

  function Meaning(shape: Shape): Range {
    var total: int := if shape.total.Some? then shape.total.value else -1;
    match shape
    case Chunk(start, end, _) => Range(start, end, total, end == total - 1, false)
    case OpenEnded(start, _) => Range(start, -1, total, false, false)
    case Status(_) => Range(-1, -1, total, false, true)
  }

  lemma DigitsHold(n: nat, c: char)
    requires !IsDigit(c)
    ensures c !in Decimal(n)
  {
  }

  lemma TotalRoundTrip(shape: Shape)
    requires Printable(shape)
    ensures ParseTotal(PrintTotal(shape.total)) == Some(Meaning(shape).total)
  {
    if shape.total.Some? {
      ParsePrinted(shape.total.value);
      assert IsDigit(Decimal(shape.total.value)[0]);
    }
  }

  /** The text before the first dash is the start, the text behind it the end. */
  lemma SpanSplits(start: nat, rest: string, total: int)
    ensures ParseSpan(Decimal(start) + "-" + rest, total) == ParseBounds(ParseInt64(Decimal(start)), rest, total)
  {
    DigitsHold(start, '-');
    IndexBytePrinted(Decimal(start), '-', rest);
  }

  lemma DecimalIsNoStar(n: nat)
    ensures Decimal(n) != "*"
  {
    assert IsDigit(Decimal(n)[0]);
  }

  lemma SpanRoundTrip(shape: Shape)
    requires Printable(shape) && !shape.Status?
    ensures ParseSpan(PrintSpan(shape), Meaning(shape).total) == Some(Meaning(shape))
  {
    ParsePrinted(shape.start);
    if shape.Chunk? {
      SpanSplits(shape.start, Decimal(shape.end), Meaning(shape).total);
      ParsePrinted(shape.end);
      DecimalIsNoStar(shape.end);
    } else {
      SpanSplits(shape.start, "*", Meaning(shape).total);
    }
  }

  lemma SpanHasNoSlash(shape: Shape)
    ensures '/' !in PrintSpan(shape) && (PrintSpan(shape) == "*" <==> shape.Status?)
  {
    if !shape.Status? {
      DigitsHold(shape.start, '/');
      assert IsDigit(Decimal(shape.start)[0]) && PrintSpan(shape)[0] == Decimal(shape.start)[0];
    }
    if shape.Chunk? {
      DigitsHold(shape.end, '/');
    }
  }

  /** Parsing the printed form of every shape recovers its numbers and its flags. */
  lemma RoundTrip(shape: Shape)
    requires Printable(shape)
    ensures Parse(Print(shape)) == Some(Meaning(shape))
  {
    var span, total := PrintSpan(shape), PrintTotal(shape.total);
    SpanHasNoSlash(shape);
    IndexBytePrinted(span, '/', total);
    assert Print(shape)[|PREFIX|..] == span + ['/'] + total;
    TotalRoundTrip(shape);
    if !shape.Status? {
      SpanRoundTrip(shape);
    }
  }

  /** A parsed start is never negative, because the first `-` ends it; both ends fit int64. */
  lemma ParsedBounds(s: string)
    ensures Parse(s).Some? && !Parse(s).value.isStatus ==>
              0 <= Parse(s).value.start <= INT64_MAX && INT64_MIN <= Parse(s).value.end <= INT64_MAX
  {
    if Parse(s).Some? && !Parse(s).value.isStatus {
      var rest := s[|PREFIX|..];
      var rangePart := rest[..IndexByte(rest, '/')];
      var first := rangePart[..IndexByte(rangePart, '-')];
      assert '-' !in first;
      assert first != "" ==> first[0] != '-';
    }
  }

  // ---- The Range header of a 308 reply ----------------------------------------

  const HELD := "bytes=0-"

  function PrintHeld(received: nat): Option<string> {
    if received > 0 then Some(HELD + Decimal(received - 1)) else None
  }

  /** Where a client resumes: one past the last byte the server reports. */
  function ResumeOffset(header: Option<string>): int {
    if header.None? then 0
    else if !HasPrefix(header.value, HELD) then 0
    else
      var last := ParseInt64(header.value[|HELD|..]);
      if last.None? then 0 else last.value + 1
  }

  lemma HeldRoundTrip(received: nat)
    requires Representable(received)
    ensures ResumeOffset(PrintHeld(received)) == received
  {
    if received > 0 {
      ParsePrinted(received - 1);
      assert (HELD + Decimal(received - 1))[|HELD|..] == Decimal(received - 1);
    }
  }
}
