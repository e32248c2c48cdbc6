/**
 The subscription queues of the Pub/Sub service as a lease protocol. One step is one section
 run under the service mutex, so a run may interleave calls in any order and with any clock.
 */
module Leases {
  import opened Text

  const SECOND := 1_000_000_000
  const ZERO_TIME := 0

  datatype Message = Message(
    id: string, data: string, attributes: map<string, string>, orderingKey: string, publishTime: int)

  datatype Stored = Stored(ackId: string, message: Message, inflight: bool, deadline: int)

  datatype Received = Received(ackId: string, message: Message)

  predicate Available(m: Stored, now: int) { !m.inflight || now > m.deadline }

  // ---- Ack ids ------------------------------------------------------------

  function AckName(n: nat): string { "ack-" + Decimal(n) }

  /** The counter value an ack id was printed from. */
  function AckNumber(id: string): nat {
    if |id| > 4 && AllDigits(id[4..]) then DigitsValue(id[4..]) else 0
  }

  lemma AckNameNumber(n: nat)
    ensures AckNumber(AckName(n)) == n
  {
    DecimalRoundTrip(n);
    assert AckName(n)[4..] == Decimal(n);
  }

  lemma AllAckNamesNumbered()
    ensures forall n: nat :: AckNumber(AckName(n)) == n
  {
    forall n: nat { AckNameNumber(n); }
  }

  // ---- What one section does to one queue ---------------------------------

  /** The batch as it is appended to one queue: fresh ack ids in order, nothing leased. */
  function Stamp(batch: seq<Message>, ackSeq: nat): (r: seq<Stored>)
    ensures |r| == |batch|
  {
    seq(|batch|, i requires 0 <= i < |batch| => Stored(AckName(ackSeq + 1 + i), batch[i], false, ZERO_TIME))
  }

  /** How many of the first `n` messages are available. */
  function Rank(q: seq<Stored>, n: nat, now: int): (r: nat)
    requires n <= |q|
    ensures r <= n
  {
    if n == 0 then 0 else Rank(q, n - 1, now) + if Available(q[n - 1], now) then 1 else 0
  }

  /** A pull takes the first `limit` available messages. */
  predicate Taken(q: seq<Stored>, i: nat, limit: nat, now: int)
    requires i < |q|
  {
    Available(q[i], now) && Rank(q, i, now) < limit
  }

  function LeaseAt(q: seq<Stored>, i: nat, limit: nat, now: int, deadline: int, ackSeq: nat): Stored
    requires i < |q|
  {
    if Taken(q, i, limit, now)
    then Stored(AckName(ackSeq + 1 + Rank(q, i, now)), q[i].message, true, deadline)
    else q[i]
  }

  function LeaseAll(q: seq<Stored>, limit: nat, now: int, deadline: int, ackSeq: nat): (r: seq<Stored>)
    ensures |r| == |q|
  {
    seq(|q|, i requires 0 <= i < |q| => LeaseAt(q, i, limit, now, deadline, ackSeq))
  }

  /** The messages handed out by a pull that has looked at the first `n` entries. */
  function Grants(q: seq<Stored>, n: nat, limit: nat, now: int, ackSeq: nat): (r: seq<Received>)
    requires n <= |q|
    ensures |r| == if Rank(q, n, now) < limit then Rank(q, n, now) else limit
  {
    if n == 0 then []
    else
      var r := Grants(q, n - 1, limit, now, ackSeq);
      if Taken(q, n - 1, limit, now)
      then r + [Received(AckName(ackSeq + 1 + Rank(q, n - 1, now)), q[n - 1].message)]
      else r
  }

  predicate Acked(m: Stored, ids: set<string>) { m.inflight && m.ackId in ids }

  function Unacked(q: seq<Stored>, ids: set<string>): seq<Stored> {
    if q == [] then []
    else
      var r := Unacked(q[..|q| - 1], ids);
      if Acked(q[|q| - 1], ids) then r else r + [q[|q| - 1]]
  }

  function ExtendOne(m: Stored, ids: set<string>, sec: int, now: int): Stored {
    if m.ackId !in ids then m
    else if sec <= 0 then m.(inflight := false, deadline := ZERO_TIME)
    else m.(deadline := now + sec * SECOND)
  }

  function ExtendAll(q: seq<Stored>, ids: set<string>, sec: int, now: int): (r: seq<Stored>)
    ensures |r| == |q|
  {
    seq(|q|, i requires 0 <= i < |q| => ExtendOne(q[i], ids, sec, now))
  }

  // ---- The machine ---------------------------------------------------------

  datatype Queues = Queues(byName: map<string, seq<Stored>>, ackSeq: nat)

  datatype Step =
    | Enqueue(subs: seq<string>, batch: seq<Message>)
    | Lease(sub: string, limit: nat, now: int, deadline: int)
    | Remove(sub: string, ids: set<string>)
    | Extend(sub: string, ids: set<string>, sec: int, now: int)
    | Drop(sub: string)

  function QueueOf(s: Queues, name: string): seq<Stored> {
    if name in s.byName then s.byName[name] else []
  }

  function EnqueueOne(s: Queues, sub: string, batch: seq<Message>): Queues {
    if batch == [] then s
    else Queues(s.byName[sub := QueueOf(s, sub) + Stamp(batch, s.ackSeq)], s.ackSeq + |batch|)
  }

  function EnqueueAll(s: Queues, subs: seq<string>, batch: seq<Message>): Queues {
    if subs == [] then s
    else EnqueueOne(EnqueueAll(s, subs[..|subs| - 1], batch), subs[|subs| - 1], batch)
  }

  /** What the caller of a section sees: only a pull returns messages. */
  function Reply(s: Queues, step: Step): seq<Received> {
    if step.Lease? then
      var q := QueueOf(s, step.sub);
      Grants(q, |q|, step.limit, step.now, s.ackSeq)
    else []
  }

  function Next(s: Queues, step: Step): Queues {
    match step
    case Enqueue(subs, batch) => EnqueueAll(s, subs, batch)
    case Lease(sub, limit, now, deadline) =>
      if sub !in s.byName then s
      else Queues(s.byName[sub := LeaseAll(s.byName[sub], limit, now, deadline, s.ackSeq)],
                  s.ackSeq + |Reply(s, step)|)
    case Remove(sub, ids) => s.(byName := s.byName[sub := Unacked(QueueOf(s, sub), ids)])
    case Extend(sub, ids, sec, now) =>
      if sub !in s.byName then s
      else s.(byName := s.byName[sub := ExtendAll(s.byName[sub], ids, sec, now)])
    case Drop(sub) => s.(byName := s.byName - {sub})
  }

  // ---- Runs ----------------------------------------------------------------

  const EMPTY := Queues(map[], 0)

  datatype Trace = Start | Then(before: Trace, step: Step)

  function Run(t: Trace): Queues {
    match t
    case Start => EMPTY
    case Then(before, step) => Next(Run(before), step)
  }

  /** The queue of `name` at the end of a run. */
  function QueueAfter(t: Trace, name: string): seq<Stored> { QueueOf(Run(t), name) }

  /** `t` is `start` continued by any number of steps. */
  predicate Continues(t: Trace, start: Trace) {
    t == start || (t.Then? && Continues(t.before, start))
  }

  /** A run continues itself, and what it continues. */
  lemma ContinuesMore(start: Trace, t: Trace, step: Step)
    ensures Continues(start, start) && (Continues(t, start) ==> Continues(Then(t, step), start))
  {
  }

  predicate Distinct<T(==)>(s: seq<T>) { forall i, j :: 0 <= i < j < |s| ==> s[i] != s[j] }

  predicate HasId(q: seq<Stored>, id: string) { exists i :: 0 <= i < |q| && q[i].message.id == id }

  predicate Carries(batch: seq<Message>, id: string) { exists i :: 0 <= i < |batch| && batch[i].id == id }

  /** Whether message id `id` was published during the run. */
  predicate Published(t: Trace, id: string) {
    t.Then? && (Published(t.before, id) || (t.step.Enqueue? && Carries(t.step.batch, id)))
  }

  /** PublishMessages lists each subscription once and draws unused message ids from a counter. */
  ghost predicate Fits(before: Trace, step: Step) {
    step.Enqueue? ==>
      && Distinct(step.subs)
      && (forall i, j :: 0 <= i < j < |step.batch| ==> step.batch[i].id != step.batch[j].id)
      && (forall i :: 0 <= i < |step.batch| ==> !Published(before, step.batch[i].id))
  }

  ghost predicate Legal(t: Trace) {
    t.Then? ==> Legal(t.before) && Fits(t.before, t.step)
  }

  // ---- Step lemmas ----------------------------------------------------------

  lemma {:induction false} EnqueueSkips(s: Queues, subs: seq<string>, batch: seq<Message>, name: string)
    requires name !in subs
    ensures QueueOf(EnqueueAll(s, subs, batch), name) == QueueOf(s, name)
  {
    if subs != [] {
      EnqueueSkips(s, subs[..|subs| - 1], batch, name);
    }
  }

  /** Publishing appends the whole batch, contiguously and in order, to each listed subscription. */
  lemma {:induction false} EnqueueAppends(s: Queues, subs: seq<string>, batch: seq<Message>, k: nat)
    requires k < |subs| && Distinct(subs)
    ensures QueueOf(EnqueueAll(s, subs, batch), subs[k]) ==
            QueueOf(s, subs[k]) + Stamp(batch, EnqueueAll(s, subs[..k], batch).ackSeq)
  {
    var n := |subs| - 1;
    if k < n {
      assert subs[..n][..k] == subs[..k];
      EnqueueAppends(s, subs[..n], batch, k);
    } else {
      EnqueueSkips(s, subs[..n], batch, subs[k]);
    }
  }

  lemma {:induction false} TakenIsGranted(q: seq<Stored>, n: nat, i: nat, limit: nat, now: int, ackSeq: nat)
    requires i < n <= |q| && Taken(q, i, limit, now)
    ensures var k := Rank(q, i, now);
            k < |Grants(q, n, limit, now, ackSeq)| &&
            Grants(q, n, limit, now, ackSeq)[k] == Received(AckName(ackSeq + 1 + k), q[i].message)
  {
    if i < n - 1 {
      TakenIsGranted(q, n - 1, i, limit, now, ackSeq);
    }
  }

  lemma {:induction false} GrantedIsTaken(q: seq<Stored>, n: nat, k: nat, limit: nat, now: int, ackSeq: nat)
    returns (i: nat)
    requires n <= |q| && k < |Grants(q, n, limit, now, ackSeq)|
    ensures i < n && Taken(q, i, limit, now) && Rank(q, i, now) == k
    ensures Grants(q, n, limit, now, ackSeq)[k] == Received(AckName(ackSeq + 1 + k), q[i].message)
  {
    i := n - 1;
    if k < |Grants(q, n - 1, limit, now, ackSeq)| {
      i := GrantedIsTaken(q, n - 1, k, limit, now, ackSeq);
    }
  }
}
