/**
 Safety of the lease protocol over whole runs, stated against the history a client can see:
 which requests were made and which ack ids the pulls returned.
 */
module LeaseTheorems {
  import opened Text
  import opened Leases
  import opened LeaseInvariants

  // ---- History ---------------------------------------------------------------

  datatype Grant = Grant(ackId: string, deadline: int)

  /** The ack id under which a pull returned message `id`, if it did. */
  function GrantFor(reply: seq<Received>, id: string): Option<string> {
    if reply == [] then None
    else
      var last := reply[|reply| - 1];
      if last.message.id == id then Some(last.ackId) else GrantFor(reply[..|reply| - 1], id)
  }

  /** How one request and its reply change the lease a client believes is in force. */
  function Believe(prev: Option<Grant>, step: Step, reply: seq<Received>, name: string, id: string): Option<Grant> {
    match step
    case Enqueue(subs, batch) => if name in subs && Carries(batch, id) then None else prev
    case Lease(sub, _, _, deadline) =>
      var g := GrantFor(reply, id);
      if sub == name && g.Some? then Some(Grant(g.value, deadline)) else prev
    case Remove(_, _) => prev
    case Extend(sub, ids, sec, now) =>
      if sub == name && prev.Some? && prev.value.ackId in ids then
        if sec <= 0 then None else Some(prev.value.(deadline := now + sec * SECOND))
      else prev
    case Drop(sub) => if sub == name then None else prev
  }

  /** The lease in force on message `id` of `name`, read off requests and replies alone. */
  function LeaseOf(t: Trace, name: string, id: string): Option<Grant> {
    match t
    case Start => None
    case Then(before, step) =>
      Believe(LeaseOf(before, name, id), step, Reply(Run(before), step), name, id)
  }

  ghost predicate Agrees(m: Stored, lease: Option<Grant>) {
    && m.inflight == lease.Some?
    && (lease.Some? ==> m.ackId == lease.value.ackId && m.deadline == lease.value.deadline)
  }

  lemma {:induction false} GrantForAbsent(q: seq<Stored>, n: nat, limit: nat, now: int, ackSeq: nat, id: string)
    requires n <= |q| && forall i :: 0 <= i < n ==> q[i].message.id != id
    ensures GrantFor(Grants(q, n, limit, now, ackSeq), id) == None
  {
    if n > 0 {
      GrantForAbsent(q, n - 1, limit, now, ackSeq, id);
      var r := Grants(q, n - 1, limit, now, ackSeq);
      assert Taken(q, n - 1, limit, now) ==> Grants(q, n, limit, now, ackSeq)[..|r|] == r;
    }
  }

  lemma {:induction false} GrantForPresent(q: seq<Stored>, n: nat, i: nat, limit: nat, now: int, ackSeq: nat)
    requires i < n <= |q| && DistinctIds(q)
    ensures GrantFor(Grants(q, n, limit, now, ackSeq), q[i].message.id) ==
            if Taken(q, i, limit, now) then Some(AckName(ackSeq + 1 + Rank(q, i, now))) else None
  {
    var r := Grants(q, n - 1, limit, now, ackSeq);
    assert Taken(q, n - 1, limit, now) ==> Grants(q, n, limit, now, ackSeq)[..|r|] == r;
    if i < n - 1 {
      GrantForPresent(q, n - 1, i, limit, now, ackSeq);
    } else {
      GrantForAbsent(q, i, limit, now, ackSeq, q[i].message.id);
    }
  }

  ghost predicate HistoryMatches(t: Trace, name: string) {
    forall i :: 0 <= i < |QueueAfter(t, name)| ==>
      Agrees(QueueAfter(t, name)[i], LeaseOf(t, name, QueueAfter(t, name)[i].message.id))
  }

  lemma PullMatches(t: Trace, sub: string, limit: nat, now: int, deadline: int)
    requires HistoryMatches(t, sub) && DistinctIds(QueueAfter(t, sub))
    ensures HistoryMatches(Then(t, Lease(sub, limit, now, deadline)), sub)
  {
    var q, step := QueueAfter(t, sub), Lease(sub, limit, now, deadline);
    forall i | 0 <= i < |q|
      ensures Agrees(LeaseAt(q, i, limit, now, deadline, Run(t).ackSeq),
                     LeaseOf(Then(t, step), sub, q[i].message.id))
    {
      GrantForPresent(q, |q|, i, limit, now, Run(t).ackSeq);
    }
    QueueStep(Run(t), step, sub);
  }

  lemma AckMatches(t: Trace, sub: string, ids: set<string>)
    requires HistoryMatches(t, sub)
    ensures HistoryMatches(Then(t, Remove(sub, ids)), sub)
  {
    var q := QueueAfter(t, sub);
    forall i | 0 <= i < |Unacked(q, ids)|
      ensures Unacked(q, ids)[i] in q
    {
      UnackedMembers(q, ids, Unacked(q, ids)[i]);
    }
  }

  lemma PublishMatches(t: Trace, subs: seq<string>, batch: seq<Message>, name: string)
    requires Fits(t, Enqueue(subs, batch)) && HistoryMatches(t, name) && KnownIds(t, QueueAfter(t, name))
    ensures HistoryMatches(Then(t, Enqueue(subs, batch)), name)
  {
    var q, step := QueueAfter(t, name), Enqueue(subs, batch);
    QueueStep(Run(t), step, name);
    var q' := QueueAfter(Then(t, step), name);
    forall i | 0 <= i < |q'|
      ensures Agrees(q'[i], LeaseOf(Then(t, step), name, q'[i].message.id))
    {
      if i < |q| {
        assert q'[i] == q[i] && Published(t, q[i].message.id);
      } else {
        assert batch[i - |q|].id == q'[i].message.id;
        assert Carries(batch, q'[i].message.id);
      }
    }
  }

  /** The lease flags stored in a queue are exactly what the client-visible history says. */
  lemma {:induction false} HistoryDecidesLeases(t: Trace, name: string)
    requires Legal(t)
    ensures HistoryMatches(t, name)
  {
    if t.Then? {
      HistoryDecidesLeases(t.before, name);
      MessageIdsInvariant(t.before, name);
      match t.step
      case Enqueue(subs, batch) => PublishMatches(t.before, subs, batch, name);
      case Lease(sub, limit, now, deadline) =>
        if sub == name {
          PullMatches(t.before, sub, limit, now, deadline);
        }
      case Remove(sub, ids) =>
        if sub == name {
          AckMatches(t.before, sub, ids);
        }
      case Extend(sub, ids, sec, now) => QueueStep(Run(t.before), t.step, name);
      case Drop(sub) =>
    }
  }

  // ---- Nothing is lost -----------------------------------------------------------

  /** The lease on `id` is in force under one of `ids`: an acknowledgement that counts. */
  predicate Settles(t: Trace, name: string, id: string, ids: set<string>) {
    var lease := LeaseOf(t, name, id);
    lease.Some? && lease.value.ackId in ids
  }

  /** An acknowledgement removes a message exactly when it carries the ack id of the message's
      latest pull and that lease has not been given back. */
  lemma AckRemovesExactly(t: Trace, name: string, id: string, ids: set<string>)
    requires Legal(t) && HasId(QueueAfter(t, name), id)
    ensures HasId(QueueAfter(Then(t, Remove(name, ids)), name), id) <==> !Settles(t, name, id, ids)
  {
    var q := QueueAfter(t, name);
    var i :| 0 <= i < |q| && q[i].message.id == id;
    HistoryDecidesLeases(t, name);
    MessageIdsInvariant(t, name);
    assert Acked(q[i], ids) == Settles(t, name, id, ids);
    UnackedMembers(q, ids, q[i]);
    forall k | 0 <= k < |Unacked(q, ids)|
      ensures Unacked(q, ids)[k] in q && !Acked(Unacked(q, ids)[k], ids)
    {
      UnackedMembers(q, ids, Unacked(q, ids)[k]);
    }
  }

  /** The only steps by which a message may leave a queue. */
  predicate MayRemove(t: Trace, step: Step, name: string, id: string) {
    || step == Drop(name)
    || (step.Remove? && step.sub == name && Settles(t, name, id, step.ids))
  }

  lemma StepKeepsMessage(t: Trace, step: Step, name: string, id: string)
    requires Legal(t) && Fits(t, step) && HasId(QueueAfter(t, name), id)
    requires !MayRemove(t, step, name, id)
    ensures HasId(QueueAfter(Then(t, step), name), id)
  {
    var q := QueueAfter(t, name);
    if step.Remove? && step.sub == name {
      AckRemovesExactly(t, name, id, step.ids);
    } else {
      var i :| 0 <= i < |q| && q[i].message.id == id;
      PositionsKept(Run(t), step, name, i);
    }
  }

  /** Over any run: a message gone from a queue was settled by a counting acknowledgement, or its
      subscription was deleted, at a definite step in between. */
  lemma {:induction false} NothingIsLost(start: Trace, t: Trace, name: string, id: string)
    returns (at: Trace, step: Step)
    requires Legal(t) && Continues(t, start)
    requires HasId(QueueAfter(start, name), id) && !HasId(QueueAfter(t, name), id)
    ensures Continues(at, start) && Continues(t, Then(at, step)) && MayRemove(at, step, name, id)
  {
    if HasId(QueueAfter(t.before, name), id) {
      at, step := t.before, t.step;
      if !MayRemove(at, step, name, id) {
        StepKeepsMessage(at, step, name, id);
      }
    } else {
      at, step := NothingIsLost(start, t.before, name, id);
    }
  }

  // ---- Pulls respect leases --------------------------------------------------------

  /** No lease in the history of `id` covers the instant `now`. */
  predicate Free(t: Trace, name: string, id: string, now: int) {
    var lease := LeaseOf(t, name, id);
    lease.None? || now > lease.value.deadline
  }

  /** A pull returns message `i` exactly when no lease covers it and it is among the first
      `limit` such messages; so a message under an unexpired lease is never handed out again. */
  lemma PullRespectsLeases(t: Trace, name: string, i: nat, limit: nat, now: int, deadline: int)
    requires Legal(t) && i < |QueueAfter(t, name)|
    ensures var q := QueueAfter(t, name);
            GrantFor(Reply(Run(t), Lease(name, limit, now, deadline)), q[i].message.id).Some? <==>
            Free(t, name, q[i].message.id, now) && FreeBefore(t, name, q, i, now) < limit
  {
    var q := QueueAfter(t, name);
    HistoryDecidesLeases(t, name);
    MessageIdsInvariant(t, name);
    GrantForPresent(q, |q|, i, limit, now, Run(t).ackSeq);
    FreeIsRank(t, name, i, now);
  }

  /** How many of the first `n` messages no lease covers, by history. */
  function FreeBefore(t: Trace, name: string, q: seq<Stored>, n: nat, now: int): nat
    requires n <= |q|
  {
    if n == 0 then 0
    else FreeBefore(t, name, q, n - 1, now) + if Free(t, name, q[n - 1].message.id, now) then 1 else 0
  }

  lemma {:induction false} FreeIsRank(t: Trace, name: string, n: nat, now: int)
    requires HistoryMatches(t, name) && n <= |QueueAfter(t, name)|
    ensures FreeBefore(t, name, QueueAfter(t, name), n, now) == Rank(QueueAfter(t, name), n, now)
  {
    if n > 0 {
      FreeIsRank(t, name, n - 1, now);
    }
  }

  // ---- Superseded ack ids ------------------------------------------------------------

  lemma LeaseReplacesId(q: seq<Stored>, i: nat, limit: nat, now: int, deadline: int, ackSeq: nat)
    requires i < |q| && Taken(q, i, limit, now) && DistinctAcks(q) && AckNumber(q[i].ackId) <= ackSeq
    ensures q[i].ackId !in AckIds(LeaseAll(q, limit, now, deadline, ackSeq))
  {
    AllAckNamesNumbered();
    forall j | 0 <= j < |q|
      ensures LeaseAll(q, limit, now, deadline, ackSeq)[j].ackId != q[i].ackId
    {
      assert i < j || j <= i;
    }
  }

  /** A pull that hands a message out again kills the ack id it was held under. */
  lemma LeaseKillsOldId(s: Queues, sub: string, i: nat, limit: nat, now: int, deadline: int)
    requires Inv(s) && i < |QueueOf(s, sub)| && Taken(QueueOf(s, sub), i, limit, now)
    ensures Dead(Next(s, Lease(sub, limit, now, deadline)), QueueOf(s, sub)[i].ackId)
  {
    var q := QueueOf(s, sub);
    assert q[i] in q && q[i].ackId in AckIds(q);
    LeaseReplacesId(q, i, limit, now, deadline, s.ackSeq);
    forall name
      ensures q[i].ackId !in AckIds(QueueOf(Next(s, Lease(sub, limit, now, deadline)), name))
    {
      QueueStep(s, Lease(sub, limit, now, deadline), name);
    }
  }

  /** Once dead, an ack id is dead at the end of every continuation of the run. */
  lemma {:induction false} DeadForever(start: Trace, t: Trace, ackId: string)
    requires Continues(t, start) && Dead(Run(start), ackId)
    ensures Dead(Run(t), ackId)
  {
    if t != start {
      DeadForever(start, t.before, ackId);
      AckIdsInvariant(t.before);
      NextKeepsInv(Run(t.before), t.step);
    }
  }

  lemma {:induction false} UnackedWithout(q: seq<Stored>, ids: set<string>, ackId: string)
    requires forall i :: 0 <= i < |q| ==> q[i].ackId != ackId
    ensures Unacked(q, ids) == Unacked(q, ids - {ackId})
  {
    if q != [] {
      UnackedWithout(q[..|q| - 1], ids, ackId);
    }
  }

  lemma {:induction false} UnackedNone(q: seq<Stored>)
    ensures Unacked(q, {}) == q
  {
    if q != [] {
      UnackedNone(q[..|q| - 1]);
    }
  }

  /** In any request a dead id counts for nothing: every queue ends as it would without it. */
  lemma DeadIdsAreIgnored(s: Queues, ackId: string, ids: set<string>, target: string, sec: int, now: int, name: string)
    requires Dead(s, ackId)
    ensures QueueOf(Next(s, Remove(target, ids)), name) == QueueOf(Next(s, Remove(target, ids - {ackId})), name)
    ensures QueueOf(Next(s, Extend(target, ids, sec, now)), name) == QueueOf(Next(s, Extend(target, ids - {ackId}, sec, now)), name)
    ensures ids <= {ackId} ==> QueueOf(Next(s, Remove(target, ids)), name) == QueueOf(s, name)
    ensures ids <= {ackId} ==> QueueOf(Next(s, Extend(target, ids, sec, now)), name) == QueueOf(s, name)
  {
    var q := QueueOf(s, target);
    assert forall i :: 0 <= i < |q| ==> q[i].ackId in AckIds(q);
    UnackedWithout(q, ids, ackId);
    UnackedNone(q);
    assert ids <= {ackId} ==> ids - {ackId} == {};
    assert ExtendAll(q, ids, sec, now) == ExtendAll(q, ids - {ackId}, sec, now);
    assert ExtendAll(q, {}, sec, now) == q;
  }

  /** An ack id superseded by a later pull of the same message is ignored for ever: in any request to
      acknowledge or extend, on any subscription, it might as well be missing. */
  lemma SupersededIdIsIgnored(
      start: Trace, sub: string, i: nat, limit: nat, now: int, deadline: int,
      t: Trace, ids: set<string>, target: string, sec: int, clock: int, name: string)
    requires i < |QueueAfter(start, sub)| && Taken(QueueAfter(start, sub), i, limit, now)
    requires Continues(t, Then(start, Lease(sub, limit, now, deadline)))
    ensures var ackId := QueueAfter(start, sub)[i].ackId;
            && QueueAfter(Then(t, Remove(target, ids)), name) == QueueAfter(Then(t, Remove(target, ids - {ackId})), name)
            && QueueAfter(Then(t, Extend(target, ids, sec, clock)), name) == QueueAfter(Then(t, Extend(target, ids - {ackId}, sec, clock)), name)
            && (ids <= {ackId} ==> QueueAfter(Then(t, Remove(target, ids)), name) == QueueAfter(t, name))
            && (ids <= {ackId} ==> QueueAfter(Then(t, Extend(target, ids, sec, clock)), name) == QueueAfter(t, name))
  {
    var ackId := QueueAfter(start, sub)[i].ackId;
    AckIdsInvariant(start);
    LeaseKillsOldId(Run(start), sub, i, limit, now, deadline);
    DeadForever(Then(start, Lease(sub, limit, now, deadline)), t, ackId);
    DeadIdsAreIgnored(Run(t), ackId, ids, target, sec, clock, name);
  }

  // ---- Nacks ---------------------------------------------------------------------------

  /** No pull after `start` handed message `id` of `name` out. */
  predicate NotPulledSince(start: Trace, t: Trace, name: string, id: string)
    requires Continues(t, start)
  {
    t == start ||
    (NotPulledSince(start, t.before, name, id) &&
     (t.step.Lease? && t.step.sub == name ==> GrantFor(Reply(Run(t.before), t.step), id) == None))
  }

  lemma {:induction false} NoLeaseWithoutPull(start: Trace, t: Trace, name: string, id: string)
    requires Continues(t, start) && NotPulledSince(start, t, name, id)
    requires LeaseOf(start, name, id) == None
    ensures LeaseOf(t, name, id) == None
  {
    if t != start {
      NoLeaseWithoutPull(start, t.before, name, id);
    }
  }

  /** After a nack, acknowledging the message under any ids is ignored until it is pulled again. */
  lemma AckAfterNackIsIgnored(
      start: Trace, name: string, i: nat, ids: set<string>, sec: int, now: int, t: Trace, acks: set<string>)
    requires i < |QueueAfter(start, name)| && QueueAfter(start, name)[i].ackId in ids && sec <= 0
    requires Legal(start) && Legal(t) && Continues(t, Then(start, Extend(name, ids, sec, now)))
    requires var id := QueueAfter(start, name)[i].message.id;
             NotPulledSince(Then(start, Extend(name, ids, sec, now)), t, name, id) &&
             HasId(QueueAfter(t, name), id)
    ensures HasId(QueueAfter(Then(t, Remove(name, acks)), name), QueueAfter(start, name)[i].message.id)
  {
    var nacked, id := Then(start, Extend(name, ids, sec, now)), QueueAfter(start, name)[i].message.id;
    QueueStep(Run(start), Extend(name, ids, sec, now), name);
    HistoryDecidesLeases(nacked, name);
    NoLeaseWithoutPull(nacked, t, name, id);
    AckRemovesExactly(t, name, id, acks);
  }

  // ---- Order ---------------------------------------------------------------------

  ghost predicate Before(q: seq<Stored>, a: string, b: string) {
    exists i, j :: 0 <= i < j < |q| && q[i].message.id == a && q[j].message.id == b
  }

  lemma {:induction false} UnackedKeepsOrder(q: seq<Stored>, ids: set<string>, i: nat, j: nat)
    requires i < j < |q| && !Acked(q[i], ids) && !Acked(q[j], ids)
    ensures Before(Unacked(q, ids), q[i].message.id, q[j].message.id)
  {
    var front, kept := q[..|q| - 1], Unacked(q[..|q| - 1], ids);
    if j < |q| - 1 {
      UnackedKeepsOrder(front, ids, i, j);
      var x, y :| 0 <= x < y < |kept| && kept[x].message.id == q[i].message.id && kept[y].message.id == q[j].message.id;
      assert Unacked(q, ids)[x] == kept[x] && Unacked(q, ids)[y] == kept[y];
    } else {
      UnackedMembers(front, ids, q[i]);
      assert front[i] == q[i];
      var x :| 0 <= x < |kept| && kept[x] == q[i];
      assert Unacked(q, ids)[x] == q[i] && Unacked(q, ids)[|kept|] == q[j];
    }
  }

  lemma RemoveKeepsOrder(q: seq<Stored>, ids: set<string>, a: string, b: string)
    requires DistinctIds(q) && Before(q, a, b)
    requires HasId(Unacked(q, ids), a) && HasId(Unacked(q, ids), b)
    ensures Before(Unacked(q, ids), a, b)
  {
    var q' := Unacked(q, ids);
    var i, j :| 0 <= i < j < |q| && q[i].message.id == a && q[j].message.id == b;
    var x :| 0 <= x < |q'| && q'[x].message.id == a;
    var y :| 0 <= y < |q'| && q'[y].message.id == b;
    UnackedMembers(q, ids, q'[x]);
    UnackedMembers(q, ids, q'[y]);
    UnackedKeepsOrder(q, ids, i, j);
  }

  lemma StepKeepsOrder(t: Trace, step: Step, name: string, a: string, b: string)
    requires Legal(t) && Fits(t, step) && Before(QueueAfter(t, name), a, b)
    requires HasId(QueueAfter(Then(t, step), name), a) && HasId(QueueAfter(Then(t, step), name), b)
    ensures Before(QueueAfter(Then(t, step), name), a, b)
  {
    var q := QueueAfter(t, name);
    if step.Remove? && step.sub == name {
      MessageIdsInvariant(t, name);
      RemoveKeepsOrder(q, step.ids, a, b);
    } else if step != Drop(name) {
      var i, j :| 0 <= i < j < |q| && q[i].message.id == a && q[j].message.id == b;
      PositionsKept(Run(t), step, name, i);
      PositionsKept(Run(t), step, name, j);
    }
  }

  lemma StepKeepsGone(t: Trace, step: Step, name: string, id: string)
    requires Fits(t, step) && Published(t, id) && !HasId(QueueAfter(t, name), id)
    ensures !HasId(QueueAfter(Then(t, step), name), id)
  {
    var q := QueueAfter(t, name);
    QueueStep(Run(t), step, name);
    if step.Remove? && step.sub == name {
      forall k | 0 <= k < |Unacked(q, step.ids)|
        ensures Unacked(q, step.ids)[k] in q
      {
        UnackedMembers(q, step.ids, Unacked(q, step.ids)[k]);
      }
    }
  }

  lemma {:induction false} StaysPublished(start: Trace, t: Trace, id: string)
    requires Continues(t, start) && Published(start, id)
    ensures Published(t, id)
  {
    if t != start {
      StaysPublished(start, t.before, id);
    }
  }

  /** Over any run: a published message that is in no place of a queue never enters it again. */
  lemma {:induction false} GoneStaysGone(start: Trace, t: Trace, name: string, id: string)
    requires Legal(t) && Continues(t, start) && Published(start, id) && !HasId(QueueAfter(start, name), id)
    ensures !HasId(QueueAfter(t, name), id)
  {
    if t != start {
      GoneStaysGone(start, t.before, name, id);
      StaysPublished(start, t.before, id);
      StepKeepsGone(t.before, t.step, name, id);
    }
  }

  /** Over any run, messages that survive keep their relative order. */
  lemma {:induction false} OrderIsKept(start: Trace, t: Trace, name: string, a: string, b: string)
    requires Legal(start) && Legal(t) && Continues(t, start)
    requires Before(QueueAfter(start, name), a, b)
    requires HasId(QueueAfter(t, name), a) && HasId(QueueAfter(t, name), b)
    ensures Before(QueueAfter(t, name), a, b)
  {
    if t != start {
      MessageIdsInvariant(start, name);
      StaysPublished(start, t.before, a);
      StaysPublished(start, t.before, b);
      if !HasId(QueueAfter(t.before, name), a) {
        StepKeepsGone(t.before, t.step, name, a);
      } else if !HasId(QueueAfter(t.before, name), b) {
        StepKeepsGone(t.before, t.step, name, b);
      } else {
        OrderIsKept(start, t.before, name, a, b);
        StepKeepsOrder(t.before, t.step, name, a, b);
      }
    }
  }
}
