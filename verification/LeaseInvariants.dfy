/**
 What every section under the mutex keeps: stored ack ids were printed from the counter, are
 distinct across the whole service, and message ids are distinct within a queue.
 */
module LeaseInvariants {
  import opened Text
  import opened Leases

  // ---- Ack ids ------------------------------------------------------------

  ghost function AckIds(q: seq<Stored>): set<string> { set m | m in q :: m.ackId }

  ghost predicate DistinctAcks(q: seq<Stored>) {
    forall i, j :: 0 <= i < j < |q| ==> q[i].ackId != q[j].ackId
  }

  /** Printed from a counter value in (lo, hi]. */
  ghost predicate Issued(id: string, lo: nat, hi: nat) {
    lo < AckNumber(id) <= hi && id == AckName(AckNumber(id))
  }

  ghost predicate Inv(s: Queues) {
    && (forall name, i :: 0 <= i < |QueueOf(s, name)| ==> Issued(QueueOf(s, name)[i].ackId, 0, s.ackSeq))
    && (forall name :: DistinctAcks(QueueOf(s, name)))
    && (forall a, b :: a != b ==> AckIds(QueueOf(s, a)) !! AckIds(QueueOf(s, b)))
  }

  /** Every id in `q'` was in `q` or was issued by this step. */
  ghost predicate Renews(q: seq<Stored>, q': seq<Stored>, lo: nat, hi: nat) {
    DistinctAcks(q') &&
    forall i :: 0 <= i < |q'| ==> q'[i].ackId in AckIds(q) || Issued(q'[i].ackId, lo, hi)
  }

  /** Issued already, and held by no stored message. */
  ghost predicate Dead(s: Queues, ackId: string) {
    AckNumber(ackId) <= s.ackSeq &&
    forall name :: ackId !in AckIds(QueueOf(s, name))
  }

  /** The invariant holds again, and no dead ack id has come back to life. */
  ghost predicate Kept(s: Queues, s': Queues) {
    Inv(s') && forall ackId :: Dead(s, ackId) ==> Dead(s', ackId)
  }

  lemma ReplaceQueue(s: Queues, s': Queues, sub: string)
    requires Inv(s) && s.ackSeq <= s'.ackSeq
    requires forall name :: name != sub ==> QueueOf(s', name) == QueueOf(s, name)
    requires Renews(QueueOf(s, sub), QueueOf(s', sub), s.ackSeq, s'.ackSeq)
    ensures Kept(s, s')
  {
    var q, q' := QueueOf(s, sub), QueueOf(s', sub);
    forall name | name != sub
      ensures AckIds(q') !! AckIds(QueueOf(s', name))
    {
      forall id | id in AckIds(QueueOf(s, name))
        ensures AckNumber(id) <= s.ackSeq && id !in AckIds(q)
      {
        var m :| m in QueueOf(s, name) && m.ackId == id;
      }
    }
    forall ackId, name | Dead(s, ackId)
      ensures ackId !in AckIds(QueueOf(s', name))
    {
      assert ackId !in AckIds(QueueOf(s, name)) && ackId !in AckIds(q);
    }
  }

  lemma StampRenews(q: seq<Stored>, batch: seq<Message>, ackSeq: nat)
    requires DistinctAcks(q) && forall i :: 0 <= i < |q| ==> AckNumber(q[i].ackId) <= ackSeq
    ensures Renews(q, q + Stamp(batch, ackSeq), ackSeq, ackSeq + |batch|)
  {
    AllAckNamesNumbered();
    var q' := q + Stamp(batch, ackSeq);
    forall i | 0 <= i < |q'|
      ensures if i < |q| then q'[i].ackId in AckIds(q) else q'[i].ackId == AckName(ackSeq + 1 + i - |q|)
    {
      if i < |q| {
        assert q[i] in q;
      }
    }
  }

  lemma {:induction false} RankGrows(q: seq<Stored>, i: nat, j: nat, now: int)
    requires i < j <= |q| && Available(q[i], now)
    ensures Rank(q, i, now) < Rank(q, j, now)
  {
    if i < j - 1 {
      RankGrows(q, i, j - 1, now);
    }
  }

  lemma LeaseRenews(q: seq<Stored>, limit: nat, now: int, deadline: int, ackSeq: nat)
    requires DistinctAcks(q) && forall i :: 0 <= i < |q| ==> AckNumber(q[i].ackId) <= ackSeq
    ensures var granted := |Grants(q, |q|, limit, now, ackSeq)|;
            Renews(q, LeaseAll(q, limit, now, deadline, ackSeq), ackSeq, ackSeq + granted)
  {
    AllAckNamesNumbered();
    var q' := LeaseAll(q, limit, now, deadline, ackSeq);
    forall i | 0 <= i < |q|
      ensures if Taken(q, i, limit, now) then Rank(q, i, now) < |Grants(q, |q|, limit, now, ackSeq)|
              else q'[i].ackId in AckIds(q)
    {
      if Taken(q, i, limit, now) {
        TakenIsGranted(q, |q|, i, limit, now, ackSeq);
      } else {
        assert q'[i] == q[i] && q[i] in q;
      }
    }
    forall i, j | 0 <= i < j < |q|
      ensures q'[i].ackId != q'[j].ackId
    {
      if Available(q[i], now) {
        RankGrows(q, i, j, now);
      }
    }
  }

  lemma {:induction false} UnackedMembers(q: seq<Stored>, ids: set<string>, m: Stored)
    ensures m in Unacked(q, ids) <==> m in q && !Acked(m, ids)
  {
    if q != [] {
      UnackedMembers(q[..|q| - 1], ids, m);
      assert q == q[..|q| - 1] + [q[|q| - 1]];
    }
  }

  lemma {:induction false} UnackedDistinct(q: seq<Stored>, ids: set<string>)
    ensures DistinctAcks(q) ==> DistinctAcks(Unacked(q, ids))
    ensures DistinctIds(q) ==> DistinctIds(Unacked(q, ids))
  {
    if q != [] {
      var front := q[..|q| - 1];
      UnackedDistinct(front, ids);
      forall i | 0 <= i < |Unacked(front, ids)|
        ensures Unacked(front, ids)[i] in front
      {
        UnackedMembers(front, ids, Unacked(front, ids)[i]);
      }
    }
  }

  lemma UnackedRenews(q: seq<Stored>, ids: set<string>, ackSeq: nat)
    requires DistinctAcks(q)
    ensures Renews(q, Unacked(q, ids), ackSeq, ackSeq)
  {
    UnackedDistinct(q, ids);
    var q' := Unacked(q, ids);
    forall i | 0 <= i < |q'|
      ensures q'[i].ackId in AckIds(q)
    {
      UnackedMembers(q, ids, q'[i]);
    }
  }

  lemma {:induction false} EnqueueKeepsInv(s: Queues, subs: seq<string>, batch: seq<Message>)
    requires Inv(s)
    ensures Kept(s, EnqueueAll(s, subs, batch))
  {
    if subs != [] && batch != [] {
      var sub := subs[|subs| - 1];
      var mid := EnqueueAll(s, subs[..|subs| - 1], batch);
      EnqueueKeepsInv(s, subs[..|subs| - 1], batch);
      StampRenews(QueueOf(mid, sub), batch, mid.ackSeq);
      ReplaceQueue(mid, EnqueueOne(mid, sub, batch), sub);
    } else if subs != [] {
      EnqueueKeepsInv(s, subs[..|subs| - 1], batch);
    }
  }

  lemma LeaseKeepsInv(s: Queues, sub: string, limit: nat, now: int, deadline: int)
    requires Inv(s)
    ensures Kept(s, Next(s, Lease(sub, limit, now, deadline)))
  {
    LeaseRenews(QueueOf(s, sub), limit, now, deadline, s.ackSeq);
    ReplaceQueue(s, Next(s, Lease(sub, limit, now, deadline)), sub);
  }

  lemma RemoveKeepsInv(s: Queues, sub: string, ids: set<string>)
    requires Inv(s)
    ensures Kept(s, Next(s, Remove(sub, ids)))
  {
    UnackedRenews(QueueOf(s, sub), ids, s.ackSeq);
    ReplaceQueue(s, Next(s, Remove(sub, ids)), sub);
  }

  lemma ExtendKeepsInv(s: Queues, sub: string, ids: set<string>, sec: int, now: int)
    requires Inv(s)
    ensures Kept(s, Next(s, Extend(sub, ids, sec, now)))
  {
    var q := QueueOf(s, sub);
    assert forall i :: 0 <= i < |q| ==> q[i] in q && ExtendOne(q[i], ids, sec, now).ackId == q[i].ackId;
    assert Renews(q, ExtendAll(q, ids, sec, now), s.ackSeq, s.ackSeq);
    ReplaceQueue(s, Next(s, Extend(sub, ids, sec, now)), sub);
  }

  lemma NextKeepsInv(s: Queues, step: Step)
    requires Inv(s)
    ensures Kept(s, Next(s, step))
  {
    match step
    case Enqueue(subs, batch) => EnqueueKeepsInv(s, subs, batch);
    case Lease(sub, limit, now, deadline) => LeaseKeepsInv(s, sub, limit, now, deadline);
    case Remove(sub, ids) => RemoveKeepsInv(s, sub, ids);
    case Extend(sub, ids, sec, now) => ExtendKeepsInv(s, sub, ids, sec, now);
    case Drop(sub) => ReplaceQueue(s, Next(s, step), sub);
  }

  /** In every run the stored ack ids are globally distinct and bounded by the counter. */
  lemma {:induction false} AckIdsInvariant(t: Trace)
    ensures Inv(Run(t))
  {
    if t.Then? {
      AckIdsInvariant(t.before);
      NextKeepsInv(Run(t.before), t.step);
    }
  }

  // ---- Message ids ----------------------------------------------------------

  ghost predicate DistinctIds(q: seq<Stored>) {
    forall i, j :: 0 <= i < j < |q| ==> q[i].message.id != q[j].message.id
  }

  /** Message ids are distinct and all were published. */
  ghost predicate KnownIds(t: Trace, q: seq<Stored>) {
    DistinctIds(q) && forall i :: 0 <= i < |q| ==> Published(t, q[i].message.id)
  }

  /** One step on one queue: old entries keep their messages, new ones come from the batch. */
  lemma QueueStep(s: Queues, step: Step, name: string)
    requires step.Enqueue? ==> Distinct(step.subs)
    ensures var q, q' := QueueOf(s, name), QueueOf(Next(s, step), name);
            match step
            case Enqueue(subs, batch) =>
              if name in subs then exists n: nat :: q' == q + Stamp(batch, n) else q' == q
            case Lease(sub, limit, now, deadline) =>
              q' == if sub == name then LeaseAll(q, limit, now, deadline, s.ackSeq) else q
            case Remove(sub, ids) => q' == if sub == name then Unacked(q, ids) else q
            case Extend(sub, ids, sec, now) => q' == if sub == name then ExtendAll(q, ids, sec, now) else q
            case Drop(sub) => q' == if sub == name then [] else q
  {
    if step.Enqueue? {
      if name in step.subs {
        var k :| 0 <= k < |step.subs| && step.subs[k] == name;
        EnqueueAppends(s, step.subs, step.batch, k);
      } else {
        EnqueueSkips(s, step.subs, step.batch, name);
      }
    }
  }

  /** Apart from acknowledgement and deletion, entries stay at their positions. */
  lemma PositionsKept(s: Queues, step: Step, name: string, i: nat)
    requires step.Enqueue? ==> Distinct(step.subs)
    requires step != Drop(name) && !(step.Remove? && step.sub == name)
    requires i < |QueueOf(s, name)|
    ensures i < |QueueOf(Next(s, step), name)|
    ensures QueueOf(Next(s, step), name)[i].message == QueueOf(s, name)[i].message
  {
    QueueStep(s, step, name);
  }

  lemma UnackedKnown(t: Trace, q: seq<Stored>, ids: set<string>)
    requires KnownIds(t, q)
    ensures KnownIds(t, Unacked(q, ids))
  {
    UnackedDistinct(q, ids);
    forall i | 0 <= i < |Unacked(q, ids)|
      ensures Unacked(q, ids)[i] in q
    {
      UnackedMembers(q, ids, Unacked(q, ids)[i]);
    }
  }

  lemma StampKnown(before: Trace, step: Step, q: seq<Stored>, n: nat)
    requires step.Enqueue? && Fits(before, step) && KnownIds(before, q)
    ensures KnownIds(Then(before, step), q + Stamp(step.batch, n))
  {
    var q' := q + Stamp(step.batch, n);
    forall i | 0 <= i < |q'|
      ensures Published(Then(before, step), q'[i].message.id)
      ensures i >= |q| ==> q'[i].message.id == step.batch[i - |q|].id
    {
    }
  }

  /** In every legal run each queue holds distinct, published message ids. */
  lemma {:induction false} MessageIdsInvariant(t: Trace, name: string)
    requires Legal(t)
    ensures KnownIds(t, QueueAfter(t, name))
  {
    if t.Then? {
      var q := QueueAfter(t.before, name);
      MessageIdsInvariant(t.before, name);
      QueueStep(Run(t.before), t.step, name);
      if t.step.Remove? {
        UnackedKnown(t.before, q, t.step.ids);
      } else if t.step.Enqueue? && name in t.step.subs {
        var n: nat :| QueueAfter(t, name) == q + Stamp(t.step.batch, n);
        StampKnown(t.before, t.step, q, n);
      }
    }
  }
}
