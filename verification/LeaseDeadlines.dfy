/** How long a lease lasts: what a pull grants, and that nobody else is handed the message before. */
module LeaseDeadlines {
  import opened Text
  import opened Leases
  import opened LeaseInvariants
  import opened LeaseTheorems

  // ---- What a pull grants ---------------------------------------------------------------------

  /** Each returned message is leased, by history, under the ack id it was returned with. */
  lemma PullGrants(t: Trace, name: string, limit: nat, now: int, deadline: int, k: nat)
    requires Legal(t)
    requires k < |Reply(Run(t), Lease(name, limit, now, deadline))|
    ensures var step := Lease(name, limit, now, deadline);
            var r := Reply(Run(t), step)[k];
            && LeaseOf(Then(t, step), name, r.message.id) == Some(Grant(r.ackId, deadline))
            && r.ackId == "ack-" + Decimal(Run(t).ackSeq + 1 + k)
            && |Reply(Run(t), step)| <= limit
  {
    var q := QueueAfter(t, name);
    var i := GrantedIsTaken(q, |q|, k, limit, now, Run(t).ackSeq);
    MessageIdsInvariant(t, name);
    GrantForPresent(q, |q|, i, limit, now, Run(t).ackSeq);
  }

  // ---- Until the deadline ---------------------------------------------------------------------

  /** Up to the deadline, and unless the ack id is named, a step does not touch the lease. */
  predicate LeavesLease(step: Step, name: string, lease: Grant) {
    && (step.Lease? && step.sub == name ==> step.now <= lease.deadline)
    && (step.Extend? && step.sub == name ==> lease.ackId !in step.ids)
  }

  predicate UndisturbedSince(start: Trace, t: Trace, name: string, lease: Grant)
    requires Continues(t, start)
  {
    t == start || (UndisturbedSince(start, t.before, name, lease) && LeavesLease(t.step, name, lease))
  }

  lemma LeasedIsNotPulled(t: Trace, name: string, id: string, lease: Grant, limit: nat, now: int, deadline: int)
    requires Legal(t) && now <= lease.deadline
    requires HasId(QueueAfter(t, name), id) ==> LeaseOf(t, name, id) == Some(lease)
    ensures GrantFor(Reply(Run(t), Lease(name, limit, now, deadline)), id) == None
  {
    var q := QueueAfter(t, name);
    if HasId(q, id) {
      var i :| 0 <= i < |q| && q[i].message.id == id;
      PullRespectsLeases(t, name, i, limit, now, deadline);
    } else {
      GrantForAbsent(q, |q|, limit, now, Run(t).ackSeq, id);
    }
  }

  lemma LeaseOutlastsStep(t: Trace, step: Step, name: string, id: string, lease: Grant)
    requires Legal(t) && Fits(t, step) && Published(t, id) && LeavesLease(step, name, lease)
    requires HasId(QueueAfter(t, name), id) ==> LeaseOf(t, name, id) == Some(lease)
    ensures HasId(QueueAfter(Then(t, step), name), id) ==> LeaseOf(Then(t, step), name, id) == Some(lease)
  {
    if HasId(QueueAfter(Then(t, step), name), id) {
      if !HasId(QueueAfter(t, name), id) {
        StepKeepsGone(t, step, name, id);
      }
      match step
      case Lease(sub, limit, now, deadline) =>
        if sub == name {
          LeasedIsNotPulled(t, name, id, lease, limit, now, deadline);
        }
      case Enqueue(_, batch) => assert !Carries(batch, id);
      case _ =>
    }
  }

  /** Over any run: while the message is there, its lease stays in force as it was granted. */
  lemma {:induction false} LeaseOutlasts(start: Trace, t: Trace, name: string, id: string, lease: Grant)
    requires Legal(t) && Continues(t, start) && Published(start, id) && LeaseOf(start, name, id) == Some(lease)
    requires UndisturbedSince(start, t, name, lease)
    ensures HasId(QueueAfter(t, name), id) ==> LeaseOf(t, name, id) == Some(lease)
  {
    if t != start {
      LeaseOutlasts(start, t.before, name, id, lease);
      StaysPublished(start, t.before, id);
      LeaseOutlastsStep(t.before, t.step, name, id, lease);
    }
  }

  /** Over any run: until its deadline no pull hands a leased message out again, unless a request to
      change the deadline named its ack id in between. */
  lemma HeldUntilDeadline(
      start: Trace, t: Trace, name: string, id: string, lease: Grant, limit: nat, now: int, deadline: int)
    requires Legal(t) && Continues(t, start) && Published(start, id) && LeaseOf(start, name, id) == Some(lease)
    requires UndisturbedSince(start, t, name, lease) && now <= lease.deadline
    ensures GrantFor(Reply(Run(t), Lease(name, limit, now, deadline)), id) == None
  {
    LeaseOutlasts(start, t, name, id, lease);
    LeasedIsNotPulled(t, name, id, lease, limit, now, deadline);
  }

  /** What is leased was published. */
  lemma {:induction false} LeasedIsPublished(t: Trace, name: string, id: string)
    requires Legal(t) && LeaseOf(t, name, id).Some?
    ensures Published(t, id)
  {
    if t.Then? && !Published(t.before, id) {
      if LeaseOf(t.before, name, id).Some? {
        LeasedIsPublished(t.before, name, id);
      } else {
        var q := QueueAfter(t.before, name);
        MessageIdsInvariant(t.before, name);
        if t.step.Lease? && t.step.sub == name {
          GrantForAbsent(q, |q|, t.step.limit, t.step.now, Run(t.before).ackSeq, id);
        }
      }
    }
  }

  // ---- A pull and a later one -----------------------------------------------------------------

  /** A pull at `now` with `seconds` to acknowledge: until they are over, no pull returns what it returned. */
  lemma PulledIsHeld(
      t: Trace, name: string, limit: nat, now: int, seconds: int, k: nat,
      later: Trace, limit': nat, now': int, deadline': int)
    requires Legal(later)
    requires var step := Lease(name, limit, now, now + seconds * 1_000_000_000);
             && Legal(Then(t, step)) && Continues(later, Then(t, step)) && k < |Reply(Run(t), step)|
             && UndisturbedSince(Then(t, step), later, name, Grant(Reply(Run(t), step)[k].ackId, step.deadline))
    requires now' <= now + seconds * 1_000_000_000
    ensures var r := Reply(Run(t), Lease(name, limit, now, now + seconds * 1_000_000_000))[k];
            GrantFor(Reply(Run(later), Lease(name, limit', now', deadline')), r.message.id) == None
  {
    var step := Lease(name, limit, now, now + seconds * 1_000_000_000);
    var r := Reply(Run(t), step)[k];
    PullGrants(t, name, limit, now, step.deadline, k);
    LeasedIsPublished(Then(t, step), name, r.message.id);
    HeldUntilDeadline(Then(t, step), later, name, r.message.id, Grant(r.ackId, step.deadline), limit', now', deadline');
  }

  /** A message given back is handed out by the next pull whose limit reaches it, whatever the clock. */
  lemma NackedIsFree(t: Trace, name: string, i: nat, ids: set<string>, sec: int, now: int, limit: nat, clock: int, deadline: int)
    requires Legal(t) && i < |QueueAfter(t, name)| && QueueAfter(t, name)[i].ackId in ids && sec <= 0
    ensures var given := Then(t, Extend(name, ids, sec, now));
            var q := QueueAfter(given, name);
            && i < |q| && q[i].message == QueueAfter(t, name)[i].message
            && (GrantFor(Reply(Run(given), Lease(name, limit, clock, deadline)), q[i].message.id).Some? <==>
                FreeBefore(given, name, q, i, clock) < limit)
  {
    var given := Then(t, Extend(name, ids, sec, now));
    QueueStep(Run(t), Extend(name, ids, sec, now), name);
    HistoryDecidesLeases(given, name);
    PullRespectsLeases(given, name, i, limit, clock, deadline);
  }
}
