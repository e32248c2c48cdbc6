/**
 The Pub/Sub service: topics and subscriptions in the store, and per-subscription slices of
 stored messages that pulls, acknowledgements and deadline changes update in place.
 */
module PubSub {
  import opened Text
  import opened Leases
  import opened LeaseInvariants
  import opened LeaseTheorems
  import opened LeaseDeadlines

  datatype Status = Ok | AlreadyExists | TopicMissing | SubMissing

  datatype Subscription = Subscription(topic: string, ackDeadlineSeconds: int, pushEndpoint: string)

  /** A Go slice: the first `len` cells of a backing array. */
  datatype Slice = Slice(data: array<Stored>, len: nat)

  // ---- In-place loops --------------------------------------------------------

  /** What looking at one more message means while the limit is not reached. */
  lemma LeaseStep(q: seq<Stored>, i: nat, limit: nat, now: int, deadline: int, ackSeq: nat)
    requires i < |q| && Rank(q, i, now) < limit
    ensures var id := AckName(ackSeq + 1 + Rank(q, i, now));
            if Available(q[i], now)
            then LeaseAt(q, i, limit, now, deadline, ackSeq) == Stored(id, q[i].message, true, deadline) &&
                 Grants(q, i + 1, limit, now, ackSeq) == Grants(q, i, limit, now, ackSeq) + [Received(id, q[i].message)] &&
                 Rank(q, i + 1, now) == Rank(q, i, now) + 1
            else LeaseAt(q, i, limit, now, deadline, ackSeq) == q[i] &&
                 Grants(q, i + 1, limit, now, ackSeq) == Grants(q, i, limit, now, ackSeq) &&
                 Rank(q, i + 1, now) == Rank(q, i, now)
  {
  }

  /** The lease loop of PullMessages. */
  method LeaseInPlace(q: array<Stored>, len: nat, limit: nat, now: int, deadline: int, ackSeq: nat)
    returns (out: seq<Received>, ackSeq': nat)
    requires len <= q.Length
    modifies q
    ensures q[..len] == LeaseAll(old(q[..len]), limit, now, deadline, ackSeq)
    ensures q[len..] == old(q[len..])
    ensures out == Grants(old(q[..len]), len, limit, now, ackSeq)
    ensures ackSeq' == ackSeq + |out|
  {
    ghost var was := q[..len];
    out, ackSeq' := [], ackSeq;
    var i := 0;
    while i < len && |out| < limit
      invariant 0 <= i <= len
      invariant out == Grants(was, i, limit, now, ackSeq) && ackSeq' == ackSeq + |out|
      invariant |out| < limit ==> |out| == Rank(was, i, now)
      invariant forall k :: 0 <= k < i ==> q[k] == LeaseAt(was, k, limit, now, deadline, ackSeq)
      invariant forall k :: i <= k < len ==> q[k] == was[k]
      invariant forall k :: len <= k < q.Length ==> q[k] == old(q[k])
    {
      LeaseStep(was, i, limit, now, deadline, ackSeq);
      if Available(q[i], now) {
        ackSeq' := ackSeq' + 1;
        q[i] := Stored(AckName(ackSeq'), q[i].message, true, deadline);
        out := out + [Received(AckName(ackSeq'), q[i].message)];
      }
      i := i + 1;
    }
    RestUntaken(was, i, len, limit, now, deadline, ackSeq);
  }

  /** Once `limit` messages are out, the rest of the queue is left alone. */
  lemma {:induction false} RestUntaken(
      q: seq<Stored>, i: nat, n: nat, limit: nat, now: int, deadline: int, ackSeq: nat)
    requires i <= n <= |q| && (i < n ==> Rank(q, i, now) >= limit)
    ensures Grants(q, n, limit, now, ackSeq) == Grants(q, i, limit, now, ackSeq)
    ensures i < n ==> Rank(q, n, now) >= limit
    ensures forall k :: i <= k < n ==> LeaseAt(q, k, limit, now, deadline, ackSeq) == q[k]
  {
    if i < n {
      RestUntaken(q, i, n - 1, limit, now, deadline, ackSeq);
    }
  }

  /** The compaction loop of Acknowledge: `kept` grows inside the array it is read from. */
  method CompactInPlace(q: array<Stored>, len: nat, ids: set<string>) returns (kept: nat)
    requires len <= q.Length
    modifies q
    ensures kept <= len && q[..kept] == Unacked(old(q[..len]), ids)
  {
    ghost var was := q[..len];
    kept := 0;
    var i := 0;
    while i < len
      invariant kept <= i <= len
      invariant q[..kept] == Unacked(was[..i], ids)
      invariant forall k :: i <= k < len ==> q[k] == was[k]
    {
      assert was[..i + 1] == was[..i] + [was[i]];
      if !(q[i].ackId in ids && q[i].inflight) {
        q[kept] := q[i];
        kept := kept + 1;
      }
      i := i + 1;
    }
    assert was[..len] == was;
  }

  /** The deadline loop of ModifyAckDeadline. */
  method ExtendInPlace(q: array<Stored>, len: nat, ids: set<string>, sec: int, now: int)
    requires len <= q.Length
    modifies q
    ensures q[..len] == ExtendAll(old(q[..len]), ids, sec, now)
    ensures q[len..] == old(q[len..])
  {
    var i := 0;
    while i < len
      invariant 0 <= i <= len
      invariant forall k :: 0 <= k < i ==> q[k] == ExtendOne(old(q[k]), ids, sec, now)
      invariant forall k :: i <= k < q.Length ==> q[k] == old(q[k])
    {
      if q[i].ackId in ids {
        if sec <= 0 {
          q[i] := q[i].(inflight := false, deadline := ZERO_TIME);
        } else {
          q[i] := q[i].(deadline := now + sec * SECOND);
        }
      }
      i := i + 1;
    }
  }

  /** Go's `append` of one element: in place while capacity lasts, else into a larger array. */
  method Append(s: Slice, m: Stored) returns (r: Slice)
    requires s.len <= s.data.Length
    modifies s.data
    ensures r.len == s.len + 1 <= r.data.Length
    ensures r.data == s.data || fresh(r.data)
    ensures r.data[..r.len] == old(s.data[..s.len]) + [m]
  {
    if s.len < s.data.Length {
      s.data[s.len] := m;
      r := Slice(s.data, s.len + 1);
      assert r.data[..r.len] == r.data[..s.len] + [m];
      assert r.data[..s.len] == old(s.data[..s.len]);
    } else {
      var bigger := new Stored[2 * s.len + 1](_ => m);
      var i := 0;
      while i < s.len
        invariant 0 <= i <= s.len && bigger.Length == 2 * s.len + 1
        invariant forall k :: 0 <= k < i ==> bigger[k] == s.data[k]
        invariant bigger[s.len] == m && s.data[..] == old(s.data[..])
      {
        bigger[i] := s.data[i];
        i := i + 1;
      }
      r := Slice(bigger, s.len + 1);
      assert r.data[..r.len] == r.data[..s.len] + [m];
      assert r.data[..s.len] == s.data[..s.len];
    }
  }

  function Unleased(ackSeq: nat, m: Message): Stored { Stored(AckName(ackSeq), m, false, ZERO_TIME) }

  function AppendOne(s: Queues, sub: string, m: Message): Queues {
    Queues(s.byName[sub := QueueOf(s, sub) + [Unleased(s.ackSeq + 1, m)]], s.ackSeq + 1)
  }

  function OrTen(n: int): (r: nat)
    ensures r == if n > 0 then n else 10
  {
    if n <= 0 then 10 else n
  }

  // ---- The service --------------------------------------------------------------

  class Service {
    var topics: set<string>
    var subs: map<string, Subscription>
    var queues: map<string, Slice>
    var msgSeq: nat
    var ackSeq: nat

    /** The queue contents as values, and the sections run so far. */
    ghost var state: Queues
    ghost var history: Trace

    ghost function Arrays(): set<object>
      reads this`queues
    {
      set name | name in queues :: queues[name].data
    }

    /** Slices fit their arrays, no two subscriptions share one, and `state` is what they hold;
        nothing is said of the contents of the slices of `busy`. */
    ghost predicate ValidBut(busy: set<string>)
      reads this`queues, this`state, Arrays()
    {
      && state.byName.Keys == queues.Keys
      && (forall a, b :: a in queues && b in queues && a != b ==> queues[a].data != queues[b].data)
      && (forall name :: name in queues && name !in busy ==>
            queues[name].len <= queues[name].data.Length &&
            queues[name].data[..queues[name].len] == state.byName[name])
    }

    ghost predicate Valid()
      reads this`queues, this`ackSeq, this`state, Arrays()
    {
      ValidBut({}) && state.ackSeq == ackSeq
    }

    /** Assigns the slice of one subscription. */
    method Assign(sub: string, slice: Slice, ghost q: seq<Stored>, ghost n: nat)
      requires ValidBut({sub})
      requires slice.len <= slice.data.Length && slice.data[..slice.len] == q
      requires forall name :: name in queues && name != sub ==> queues[name].data != slice.data
      modifies this`queues, this`state
      ensures ValidBut({})
      ensures Arrays() <= old(Arrays()) + {slice.data}
      ensures state == Queues(old(state).byName[sub := q], n)
    {
      queues := queues[sub := slice];
      state := Queues(state.byName[sub := q], n);
    }

    /** The state is the end of a legal run, so the theorems about runs apply to it. */
    ghost predicate Lawful()
      reads this`history, this`state, this`msgSeq
    {
      Legal(history) && state == Run(history) && IdsUpTo(history, msgSeq)
    }

    constructor ()
      ensures Valid() && Lawful() && state == EMPTY && topics == {} && subs == map[] && msgSeq == 0
    {
      topics, subs, queues, msgSeq, ackSeq := {}, map[], map[], 0, 0;
      state, history := EMPTY, Start;
    }

    // ---- Sections run under the mutex ----

    /** `s.queues[sub]`: a missing key reads as an empty slice. */
    method SliceOf(sub: string) returns (slice: Slice)
      requires ValidBut({})
      ensures slice.len <= slice.data.Length && slice.data[..slice.len] == QueueOf(state, sub)
      ensures if sub in queues then slice == queues[sub] && slice.data in Arrays() else fresh(slice.data)
    {
      if sub in queues {
        slice := queues[sub];
      } else {
        var none := new Stored[0];
        slice := Slice(none, 0);
      }
    }

    /** `s.queues[sub] = append(s.queues[sub], m)`, with `n` ack ids drawn so far. */
    method AppendTo(sub: string, m: Stored, ghost n: nat)
      requires ValidBut({})
      modifies this`queues, this`state, Arrays()
      ensures ValidBut({}) && fresh(Arrays() - old(Arrays()))
      ensures state == Queues(old(state).byName[sub := QueueOf(old(state), sub) + [m]], n)
    {
      var slice := SliceOf(sub);
      var appended := Append(slice, m);
      assert ValidBut({sub});
      Assign(sub, appended, QueueOf(state, sub) + [m], n);
    }

    /** The inner statement of the publish loop: draw an ack id, append one message. */
    method EnqueueMessage(sub: string, m: Message)
      requires Valid()
      modifies this`queues, this`ackSeq, this`state, Arrays()
      ensures Valid() && fresh(Arrays() - old(Arrays()))
      ensures state == AppendOne(old(state), sub, m)
    {
      var n := ackSeq + 1;
      AppendTo(sub, Unleased(n, m), n);
      ackSeq := n;
    }

    /** Appends the batch to one queue. */
    method EnqueueTo(sub: string, batch: seq<Message>)
      requires Valid()
      modifies this`queues, this`ackSeq, this`state, Arrays()
      ensures Valid() && fresh(Arrays() - old(Arrays()))
      ensures state == EnqueueOne(old(state), sub, batch)
    {
      var i := 0;
      while i < |batch|
        invariant 0 <= i <= |batch| && Valid() && fresh(Arrays() - old(Arrays()))
        invariant state == EnqueueOne(old(state), sub, batch[..i])
      {
        StampMore(old(state), sub, batch, i);
        EnqueueMessage(sub, batch[i]);
        i := i + 1;
      }
      assert batch[..i] == batch;
    }

    method FanOut(names: seq<string>, batch: seq<Message>)
      requires Valid()
      modifies this`queues, this`ackSeq, this`state, Arrays()
      ensures Valid() && state == Next(old(state), Enqueue(names, batch))
    {
      var k := 0;
      while k < |names|
        invariant 0 <= k <= |names| && Valid() && fresh(Arrays() - old(Arrays()))
        invariant state == EnqueueAll(old(state), names[..k], batch)
      {
        assert names[..k + 1][..k] == names[..k];
        EnqueueTo(names[k], batch);
        k := k + 1;
      }
      assert names[..k] == names;
    }

    method LeaseSection(subName: string, limit: nat, now: int, deadline: int) returns (out: seq<Received>)
      requires Valid()
      modifies this`ackSeq, this`state, Arrays()
      ensures Valid() && state == Next(old(state), Lease(subName, limit, now, deadline))
      ensures out == Reply(old(state), Lease(subName, limit, now, deadline))
    {
      out := [];
      if subName in queues {
        var slice := queues[subName];
        out, ackSeq := LeaseInPlace(slice.data, slice.len, limit, now, deadline, ackSeq);
        state := Queues(state.byName[subName := LeaseAll(state.byName[subName], limit, now, deadline, state.ackSeq)],
                        ackSeq);
      }
    }

    method RemoveSection(subName: string, ids: set<string>)
      requires Valid()
      modifies this`queues, this`state, Arrays()
      ensures Valid() && state == Next(old(state), Remove(subName, ids))
    {
      var slice := SliceOf(subName);
      var kept := CompactInPlace(slice.data, slice.len, ids);
      assert ValidBut({subName});
      Assign(subName, Slice(slice.data, kept), Unacked(QueueOf(state, subName), ids), state.ackSeq);
    }

    method ExtendSection(subName: string, ids: set<string>, sec: int, now: int)
      requires Valid()
      modifies this`state, Arrays()
      ensures Valid() && state == Next(old(state), Extend(subName, ids, sec, now))
    {
      if subName in queues {
        var slice := queues[subName];
        ExtendInPlace(slice.data, slice.len, ids, sec, now);
        state := state.(byName := state.byName[subName := ExtendAll(state.byName[subName], ids, sec, now)]);
      }
    }

    method DropSection(subName: string)
      requires Valid()
      modifies this`queues, this`state
      ensures Valid() && state == Next(old(state), Drop(subName))
    {
      queues := queues - {subName};
      state := state.(byName := state.byName - {subName});
    }

    // ---- Calls ----

    method CreateTopic(name: string) returns (r: Status)
      modifies this`topics
      ensures r == if name in old(topics) then AlreadyExists else Ok
      ensures topics == old(topics) + {name}
    {
      if name in topics {
        return AlreadyExists;
      }
      topics := topics + {name};
      return Ok;
    }

    method CreateSubscription(name: string, topic: string, ackDeadline: int, pushURL: string) returns (r: Status)
      modifies this`subs
      ensures r == if topic !in topics then TopicMissing else if name in old(subs) then AlreadyExists else Ok
      ensures subs == if r != Ok then old(subs) else
                old(subs)[name := Subscription(topic, if ackDeadline <= 0 then 10 else ackDeadline, pushURL)]
    {
      if topic !in topics {
        return TopicMissing;
      }
      if name in subs {
        return AlreadyExists;
      }
      subs := subs[name := Subscription(topic, if ackDeadline <= 0 then 10 else ackDeadline, pushURL)];
      return Ok;
    }

    method DeleteSubscription(name: string) returns (r: Status)
      requires Valid() && Lawful()
      modifies this`subs, this`queues, this`state, this`history
      ensures Valid() && Lawful()
      ensures r == if name in old(subs) then Ok else SubMissing
      ensures subs == old(subs) - {name}
      ensures history == if r == Ok then Then(old(history), Drop(name)) else old(history)
    {
      if name !in subs {
        return SubMissing;
      }
      subs := subs - {name};
      DropSection(name);
      history := Then(history, Drop(name));
      return Ok;
    }

    /** The names of the topic's subscriptions, each once, in whatever order the map yields them. */
    method SubsForTopic(topic: string) returns (names: seq<string>)
      ensures Distinct(names)
      ensures forall n :: n in names <==> n in subs && subs[n].topic == topic
    {
      names := [];
      var left := subs.Keys;
      while left != {}
        invariant left <= subs.Keys && Distinct(names)
        invariant forall n :: n in names <==> n in subs.Keys - left && subs[n].topic == topic
        decreases left
      {
        var n :| n in left;
        left := left - {n};
        if subs[n].topic == topic {
          names := names + [n];
        }
      }
    }

    /** Draws a message id and reads the clock for each message of a batch. */
    method AssignIds(msgs: seq<Message>, clocks: seq<int>) returns (ids: seq<string>, batch: seq<Message>)
      requires |clocks| == |msgs|
      modifies this`msgSeq
      ensures msgSeq == old(msgSeq) + |msgs| && |ids| == |msgs|
      ensures forall i :: 0 <= i < |msgs| ==> ids[i] == MessageName(old(msgSeq) + 1 + i)
      ensures batch == Labelled(msgs, ids, clocks)
    {
      ids, batch := [], [];
      var i := 0;
      while i < |msgs|
        invariant 0 <= i == |ids| <= |msgs| && msgSeq == old(msgSeq) + i
        invariant forall k :: 0 <= k < i ==> ids[k] == MessageName(old(msgSeq) + 1 + k)
        invariant batch == Labelled(msgs[..i], ids, clocks[..i])
      {
        msgSeq := msgSeq + 1;
        ids := ids + [MessageName(msgSeq)];
        batch := batch + [msgs[i].(id := MessageName(msgSeq), publishTime := clocks[i])];
        i := i + 1;
      }
      assert msgs[..i] == msgs && clocks[..i] == clocks;
    }

    /** PublishMessages, with the clock reading of each message as an input. The batch goes, under
        fresh ids, to exactly the subscriptions of the topic. */
    method PublishMessages(topic: string, msgs: seq<Message>, clocks: seq<int>)
      returns (r: Status, ids: seq<string>, ghost targets: seq<string>)
      requires Valid() && Lawful() && |clocks| == |msgs|
      modifies this`queues, this`ackSeq, this`msgSeq, this`state, this`history, Arrays()
      ensures Valid() && Lawful() && r == if topic in topics then Ok else TopicMissing
      ensures r != Ok ==> ids == [] && history == old(history)
      ensures r == Ok ==>
                && |ids| == |msgs|
                && (forall i :: 0 <= i < |msgs| ==> ids[i] == "msg-" + Decimal(old(msgSeq) + 1 + i))
                && Distinct(targets) && (forall n :: n in targets <==> n in subs && subs[n].topic == topic)
                && history == Then(old(history), Enqueue(targets, Labelled(msgs, ids, clocks)))
      ensures r == Ok ==> AllDeliver(old(history), history, targets, msgs, ids, clocks)
    {
      if topic !in topics {
        return TopicMissing, [], [];
      }
      var names := SubsForTopic(topic);
      var batch;
      ids, batch := AssignIds(msgs, clocks);
      EnqueueBatch(names, msgs, ids, clocks, batch);
      r, targets := Ok, names;
    }

    /** The locked part of PublishMessages. */
    method EnqueueBatch(names: seq<string>, ghost msgs: seq<Message>, ghost ids: seq<string>, ghost clocks: seq<int>, batch: seq<Message>)
      requires Valid() && Legal(history) && state == Run(history) && Distinct(names)
      requires |ids| == |clocks| == |msgs| <= msgSeq && batch == Labelled(msgs, ids, clocks) && IdsUpTo(history, msgSeq - |msgs|)
      requires forall i :: 0 <= i < |msgs| ==> ids[i] == MessageName(msgSeq - |msgs| + 1 + i)
      modifies this`queues, this`ackSeq, this`state, this`history, Arrays()
      ensures Valid() && Lawful() && history == Then(old(history), Enqueue(names, Labelled(msgs, ids, clocks)))
      ensures AllDeliver(old(history), history, names, msgs, ids, clocks)
    {
      FanOut(names, batch);
      FreshIdsFit(history, names, batch, msgSeq - |msgs|);
      PublishDelivers(history, names, msgs, ids, clocks);
      history := Then(history, Enqueue(names, batch));
    }

    /** The locked part of PullMessages. */
    method LeaseUntil(subName: string, most: nat, now: int, deadline: int) returns (out: seq<Received>)
      requires Valid() && Lawful()
      modifies this`ackSeq, this`state, this`history, Arrays()
      ensures Valid() && Lawful() && history == Then(old(history), Lease(subName, most, now, deadline)) && |out| <= most
      ensures out == Reply(Run(old(history)), Lease(subName, most, now, deadline))
      ensures Granted(history, subName, deadline, old(ackSeq), out)
    {
      PullIsGranted(history, subName, most, now, deadline, |Reply(Run(history), Lease(subName, most, now, deadline))|);
      out := LeaseSection(subName, most, now, deadline);
      assert out[..|out|] == out;
      history := Then(history, Lease(subName, most, now, deadline));
    }

    /** PullMessages: the first `limit` messages (ten by default) that no lease covers are leased for the
        seconds of the subscription (ten by default), and returned. */
    method PullMessages(subName: string, limit: int, now: int) returns (r: Status, out: seq<Received>)
      requires Valid() && Lawful()
      modifies this`ackSeq, this`state, this`history, Arrays()
      ensures Valid() && Lawful() && r == if subName in subs then Ok else SubMissing
      ensures r != Ok ==> history == old(history) && out == []
      ensures r == Ok ==>
                var seconds := if subs[subName].ackDeadlineSeconds > 0 then subs[subName].ackDeadlineSeconds else 10;
                var most := if limit > 0 then limit else 10;
                var deadline := now + seconds * 1_000_000_000;
                && history == Then(old(history), Lease(subName, most, now, deadline)) && |out| <= most
                && out == Reply(Run(old(history)), Lease(subName, most, now, deadline))
                && Granted(history, subName, deadline, old(ackSeq), out)
    {
      if subName !in subs {
        return SubMissing, [];
      }
      var ackSec, most := subs[subName].ackDeadlineSeconds, limit;
      ackSec, most := OrTen(ackSec), OrTen(most);
      var deadline := now + ackSec * SECOND;
      out := LeaseUntil(subName, most, now, deadline);
      r := Ok;
    }

    method Acknowledge(subName: string, ackIDs: seq<string>) returns (r: Status)
      requires Valid() && Lawful()
      modifies this`queues, this`state, this`history, Arrays()
      ensures Valid() && Lawful() && r == if subName in subs then Ok else SubMissing
      ensures history == if r != Ok || ackIDs == [] then old(history)
                         else Then(old(history), Remove(subName, (set id | id in ackIDs)))
    {
      if subName !in subs {
        return SubMissing;
      }
      if ackIDs == [] {
        return Ok;
      }
      var ids := set id | id in ackIDs;
      RemoveSection(subName, ids);
      history := Then(history, Remove(subName, ids));
      r := Ok;
    }

    method ModifyAckDeadline(subName: string, ackIDs: seq<string>, sec: int, now: int) returns (r: Status)
      requires Valid() && Lawful()
      modifies this`state, this`history, Arrays()
      ensures Valid() && Lawful() && r == if subName in subs then Ok else SubMissing
      ensures history == if r != Ok || ackIDs == [] then old(history)
                         else Then(old(history), Extend(subName, (set id | id in ackIDs), sec, now))
      ensures forall id :: LeaseOf(history, subName, id) ==
                var lease := LeaseOf(old(history), subName, id);
                if r != Ok || lease.None? || lease.value.ackId !in ackIDs then lease
                else if sec <= 0 then None
                else Some(Grant(lease.value.ackId, now + sec * 1_000_000_000))
    {
      if subName !in subs {
        return SubMissing;
      }
      if ackIDs == [] {
        return Ok;
      }
      var ids := set id | id in ackIDs;
      ExtendSection(subName, ids, sec, now);
      history := Then(history, Extend(subName, ids, sec, now));
      r := Ok;
    }
  }

  /** Each returned message is leased until the deadline, under the ack id it came with, the next in turn. */
  ghost predicate Granted(t: Trace, name: string, deadline: int, ackSeq: nat, out: seq<Received>) {
    out != [] ==>
      var n := |out| - 1;
      && Granted(t, name, deadline, ackSeq, out[..n])
      && out[n].ackId == "ack-" + Decimal(ackSeq + |out|)
      && LeaseOf(t, name, out[n].message.id) == Some(Grant(out[n].ackId, deadline))
  }

  lemma {:induction false} PullIsGranted(t: Trace, name: string, most: nat, now: int, deadline: int, n: nat)
    requires Legal(t) && n <= |Reply(Run(t), Lease(name, most, now, deadline))|
    ensures var step := Lease(name, most, now, deadline);
            |Reply(Run(t), step)| <= most && Granted(Then(t, step), name, deadline, Run(t).ackSeq, Reply(Run(t), step)[..n])
  {
    if n > 0 {
      var out := Reply(Run(t), Lease(name, most, now, deadline));
      assert out[..n][..n - 1] == out[..n - 1];
      PullIsGranted(t, name, most, now, deadline, n - 1);
      PullGrants(t, name, most, now, deadline, n - 1);
    }
  }

  function Labelled(msgs: seq<Message>, ids: seq<string>, clocks: seq<int>): (r: seq<Message>)
    requires |ids| == |clocks| == |msgs|
    ensures |r| == |msgs|
  {
    seq(|msgs|, i requires 0 <= i < |msgs| => msgs[i].(id := ids[i], publishTime := clocks[i]))
  }

  /** The messages stand at the end of the queue, in order, under their ids and with nothing changed, and
      none of them is leased. */
  ghost predicate Delivers(q: seq<Stored>, q': seq<Stored>, msgs: seq<Message>, ids: seq<string>, clocks: seq<int>) {
    && |q'| == |q| + |msgs| && q'[..|q|] == q && |msgs| <= |ids| && |msgs| <= |clocks|
    && forall i :: 0 <= i < |msgs| ==>
         && q'[|q| + i].message == Message(ids[i], msgs[i].data, msgs[i].attributes, msgs[i].orderingKey, clocks[i])
         && !q'[|q| + i].inflight
  }

  /** The queues named get the messages, the others nothing. */
  ghost predicate AllDeliver(t: Trace, t': Trace, names: seq<string>, msgs: seq<Message>, ids: seq<string>, clocks: seq<int>) {
    forall n :: Delivers(QueueAfter(t, n), QueueAfter(t', n), if n in names then msgs else [], ids, clocks)
  }

  lemma PublishDelivers(t: Trace, names: seq<string>, msgs: seq<Message>, ids: seq<string>, clocks: seq<int>)
    requires Distinct(names) && |ids| == |clocks| == |msgs|
    ensures var step := Enqueue(names, Labelled(msgs, ids, clocks));
            AllDeliver(t, Then(t, step), names, msgs, ids, clocks)
  {
    var step := Enqueue(names, Labelled(msgs, ids, clocks));
    forall n
      ensures Delivers(QueueAfter(t, n), QueueAfter(Then(t, step), n), if n in names then msgs else [], ids, clocks)
    {
      QueueStep(Run(t), step, n);
    }
  }

  function MessageName(n: nat): string { "msg-" + Decimal(n) }

  /** Every id published so far was printed from a counter value up to `n`. */
  ghost predicate IdsUpTo(t: Trace, n: nat) {
    t.Then? ==>
      && IdsUpTo(t.before, n)
      && (t.step.Enqueue? ==> forall i :: 0 <= i < |t.step.batch| ==> Printed(t.step.batch[i].id, n))
  }

  ghost predicate Printed(id: string, n: nat) {
    exists k: nat :: k <= n && id == MessageName(k)
  }

  lemma {:induction false} IdsUpToGrows(t: Trace, m: nat, n: nat)
    requires IdsUpTo(t, m) && m <= n
    ensures IdsUpTo(t, n)
  {
    if t.Then? {
      IdsUpToGrows(t.before, m, n);
    }
  }

  lemma {:induction false} PublishedIsPrinted(t: Trace, n: nat, id: string)
    requires IdsUpTo(t, n) && Published(t, id)
    ensures Printed(id, n)
  {
    if Published(t.before, id) {
      PublishedIsPrinted(t.before, n, id);
    }
  }

  /** Ids drawn from the counter make the publish step legal. */
  lemma FreshIdsFit(t: Trace, names: seq<string>, batch: seq<Message>, n: nat)
    requires IdsUpTo(t, n) && Distinct(names)
    requires forall i :: 0 <= i < |batch| ==> batch[i].id == MessageName(n + 1 + i)
    ensures Fits(t, Enqueue(names, batch)) && IdsUpTo(Then(t, Enqueue(names, batch)), n + |batch|)
  {
    IdsUpToGrows(t, n, n + |batch|);
    forall i: nat, k: nat | MessageName(i) == MessageName(k)
      ensures i == k
    {
      assert MessageName(i)[4..] == Decimal(i) && MessageName(k)[4..] == Decimal(k);
      DecimalInjective(i, k);
    }
    forall i | 0 <= i < |batch|
      ensures !Published(t, batch[i].id)
    {
      if Published(t, batch[i].id) {
        PublishedIsPrinted(t, n, batch[i].id);
      }
    }
  }

  /** Appending one more message of the batch, as the inner publish loop does. */
  lemma StampMore(s: Queues, sub: string, batch: seq<Message>, i: nat)
    requires i < |batch|
    ensures EnqueueOne(s, sub, batch[..i + 1]) == AppendOne(EnqueueOne(s, sub, batch[..i]), sub, batch[i])
  {
    var q, y, z := QueueOf(s, sub), Stamp(batch[..i], s.ackSeq), Unleased(s.ackSeq + 1 + i, batch[i]);
    assert Stamp(batch[..i + 1], s.ackSeq) == y + [z];
    assert q + (y + [z]) == (q + y) + [z];
    if i == 0 {
      assert q + y == q;
    } else {
      assert s.byName[sub := q + y][sub := (q + y) + [z]] == s.byName[sub := (q + y) + [z]];
    }
  }
}
