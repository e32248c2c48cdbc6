/** Listen targets, the messages a stream is sent, and what a reader makes of them. */
module Listeners {
  import opened Text
  import opened Documents

  const OUTBOX := 64

  /** The 32-bit number a client gives a target. */
  datatype TargetId = TargetId(number: int)

  datatype Target = Target(docNames: set<string>, parentColl: string)

  /** A direct child of the collection: no further slash after its prefix. */
  predicate IsChild(parent: string, name: string) {
    var prefix := parent + "/";
    prefix <= name && '/' !in name[|prefix|..]
  }

  /** listenTarget.matches. */
  predicate Matches(t: Target, name: string) {
    name in t.docNames || (t.parentColl != "" && IsChild(t.parentColl, name))
  }

  /** The document lies in the collection itself, not below one of its documents. */
  ghost predicate LiesIn(coll: string, name: string) { exists id: string :: '/' !in id && name == coll + "/" + id }

  /** A target watches the documents it names, and those that lie in its collection. */
  lemma MatchesIff(t: Target, name: string)
    ensures Matches(t, name) <==> name in t.docNames || (t.parentColl != "" && LiesIn(t.parentColl, name))
  {
    var prefix := t.parentColl + "/";
    if prefix <= name {
      var id := name[|prefix|..];
      assert name == prefix + id;
      assert '/' !in id ==> LiesIn(t.parentColl, name);
    }
    forall id: string | name == prefix + id ensures prefix <= name && name[|prefix|..] == id {
    }
  }

  function Matching(docs: Docs, t: Target): Docs { map n | n in docs && Matches(t, n) :: docs[n] }

  datatype Msg =
    | Added(id: TargetId) | Removed(id: TargetId) | Current(id: TargetId) | NoChange
    | Change(doc: Doc, ids: seq<TargetId>)
    | Gone(name: string, ids: seq<TargetId>)

  /** The documents a reader holds for one target: what came since the target was last added. */
  function View(msgs: seq<Msg>, id: TargetId): Docs {
    if msgs == [] then map[] else Read(View(msgs[..|msgs| - 1], id), msgs[|msgs| - 1], id)
  }

  function Read(view: Docs, m: Msg, id: TargetId): Docs {
    match m
    case Added(i) => if i == id then map[] else view
    case Change(doc, ids) => if id in ids then view[doc.name := doc] else view
    case Gone(name, ids) => if id in ids then view - {name} else view
    case _ => view
  }

  lemma ViewMore(msgs: seq<Msg>, m: Msg, id: TargetId)
    ensures View(msgs + [m], id) == Read(View(msgs, id), m, id)
  {
    assert (msgs + [m])[..|msgs|] == msgs;
  }

  /** One Listen stream: messages already on the wire, messages waiting, and whether it gave up. */
  datatype Listener = Listener(targets: map<TargetId, Target>, delivered: seq<Msg>, outbox: seq<Msg>, closed: bool)

  function Sent(l: Listener): seq<Msg> { l.delivered + l.outbox }

  /** listener.send: a full outbox closes the listener rather than block the writer. */
  function Send(l: Listener, m: Msg): (r: Listener)
    ensures r.targets == l.targets
    ensures !r.closed ==> !l.closed
  {
    if l.closed then l
    else if |l.outbox| < OUTBOX then l.(outbox := l.outbox + [m])
    else l.(closed := true)
  }

  /** `ms` were put into the outbox, unless that overflowed it: then, and only then, the listener gave up. */
  predicate Heard(l: Listener, l': Listener, ms: seq<Msg>) {
    && l'.targets == l.targets && l'.delivered == l.delivered
    && (l'.closed <==> l.closed || (ms != [] && |l.outbox| + |ms| > 64))
    && (!l'.closed ==> l'.outbox == l.outbox + ms)
  }

  lemma HeardMore(l: Listener, l': Listener, ms: seq<Msg>, m: Msg)
    requires Heard(l, l', ms)
    ensures Heard(l, Send(l', m), ms + [m])
  {
    Assoc(l.outbox, ms, [m]);
  }

  lemma HeardOne(l: Listener, m: Msg)
    ensures Heard(l, Send(l, m), [m])
  {
  }

  lemma HeardThen(l: Listener, l1: Listener, l2: Listener, x: seq<Msg>, y: seq<Msg>)
    requires Heard(l, l1, x) && Heard(l1, l2, y)
    ensures Heard(l, l2, x + y)
  {
    Assoc(l.outbox, x, y);
  }

  lemma SendAppends(l: Listener, m: Msg, id: TargetId)
    ensures !Send(l, m).closed ==> View(Sent(Send(l, m)), id) == Read(View(Sent(l), id), m, id)
  {
    if !Send(l, m).closed {
      ViewMore(Sent(l), m, id);
      assert Sent(Send(l, m)) == Sent(l) + [m];
    }
  }

  /** Each target's reader holds exactly the documents of `docs` the target matches, unless the
      listener was abandoned. */
  ghost predicate InSync(l: Listener, docs: Docs) {
    !l.closed ==> forall id :: id in l.targets ==> View(Sent(l), id) == Matching(docs, l.targets[id])
  }

  /** `ids` are the targets of `l` that match `name`. */
  ghost predicate Matched(l: Listener, name: string, ids: seq<TargetId>) {
    forall id :: id in ids <==> id in l.targets && Matches(l.targets[id], name)
  }

  /** A listener hears of a document exactly if a target matches, with the targets that do, each once. */
  ghost predicate Told(l: Listener, l': Listener, name: string, m: seq<TargetId> -> Msg) {
    exists ids: seq<TargetId> ::
      && Matched(l, name, ids) && (forall i, j :: 0 <= i < j < |ids| ==> ids[i] != ids[j])
      && Heard(l, l', if ids == [] then [] else [m(ids), NoChange])
  }

  ghost predicate ToldChange(l: Listener, l': Listener, d: Doc) { Told(l, l', d.name, ids => Change(d, ids)) }

  ghost predicate ToldGone(l: Listener, l': Listener, name: string) { Told(l, l', name, ids => Gone(name, ids)) }

  lemma NotifyTells(l: Listener, name: string, ids: seq<TargetId>, m: seq<TargetId> -> Msg)
    requires Matched(l, name, ids) && forall i, j :: 0 <= i < j < |ids| ==> ids[i] != ids[j]
    ensures Told(l, Notify(l, m(ids), ids), name, m)
  {
    if ids != [] {
      HeardOne(l, m(ids));
      HeardMore(l, Send(l, m(ids)), [m(ids)], NoChange);
      assert [m(ids)] + [NoChange] == [m(ids), NoChange];
    }
    assert Heard(l, Notify(l, m(ids), ids), if ids == [] then [] else [m(ids), NoChange]);
  }

  /** A listener with room for two messages of each of `n` broadcasts is still open behind them. */
  predicate HasRoom(l: Listener, l': Listener, n: nat) {
    !l.closed && |l.outbox| + 2 * n <= 64 ==> !l'.closed && |l'.outbox| <= |l.outbox| + 2 * n
  }

  lemma ToldHasRoom(l: Listener, l1: Listener, l2: Listener, name: string, m: seq<TargetId> -> Msg, n: nat)
    requires HasRoom(l, l1, n) && Told(l1, l2, name, m)
    ensures HasRoom(l, l2, n + 1)
  {
  }

  ghost predicate AllHaveRoom(a: seq<Listener>, b: seq<Listener>, n: nat) {
    |a| == |b| && forall k :: 0 <= k < |a| ==> HasRoom(a[k], b[k], n)
  }

  lemma ChangeLeavesRoom(a: seq<Listener>, b: seq<Listener>, c: seq<Listener>, d: Doc, n: nat)
    requires AllHaveRoom(a, b, n) && |c| == |b| && forall k :: 0 <= k < |b| ==> ToldChange(b[k], c[k], d)
    ensures AllHaveRoom(a, c, n + 1)
  {
    forall k | 0 <= k < |a| ensures HasRoom(a[k], c[k], n + 1) {
      ToldHasRoom(a[k], b[k], c[k], d.name, ids => Change(d, ids), n);
    }
  }

  lemma GoneLeavesRoom(a: seq<Listener>, b: seq<Listener>, c: seq<Listener>, name: string, n: nat)
    requires AllHaveRoom(a, b, n) && |c| == |b| && forall k :: 0 <= k < |b| ==> ToldGone(b[k], c[k], name)
    ensures AllHaveRoom(a, c, n + 1)
  {
    forall k | 0 <= k < |a| ensures HasRoom(a[k], c[k], n + 1) {
      ToldHasRoom(a[k], b[k], c[k], name, ids => Gone(name, ids), n);
    }
  }

  lemma RoomAdds(a: seq<Listener>, b: seq<Listener>, c: seq<Listener>, m: nat, n: nat, l: nat)
    requires AllHaveRoom(a, b, m) && AllHaveRoom(b, c, n) && m + n <= l
    ensures AllHaveRoom(a, c, l)
  {
    forall k | 0 <= k < |a| ensures HasRoom(a[k], c[k], l) {
      assert HasRoom(a[k], b[k], m) && HasRoom(b[k], c[k], n);
    }
  }

  /** One listener's share of broadcastChange or broadcastDelete. */
  function Notify(l: Listener, m: Msg, ids: seq<TargetId>): Listener {
    if ids == [] then l else Send(Send(l, m), NoChange)
  }

  lemma NotifyAppends(l: Listener, m: Msg, ids: seq<TargetId>, id: TargetId)
    requires ids != [] && !Notify(l, m, ids).closed
    ensures View(Sent(Notify(l, m, ids)), id) == Read(View(Sent(l), id), m, id)
  {
    SendAppends(l, m, id);
    SendAppends(Send(l, m), NoChange, id);
  }

  lemma ChangeKeepsSync(l: Listener, docs: Docs, d: Doc, ids: seq<TargetId>)
    requires InSync(l, docs) && Matched(l, d.name, ids)
    ensures InSync(Notify(l, Change(d, ids), ids), docs[d.name := d])
  {
    var l', docs' := Notify(l, Change(d, ids), ids), docs[d.name := d];
    if !l'.closed {
      forall id | id in l'.targets
        ensures View(Sent(l'), id) == Matching(docs', l'.targets[id])
      {
        if ids != [] {
          NotifyAppends(l, Change(d, ids), ids, id);
        }
        if id in ids {
          assert Matching(docs', l.targets[id]) == Matching(docs, l.targets[id])[d.name := d];
        } else {
          assert Matching(docs', l.targets[id]) == Matching(docs, l.targets[id]);
        }
      }
    }
  }

  lemma DeleteKeepsSync(l: Listener, docs: Docs, name: string, ids: seq<TargetId>)
    requires InSync(l, docs) && Matched(l, name, ids)
    ensures InSync(Notify(l, Gone(name, ids), ids), docs - {name})
  {
    var l', docs' := Notify(l, Gone(name, ids), ids), docs - {name};
    if !l'.closed {
      forall id | id in l'.targets
        ensures View(Sent(l'), id) == Matching(docs', l'.targets[id])
      {
        if ids != [] {
          NotifyAppends(l, Gone(name, ids), ids, id);
        }
        if id in ids {
          assert Matching(docs', l.targets[id]) == Matching(docs, l.targets[id]) - {name};
        } else {
          assert Matching(docs', l.targets[id]) == Matching(docs, l.targets[id]);
        }
      }
    }
  }

  // ---- After a Commit ---------------------------------------------------------------------

  /** The target matches a document the batch resurrects. */
  ghost predicate Exposed(t: Target, docs: Docs, ws: seq<Write>, now: int)
    requires AllEncode(ws)
  {
    exists n :: Matches(t, n) && Resurrects(docs, ws, now, n)
  }

  /** The listener was abandoned, or none of its targets is exposed to the batch. */
  ghost predicate Spared(l: Listener, docs: Docs, ws: seq<Write>, now: int)
    requires AllEncode(ws)
  {
    l.closed || forall id :: id in l.targets ==> !Exposed(l.targets[id], docs, ws, now)
  }

  lemma MatchingIsToldIff(t: Target, docs: Docs, ws: seq<Write>, now: int)
    requires Keyed(docs) && AllEncode(ws)
    ensures Matching(Believed(docs, ws, now), t) == Matching(ApplyAll(docs, ws, now), t) <==> !Exposed(t, docs, ws, now)
  {
    var told, stored := Matching(Believed(docs, ws, now), t), Matching(ApplyAll(docs, ws, now), t);
    forall n | Matches(t, n)
      ensures if Resurrects(docs, ws, now, n) then n in stored && n !in told
              else (n in told <==> n in stored) && (n in told ==> told[n] == stored[n])
    {
      ToldOf(docs, ws, now, n);
    }
    if Exposed(t, docs, ws, now) {
      var n :| Matches(t, n) && Resurrects(docs, ws, now, n);
      assert n in stored && n !in told;
    } else {
      assert told.Keys == stored.Keys;
    }
  }

  /** A reader in sync with what was broadcast is in sync with the store exactly if no target of its
      listener matches a resurrected document. */
  lemma InSyncIffSpared(l: Listener, docs: Docs, ws: seq<Write>, now: int)
    requires Keyed(docs) && AllEncode(ws) && InSync(l, Believed(docs, ws, now))
    ensures InSync(l, ApplyAll(docs, ws, now)) <==> Spared(l, docs, ws, now)
  {
    forall id | id in l.targets
      ensures Matching(Believed(docs, ws, now), l.targets[id]) == Matching(ApplyAll(docs, ws, now), l.targets[id]) <==>
              !Exposed(l.targets[id], docs, ws, now)
    {
      MatchingIsToldIff(l.targets[id], docs, ws, now);
    }
  }

  /** The listener was abandoned, or each of its targets matches the same documents before and after. */
  ghost predicate Undisturbed(l: Listener, before: Docs, after: Docs) {
    l.closed || forall id :: id in l.targets ==> Matching(before, l.targets[id]) == Matching(after, l.targets[id])
  }

  /** A listener that is told nothing stays in step exactly if what it watches did not change. */
  lemma InSyncIffUndisturbed(l: Listener, before: Docs, after: Docs)
    requires InSync(l, before)
    ensures InSync(l, after) <==> Undisturbed(l, before, after)
  {
  }

  // ---- What a reader sees ---------------------------------------------------------------------

  /** The view of a target: the stored documents it names, and those that lie in its collection. */
  ghost predicate Shows(view: Docs, docs: Docs, t: Target) {
    forall n ::
      && (n in view <==> n in docs && (n in t.docNames || (t.parentColl != "" && LiesIn(t.parentColl, n))))
      && (n in view ==> view[n] == docs[n])
  }

  lemma InSyncShows(l: Listener, docs: Docs, id: TargetId)
    requires InSync(l, docs) && !l.closed && id in l.targets
    ensures Shows(View(Sent(l), id), docs, l.targets[id])
  {
    forall n
      ensures Matches(l.targets[id], n) <==>
              n in l.targets[id].docNames || (l.targets[id].parentColl != "" && LiesIn(l.targets[id].parentColl, n))
    {
      MatchesIff(l.targets[id], n);
    }
  }

  // ---- Opening a target -------------------------------------------------------------------

  /** The targets other than `id` are in sync, and the reader of `id` holds `view`. */
  ghost predicate Opening(l: Listener, docs: Docs, id: TargetId, view: Docs) {
    id in l.targets &&
    (!l.closed ==>
       View(Sent(l), id) == view &&
       forall i :: i in l.targets && i != id ==> View(Sent(l), i) == Matching(docs, l.targets[i]))
  }

  lemma AddStarts(l: Listener, docs: Docs, id: TargetId, t: Target)
    requires InSync(l, docs)
    ensures Opening(Send(l.(targets := l.targets[id := t]), Added(id)), docs, id, map[])
  {
    var l0 := l.(targets := l.targets[id := t]);
    var l1 := Send(l0, Added(id));
    if !l1.closed {
      forall i | i in l1.targets
        ensures View(Sent(l1), i) == Read(View(Sent(l0), i), Added(id), i)
      {
        SendAppends(l0, Added(id), i);
      }
      assert Sent(l0) == Sent(l);
    }
  }

  lemma SnapshotMore(l: Listener, docs: Docs, id: TargetId, view: Docs, m: Msg)
    requires Opening(l, docs, id, view)
    requires m.Change? || m.Gone? ==> m.ids == [id]
    requires m.Added? ==> false
    ensures Opening(Send(l, m), docs, id, Read(view, m, id))
  {
    var l' := Send(l, m);
    if !l'.closed {
      forall i | i in l'.targets
        ensures View(Sent(l'), i) == Read(View(Sent(l), i), m, i)
      {
        SendAppends(l, m, i);
      }
    }
  }

  /** A snapshot tells each document of the target once: stored ones as they are, missing ones as gone. */
  ghost predicate IsSnapshot(snap: seq<Msg>, docs: Docs, t: Target, id: TargetId) {
    && (forall i, j :: 0 <= i < j < |snap| ==> snap[i] != snap[j])
    && (forall m :: m in snap <==>
          || (m.Change? && m.ids == [id] && m.doc.name in docs && Matches(t, m.doc.name) && m.doc == docs[m.doc.name])
          || (m.Gone? && m.ids == [id] && m.name in t.docNames && m.name !in docs))
  }

  /** The same, of the names done so far. */
  ghost predicate IsPartly(snap: seq<Msg>, docs: Docs, names: set<string>, id: TargetId) {
    && (forall i, j :: 0 <= i < j < |snap| ==> snap[i] != snap[j])
    && (forall m :: m in snap <==>
          || (m.Change? && m.ids == [id] && m.doc.name in docs && m.doc.name in names && m.doc == docs[m.doc.name])
          || (m.Gone? && m.ids == [id] && m.name in names && m.name !in docs))
  }

  lemma PartlyMore(snap: seq<Msg>, docs: Docs, names: set<string>, id: TargetId, n: string)
    requires Keyed(docs) && IsPartly(snap, docs, names, id) && n !in names
    ensures IsPartly(snap + [if n in docs then Change(docs[n], [id]) else Gone(n, [id])], docs, names + {n}, id)
  {
    var m := if n in docs then Change(docs[n], [id]) else Gone(n, [id]);
    assert m !in snap;
    forall x
      ensures x in snap + [m] <==> x in snap || x == m
    {
    }
  }

  /** What closes a snapshot: CURRENT, then NO_CHANGE. */
  lemma ClosingHeard(l: Listener, docs: Docs, id: TargetId, t: Target)
    requires Opening(l, docs, id, Matching(docs, t))
    ensures var l' := Send(Send(l, Current(id)), NoChange);
            Heard(l, l', [Current(id), NoChange]) && Opening(l', docs, id, Matching(docs, t))
  {
    SnapshotMore(l, docs, id, Matching(docs, t), Current(id));
    SnapshotMore(Send(l, Current(id)), docs, id, Matching(docs, t), NoChange);
    HeardOne(l, Current(id));
    HeardMore(l, Send(l, Current(id)), [Current(id)], NoChange);
    assert [Current(id)] + [NoChange] == [Current(id), NoChange];
  }
}
