/** The Firestore service: documents, the open Listen streams, and the calls that change both. */
module Firestore {
  import opened Text
  import opened Documents
  import opened Listeners

  datatype Status = Ok | NotFound | AlreadyExists | Internal | InvalidArgument

  datatype TargetRequest = DocumentsTarget(names: seq<string>) | QueryTarget(parent: string, from: seq<string>) | Unsupported

  /** The in-place field merge of a masked Commit write. */
  method MergeMasked(was: map<string, string>, fields: map<string, string>, mask: seq<string>)
    returns (merged: map<string, string>)
    ensures merged == Masked(was, fields, mask)
  {
    merged := was;
    var i := 0;
    while i < |mask|
      invariant 0 <= i <= |mask|
      invariant merged == Masked(was, fields, mask[..i])
    {
      assert mask[..i + 1] == mask[..i] + [mask[i]];
      MaskMore(was, fields, mask[..i], mask[i]);
      if mask[i] in fields {
        merged := merged[mask[i] := fields[mask[i]]];
      } else {
        merged := merged - {mask[i]};
      }
      i := i + 1;
    }
    assert mask[..i] == mask;
  }

  lemma MaskMore(was: map<string, string>, fields: map<string, string>, mask: seq<string>, p: string)
    ensures Masked(was, fields, mask + [p]) ==
            if p in fields then Masked(was, fields, mask)[p := fields[p]] else Masked(was, fields, mask) - {p}
  {
    assert forall k :: k in mask + [p] <==> k in mask || k == p;
  }

  /** The targets of one listener that match a document name, in map order. */
  method MatchedIds(l: Listener, name: string) returns (ids: seq<TargetId>)
    ensures Matched(l, name, ids) && forall i, j :: 0 <= i < j < |ids| ==> ids[i] != ids[j]
  {
    ids := [];
    var left := l.targets.Keys;
    while left != {}
      invariant left <= l.targets.Keys
      invariant forall i, j :: 0 <= i < j < |ids| ==> ids[i] != ids[j]
      invariant forall id :: id in ids <==> id in l.targets.Keys - left && Matches(l.targets[id], name)
      decreases left
    {
      var id :| id in left;
      left := left - {id};
      if Matches(l.targets[id], name) {
        ids := ids + [id];
      }
    }
  }

  /** What one more write of a batch does, stores and tells. */
  lemma WritesMore(docs: Docs, ws: seq<Write>, k: nat, now: int)
    requires k < |ws| && AllEncode(ws[..k]) && Encodes(ws[k])
    ensures AllEncode(ws[..k + 1])
    ensures var was, w := ApplyAll(docs, ws[..k], now), ws[k];
            && ApplyAll(docs, ws[..k + 1], now) == Apply(was, w, now)
            && Changes(docs, ws[..k + 1], now) == Changes(docs, ws[..k], now) + (if w.Update? then [Updated(was, w.name, w.fields.value, w.mask, now)] else [])
            && Deletes(docs, ws[..k + 1], now) == Deletes(docs, ws[..k], now) + (if w.Delete? && w.name in was then [w.name] else [])
  {
    assert ws[..k + 1][..k] == ws[..k];
  }

  class Service {
    var docs: Docs
    var listeners: seq<Listener>

    /** Every reader believes `believed`, as far as its targets match. */
    ghost predicate AllBelieve(believed: Docs)
      reads this`listeners
    {
      forall i :: 0 <= i < |listeners| ==> InSync(listeners[i], believed)
    }

    /** The views of all targets of all open streams, told by names. */
    lemma ViewsAreShown()
      requires Valid()
      ensures forall i, id :: 0 <= i < |listeners| && !listeners[i].closed && id in listeners[i].targets ==>
                Shows(View(Sent(listeners[i]), id), docs, listeners[i].targets[id])
    {
      forall i, id | 0 <= i < |listeners| && !listeners[i].closed && id in listeners[i].targets
        ensures Shows(View(Sent(listeners[i]), id), docs, listeners[i].targets[id])
      {
        InSyncShows(listeners[i], docs, id);
      }
    }

    /** Every reader of an open stream holds exactly the stored documents its target matches. */
    ghost predicate Valid()
      reads this
    {
      Keyed(docs) && AllBelieve(docs)
    }

    constructor ()
      ensures Valid() && docs == map[] && listeners == []
    {
      docs, listeners := map[], [];
    }

    // ---- Broadcasts ----

    method BroadcastChange(d: Doc, ghost believed: Docs)
      requires AllBelieve(believed)
      modifies this`listeners
      ensures |listeners| == |old(listeners)| && AllBelieve(believed[d.name := d])
      ensures forall i :: 0 <= i < |listeners| ==> ToldChange(old(listeners)[i], listeners[i], d)
    {
      var i := 0;
      while i < |listeners|
        invariant 0 <= i <= |listeners| == |old(listeners)|
        invariant forall k :: 0 <= k < i ==> InSync(listeners[k], believed[d.name := d])
        invariant forall k :: 0 <= k < i ==> ToldChange(old(listeners)[k], listeners[k], d)
        invariant forall k :: i <= k < |listeners| ==> listeners[k] == old(listeners)[k]
      {
        var ids := MatchedIds(listeners[i], d.name);
        ChangeKeepsSync(listeners[i], believed, d, ids);
        NotifyTells(listeners[i], d.name, ids, ids => Change(d, ids));
        if ids != [] {
          listeners := listeners[i := Send(Send(listeners[i], Change(d, ids)), NoChange)];
        }
        i := i + 1;
      }
    }

    method BroadcastDelete(name: string, ghost believed: Docs)
      requires AllBelieve(believed)
      modifies this`listeners
      ensures |listeners| == |old(listeners)| && AllBelieve(believed - {name})
      ensures forall i :: 0 <= i < |listeners| ==> ToldGone(old(listeners)[i], listeners[i], name)
    {
      var i := 0;
      while i < |listeners|
        invariant 0 <= i <= |listeners| == |old(listeners)|
        invariant forall k :: 0 <= k < i ==> InSync(listeners[k], believed - {name})
        invariant forall k :: 0 <= k < i ==> ToldGone(old(listeners)[k], listeners[k], name)
        invariant forall k :: i <= k < |listeners| ==> listeners[k] == old(listeners)[k]
      {
        var ids := MatchedIds(listeners[i], name);
        DeleteKeepsSync(listeners[i], believed, name, ids);
        NotifyTells(listeners[i], name, ids, ids => Gone(name, ids));
        if ids != [] {
          listeners := listeners[i := Send(Send(listeners[i], Gone(name, ids)), NoChange)];
        }
        i := i + 1;
      }
    }

    // ---- Document calls ----

    method CreateDocument(name: string, fields: Option<map<string, string>>, now: int) returns (r: Status)
      requires Valid()
      modifies this
      ensures Valid()
      ensures r == if name in old(docs) then AlreadyExists else if fields.None? then Internal else Ok
      ensures docs == if r == Ok then old(docs)[name := Doc(name, fields.value, now, now)] else old(docs)
      ensures r != Ok ==> listeners == old(listeners)
      ensures |listeners| == |old(listeners)|
      ensures r == Ok ==> forall i :: 0 <= i < |listeners| ==> ToldChange(old(listeners)[i], listeners[i], docs[name])
    {
      if name in docs {
        return AlreadyExists;
      }
      if fields.None? {
        return Internal;
      }
      var d := Doc(name, fields.value, now, now);
      BroadcastChange(d, docs);
      docs := docs[name := d];
      return Ok;
    }

    /** UpdateDocument merges every field it is given when a mask is present, whatever it names. */
    method UpdateDocument(name: string, fields: Option<map<string, string>>, mask: seq<string>, now: int)
      returns (r: Status)
      requires Valid()
      modifies this
      ensures Valid()
      ensures r == if fields.None? then Internal else Ok
      ensures r != Ok ==> docs == old(docs)
      ensures r == Ok ==>
                docs == old(docs)[name :=
                  if name !in old(docs) then Doc(name, fields.value, now, now)
                  else old(docs)[name].(
                    fields := if mask != [] then old(docs)[name].fields + fields.value else fields.value,
                    updateTime := now)]
      ensures r != Ok ==> listeners == old(listeners)
      ensures |listeners| == |old(listeners)|
      ensures r == Ok ==> forall i :: 0 <= i < |listeners| ==> ToldChange(old(listeners)[i], listeners[i], docs[name])
    {
      if fields.None? {
        return Internal;
      }
      var d: Doc;
      if name in docs {
        d := docs[name];
        if mask != [] {
          d := d.(fields := d.fields + fields.value);
        } else {
          d := d.(fields := fields.value);
        }
        d := d.(updateTime := now);
      } else {
        d := Doc(name, fields.value, now, now);
      }
      BroadcastChange(d, docs);
      docs := docs[name := d];
      return Ok;
    }

    method DeleteDocument(name: string) returns (r: Status)
      requires Valid()
      modifies this
      ensures Valid()
      ensures r == if name in old(docs) then Ok else NotFound
      ensures docs == old(docs) - {name}
      ensures r != Ok ==> listeners == old(listeners)
      ensures |listeners| == |old(listeners)|
      ensures r == Ok ==> forall i :: 0 <= i < |listeners| ==> ToldGone(old(listeners)[i], listeners[i], name)
    {
      if name !in docs {
        return NotFound;
      }
      BroadcastDelete(name, docs);
      docs := docs - {name};
      return Ok;
    }

    // ---- Commit ----

    /** The write loop of Commit: stops at the first write whose fields cannot be encoded. */
    method ApplyWrites(ws: seq<Write>, now: int)
      returns (done: nat, changes: seq<Doc>, deletes: seq<string>)
      modifies this`docs
      ensures done <= |ws| && AllEncode(ws[..done]) && (done < |ws| ==> !Encodes(ws[done]))
      ensures docs == ApplyAll(old(docs), ws[..done], now)
      ensures changes == Changes(old(docs), ws[..done], now)
      ensures deletes == Deletes(old(docs), ws[..done], now)
    {
      done, changes, deletes := 0, [], [];
      while done < |ws|
        invariant done <= |ws| && AllEncode(ws[..done])
        invariant docs == ApplyAll(old(docs), ws[..done], now)
        invariant changes == Changes(old(docs), ws[..done], now)
        invariant deletes == Deletes(old(docs), ws[..done], now)
      {
        if ws[done].Update? && ws[done].fields.None? {
          return;
        }
        WritesMore(old(docs), ws, done, now);
        match ws[done] {
          case Update(name, fields, mask) =>
            var d := Doc(name, fields.value, now, now);
            if name in docs {
              var merged := fields.value;
              if mask != [] {
                merged := MergeMasked(docs[name].fields, fields.value, mask);
              }
              d := docs[name].(fields := merged, updateTime := now);
            }
            docs := docs[name := d];
            changes := changes + [d];
          case Delete(name) =>
            if name in docs {
              deletes := deletes + [name];
            }
            docs := docs - {name};
          case Other =>
        }
        done := done + 1;
      }
    }

    method BroadcastChanges(changes: seq<Doc>, ghost believed: Docs)
      requires AllBelieve(believed)
      modifies this`listeners
      ensures |listeners| == |old(listeners)| && AllBelieve(AfterChanges(believed, changes))
      ensures AllHaveRoom(old(listeners), listeners, |changes|)
    {
      var i := 0;
      while i < |changes|
        invariant 0 <= i <= |changes| && |listeners| == |old(listeners)|
        invariant AllBelieve(AfterChanges(believed, changes[..i]))
        invariant AllHaveRoom(old(listeners), listeners, i)
      {
        assert changes[..i + 1][..i] == changes[..i];
        ghost var was := listeners;
        BroadcastChange(changes[i], AfterChanges(believed, changes[..i]));
        ChangeLeavesRoom(old(listeners), was, listeners, changes[i], i);
        i := i + 1;
      }
      assert changes[..i] == changes;
    }

    method BroadcastDeletes(names: seq<string>, ghost believed: Docs)
      requires AllBelieve(believed)
      modifies this`listeners
      ensures |listeners| == |old(listeners)| && AllBelieve(believed - (set n | n in names))
      ensures AllHaveRoom(old(listeners), listeners, |names|)
    {
      var i := 0;
      ghost var gone: set<string> := {};
      assert believed - {} == believed;
      while i < |names|
        invariant 0 <= i <= |names| && |listeners| == |old(listeners)|
        invariant gone == (set n | n in names[..i]) && AllBelieve(believed - gone)
        invariant AllHaveRoom(old(listeners), listeners, i)
      {
        assert names[..i + 1] == names[..i] + [names[i]];
        ghost var was := listeners;
        BroadcastDelete(names[i], believed - gone);
        GoneLeavesRoom(old(listeners), was, listeners, names[i], i);
        assert believed - gone - {names[i]} == believed - (gone + {names[i]});
        gone := gone + {names[i]};
        i := i + 1;
      }
      assert names[..i] == names;
    }

    /** A failed Commit keeps the writes before the failing one and tells no listener; a successful
        one leaves every reader in sync exactly if no target matches a document it resurrects. */
    method Commit(ws: seq<Write>, now: int) returns (r: Status, ghost done: nat)
      requires Valid()
      modifies this
      ensures done <= |ws| && AllEncode(ws[..done]) && (r == Ok <==> done == |ws|)
      ensures r == Ok || (r == Internal && !Encodes(ws[done]) && listeners == old(listeners))
      ensures Keyed(docs) && docs == ApplyAll(old(docs), ws[..done], now)
      ensures r == Ok ==> ws[..done] == ws && AllBelieve(Believed(old(docs), ws, now))
      ensures r == Ok ==> (Valid() <==> forall i :: 0 <= i < |listeners| ==> Spared(listeners[i], old(docs), ws, now))
      ensures r == Ok && !Misleads(old(docs), ws, now) ==> Valid()
      ensures AllHaveRoom(old(listeners), listeners, |ws|)
      ensures r != Ok ==> (Valid() <==> forall i :: 0 <= i < |listeners| ==> Undisturbed(listeners[i], old(docs), docs))
    {
      var n, changes, deletes := ApplyWrites(ws, now);
      done := n;
      ApplyAllKeyed(old(docs), ws[..n], now);
      if n < |ws| {
        forall i | 0 <= i < |listeners|
          ensures InSync(listeners[i], docs) <==> Undisturbed(listeners[i], old(docs), docs)
        {
          InSyncIffUndisturbed(listeners[i], old(docs), docs);
        }
        return Internal, n;
      }
      assert ws[..n] == ws;
      BroadcastChanges(changes, old(docs));
      ghost var told := listeners;
      BroadcastDeletes(deletes, AfterChanges(old(docs), changes));
      MessagesAreFew(old(docs), ws, now);
      RoomAdds(old(listeners), told, listeners, |changes|, |deletes|, |ws|);
      BelievedIsStoredIff(old(docs), ws, now);
      forall i | 0 <= i < |listeners|
        ensures InSync(listeners[i], docs) <==> Spared(listeners[i], old(docs), ws, now)
      {
        InSyncIffSpared(listeners[i], old(docs), ws, now);
      }
      r := Ok;
    }

    // ---- Listen ----

    method AddListener()
      requires Valid()
      modifies this`listeners
      ensures Valid() && listeners == old(listeners) + [Listener(map[], [], [], false)]
    {
      listeners := listeners + [Listener(map[], [], [], false)];
    }

    /** The sender goroutine writes the first `n` waiting messages to the stream. */
    method Drain(i: nat, n: nat)
      requires Valid() && i < |listeners| && n <= |listeners[i].outbox|
      modifies this`listeners
      ensures Valid() && |listeners| == |old(listeners)|
      ensures Sent(listeners[i]) == Sent(old(listeners)[i]) && |listeners[i].outbox| == |old(listeners)[i].outbox| - n
      ensures listeners[i].targets == old(listeners)[i].targets && listeners[i].closed == old(listeners)[i].closed
      ensures forall k :: 0 <= k < |listeners| && k != i ==> listeners[k] == old(listeners)[k]
    {
      var l := listeners[i];
      var l' := l.(delivered := l.delivered + l.outbox[..n], outbox := l.outbox[n..]);
      assert Sent(l') == Sent(l);
      listeners := listeners[i := l'];
    }

    method RemoveTarget(i: nat, id: TargetId)
      requires Valid() && i < |listeners|
      modifies this`listeners
      ensures Valid() && |listeners| == |old(listeners)|
      ensures Heard(old(listeners)[i].(targets := old(listeners)[i].targets - {id}), listeners[i], [Removed(id)])
      ensures forall k :: 0 <= k < |listeners| && k != i ==> listeners[k] == old(listeners)[k]
    {
      var l := listeners[i].(targets := listeners[i].targets - {id});
      forall k | k in l.targets && !Send(l, Removed(id)).closed
        ensures View(Sent(Send(l, Removed(id))), k) == View(Sent(l), k)
      {
        SendAppends(l, Removed(id), k);
      }
      HeardOne(l, Removed(id));
      listeners := listeners[i := Send(l, Removed(id))];
    }

    /** The initial snapshot of a query target: one change per direct child of the collection. */
    method SnapshotQuery(l: Listener, id: TargetId, coll: string) returns (l': Listener, ghost snap: seq<Msg>)
      requires Keyed(docs) && coll != "" && Opening(l, docs, id, map[])
      ensures l'.targets == l.targets && Opening(l', docs, id, Matching(docs, Target({}, coll)))
      ensures Heard(l, l', snap) && IsSnapshot(snap, docs, Target({}, coll), id)
    {
      l', snap := l, [];
      var left := docs.Keys;
      ghost var t := Target({}, coll);
      ghost var seen: Docs := map[];
      ghost var names: set<string> := {};
      while left != {}
        invariant left <= docs.Keys && names == (set n | n in docs && n !in left && Matches(t, n))
        invariant seen == map n | n in names :: docs[n]
        invariant Opening(l', docs, id, seen)
        invariant Heard(l, l', snap) && IsPartly(snap, docs, names, id)
        decreases left
      {
        var n :| n in left;
        left := left - {n};
        if IsChild(coll, n) {
          SnapshotMore(l', docs, id, seen, Change(docs[n], [id]));
          HeardMore(l, l', snap, Change(docs[n], [id]));
          PartlyMore(snap, docs, names, id, n);
          l', snap := Send(l', Change(docs[n], [id])), snap + [Change(docs[n], [id])];
          seen, names := seen[n := docs[n]], names + {n};
        }
      }
      assert seen == Matching(docs, t);
    }

    /** The initial snapshot of a document target: a change or a delete per listed name. */
    method SnapshotDocuments(l: Listener, id: TargetId, names: set<string>) returns (l': Listener, ghost snap: seq<Msg>)
      requires Keyed(docs) && Opening(l, docs, id, map[])
      ensures l'.targets == l.targets && Opening(l', docs, id, Matching(docs, Target(names, "")))
      ensures Heard(l, l', snap) && IsSnapshot(snap, docs, Target(names, ""), id)
    {
      l', snap := l, [];
      var left := names;
      ghost var seen: Docs := map[];
      while left != {}
        invariant left <= names
        invariant seen == map n | n in docs && n in names - left :: docs[n]
        invariant Opening(l', docs, id, seen)
        invariant Heard(l, l', snap) && IsPartly(snap, docs, names - left, id)
        decreases left
      {
        var n :| n in left;
        var m := if n in docs then Change(docs[n], [id]) else Gone(n, [id]);
        assert names - (left - {n}) == names - left + {n};
        SnapshotMore(l', docs, id, seen, m);
        HeardMore(l, l', snap, m);
        PartlyMore(snap, docs, names - left, id, n);
        l', snap := Send(l', m), snap + [m];
        left := left - {n};
        if n in docs {
          seen := seen[n := docs[n]];
        } else {
          assert seen - {n} == seen;
        }
      }
      assert seen == Matching(docs, Target(names, ""));
    }

    /** addListenTarget: record the target, then ADD, its snapshot, CURRENT and NO_CHANGE. */
    method AddListenTarget(i: nat, id: TargetId, req: TargetRequest) returns (r: Status, ghost snap: seq<Msg>)
      requires Valid() && i < |listeners|
      modifies this`listeners
      ensures Valid() && |listeners| == |old(listeners)|
      ensures r == if req.Unsupported? || (req.QueryTarget? && req.from == []) then InvalidArgument else Ok
      ensures r != Ok ==> listeners == old(listeners)
      ensures forall k :: 0 <= k < |listeners| && k != i ==> listeners[k] == old(listeners)[k]
      ensures r == Ok ==>
                var t := if req.QueryTarget? then Target({}, req.parent + "/" + req.from[0]) else Target(set n | n in req.names, "");
                var l := old(listeners)[i];
                && IsSnapshot(snap, docs, t, id)
                && Heard(l.(targets := l.targets[id := t]), listeners[i], [Added(id)] + snap + [Current(id), NoChange])
                && (!listeners[i].closed ==> Shows(View(Sent(listeners[i]), id), docs, t))
    {
      snap := [];
      if req.Unsupported? || (req.QueryTarget? && req.from == []) {
        return InvalidArgument, snap;
      }
      var t := if req.QueryTarget? then Target({}, req.parent + "/" + req.from[0])
               else Target(set n | n in req.names, "");
      ghost var base := listeners[i].(targets := listeners[i].targets[id := t]);
      AddStarts(listeners[i], docs, id, t);
      HeardOne(base, Added(id));
      var l := Send(listeners[i].(targets := listeners[i].targets[id := t]), Added(id));
      ghost var added := l;
      if req.QueryTarget? {
        l, snap := SnapshotQuery(l, id, t.parentColl);
      } else {
        l, snap := SnapshotDocuments(l, id, t.docNames);
      }
      HeardThen(base, added, l, [Added(id)], snap);
      ClosingHeard(l, docs, id, t);
      HeardThen(base, l, Send(Send(l, Current(id)), NoChange), [Added(id)] + snap, [Current(id), NoChange]);
      l := Send(l, Current(id));
      l := Send(l, NoChange);
      listeners := listeners[i := l];
      if !l.closed {
        InSyncShows(l, docs, id);
      }
      r := Ok;
    }
  }
}
