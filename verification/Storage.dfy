/** The Cloud Storage service object: its fields, and the handlers that update them. */
module Storage {
  import opened Text
  import opened ContentRange
  import opened Uploads

  class Service {
    var store: Store
    var sessions: map<string, Session>
    var generation: nat
    var resumableSeq: nat

    /** The requests served so far. */
    ghost var history: Trace

    function Snapshot(): State
      reads this
    {
      State(store, sessions, generation, resumableSeq)
    }

    /** The state is the end of a run, so the theorems about runs apply to it. */
    ghost predicate Valid()
      reads this
    {
      Snapshot() == Run(history)
    }

    constructor ()
      ensures Valid() && history == Start
    {
      store, sessions, generation, resumableSeq, history := map[], map[], 0, 0, Start;
    }

    method CreateBucket(bucket: string) returns (reply: Reply)
      requires Valid()
      modifies this`store, this`history
      ensures Valid() && history == Then(old(history), Op.CreateBucket(bucket))
      ensures reply == Step(Run(old(history)), Op.CreateBucket(bucket)).reply
    {
      history := Then(history, Op.CreateBucket(bucket));
      if bucket == "" {
        return BadRequest;
      }
      if bucket in Namespace(store, BUCKETS) {
        return Conflict;
      }
      store := Put(store, BUCKETS, bucket, BucketRecord);
      return Done;
    }

    /** The loop of deleteBucketAndObjects: the object keys are listed once, then deleted one by one
        from both namespaces. */
    method DeleteObjects(objNs: string, dataNs: string)
      requires objNs != dataNs
      modifies this`store
      ensures var keys := Namespace(old(store), objNs).Keys;
              store == Delete(Delete(old(store), objNs, keys), dataNs, keys)
    {
      var all := Namespace(store, objNs).Keys;
      var left := all;
      ghost var gone: set<string> := {};
      DeleteNothing(store, objNs, dataNs);
      while left != {}
        invariant left + gone == all
        invariant store == Delete(Delete(old(store), objNs, gone), dataNs, gone)
        decreases left
      {
        var k :| k in left;
        DeleteMore(old(store), objNs, dataNs, gone, k);
        store := Delete(store, objNs, {k});
        store := Delete(store, dataNs, {k});
        left, gone := left - {k}, gone + {k};
      }
      assert gone == all;
    }

    method DeleteBucketAndObjects(bucket: string) returns (reply: Reply)
      requires Valid()
      modifies this`store, this`history
      ensures Valid() && history == Then(old(history), DeleteBucket(bucket))
      ensures reply == Step(Run(old(history)), DeleteBucket(bucket)).reply
    {
      history := Then(history, DeleteBucket(bucket));
      if bucket !in Namespace(store, BUCKETS) {
        return NotFound;
      }
      var objNs, dataNs := ObjectNamespace(bucket), DataNamespace(bucket);
      assert objNs[8] == 'o' && dataNs[8] == 'd';
      DeleteObjects(objNs, dataNs);
      store := Delete(store, BUCKETS, {bucket});
      return Done;
    }

    method UploadResumableStart(bucket: string, name: string, contentType: string) returns (reply: Reply)
      requires Valid()
      modifies this`sessions, this`resumableSeq, this`history
      ensures Valid() && history == Then(old(history), StartUpload(bucket, name, contentType))
      ensures reply == Step(Run(old(history)), StartUpload(bucket, name, contentType)).reply
    {
      history := Then(history, StartUpload(bucket, name, contentType));
      if bucket !in Namespace(store, BUCKETS) {
        return NotFound;
      }
      if name == "" {
        return BadRequest;
      }
      resumableSeq := resumableSeq + 1;
      var id := SessionName(resumableSeq);
      sessions := sessions[id := Session(bucket, name, contentType, "", -1)];
      return Started(id);
    }

    /** storeObject: the generation counter moves, then metadata and bytes are written. */
    method StoreObject(bucket: string, name: string, contentType: string, body: string) returns (meta: Meta)
      modifies this`store, this`generation
      ensures Outcome(Snapshot(), Stored(meta)) == Uploads.StoreObject(old(Snapshot()), bucket, name, contentType, body)
    {
      generation := generation + 1;
      meta := Meta(bucket, name, generation, contentType, |body|);
      store := Put(store, ObjectNamespace(bucket), name, ObjectRecord(meta));
      store := Put(store, DataNamespace(bucket), name, Blob(body));
    }

    /** finaliseResumableLocked. */
    method FinaliseResumable(id: string, sess: Session) returns (meta: Meta)
      modifies this`store, this`generation, this`sessions
      ensures Outcome(Snapshot(), Stored(meta)) == Finalise(old(Snapshot()), id, sess)
    {
      var ct := sess.contentType;
      if ct == "" {
        ct := "application/octet-stream";
      }
      meta := StoreObject(sess.bucket, sess.name, ct, sess.buffer);
      sessions := sessions - {id};
    }

    /** uploadResumableData after the session has been found. */
    method ReceiveData(id: string, header: string, body: string) returns (reply: Reply)
      requires id in sessions
      modifies this`store, this`generation, this`sessions
      ensures Outcome(Snapshot(), reply) == UploadData(old(Snapshot()), id, header, body)
    {
      var sess := sessions[id];
      if header == "" {
        var meta := FinaliseResumable(id, sess.(buffer := sess.buffer + body));
        return Stored(meta);
      }
      var parsed := Parse(header);
      if parsed.None? {
        return BadRequest;
      }
      var r := parsed.value;
      if r.isStatus {
        if r.total >= 0 {
          sess := sess.(totalSize := r.total);
        }
        sessions := sessions[id := sess];
        return Resume(PrintHeld(|sess.buffer|));
      }
      reply := ReceiveChunk(id, r, body);
    }

    /** A chunk: its length is checked, and it counts only where the buffer ends. */
    method ReceiveChunk(id: string, r: Range, body: string) returns (reply: Reply)
      requires id in sessions && !r.isStatus
      modifies this`store, this`generation, this`sessions
      ensures Outcome(Snapshot(), reply) == Judged(old(Snapshot()), id, JudgeRange(|old(sessions)[id].buffer|, r, body), body)
    {
      var sess := sessions[id];
      var end, final := r.end, r.final;
      if end < 0 {
        end, final := r.start + |body| - 1, true;
      }
      if |body| != end - r.start + 1 {
        return BadRequest;
      }
      if r.start != |sess.buffer| {
        assert sessions[id := sess] == sessions;
        return Resume(PrintHeld(|sess.buffer|));
      }
      sess := sess.(buffer := sess.buffer + body);
      if r.total >= 0 {
        sess := sess.(totalSize := r.total);
      }
      if final {
        var meta := FinaliseResumable(id, sess);
        return Stored(meta);
      }
      sessions := sessions[id := sess];
      return Resume(PrintHeld(|sess.buffer|));
    }

    method UploadResumableData(bucket: string, id: string, header: string, body: string) returns (reply: Reply)
      requires Valid()
      modifies this`store, this`generation, this`sessions, this`history
      ensures Valid() && history == Then(old(history), PutData(bucket, id, header, body))
      ensures reply == Step(Run(old(history)), PutData(bucket, id, header, body)).reply
    {
      history := Then(history, PutData(bucket, id, header, body));
      if bucket !in Namespace(store, BUCKETS) || id !in sessions || sessions[id].bucket != bucket {
        return NotFound;
      }
      reply := ReceiveData(id, header, body);
    }

    method UploadMedia(bucket: string, name: string, contentType: string, body: string) returns (reply: Reply)
      requires Valid()
      modifies this`store, this`generation, this`history
      ensures Valid() && history == Then(old(history), Op.UploadMedia(bucket, name, contentType, body))
      ensures reply == Step(Run(old(history)), Op.UploadMedia(bucket, name, contentType, body)).reply
    {
      history := Then(history, Op.UploadMedia(bucket, name, contentType, body));
      if bucket !in Namespace(store, BUCKETS) {
        return NotFound;
      }
      if name == "" {
        return BadRequest;
      }
      var meta := StoreObject(bucket, name, contentType, body);
      return Stored(meta);
    }

    method DeleteObject(bucket: string, name: string) returns (reply: Reply)
      requires Valid()
      modifies this`store, this`history
      ensures Valid() && history == Then(old(history), Op.DeleteObject(bucket, name))
      ensures reply == Step(Run(old(history)), Op.DeleteObject(bucket, name)).reply
    {
      history := Then(history, Op.DeleteObject(bucket, name));
      if bucket !in Namespace(store, BUCKETS) || name !in Namespace(store, ObjectNamespace(bucket)) {
        return NotFound;
      }
      store := Delete(store, ObjectNamespace(bucket), {name});
      store := Delete(store, DataNamespace(bucket), {name});
      return Done;
    }
  }

  lemma DeleteNothing(store: Store, a: string, b: string)
    requires a != b
    ensures Delete(Delete(store, a, {}), b, {}) == store
  {
    assert forall ns :: ns in store ==> store[ns] - {} == store[ns];
  }

  /** Deleting one more key from two namespaces, after a set of keys. */
  lemma DeleteMore(store: Store, a: string, b: string, keys: set<string>, k: string)
    requires a != b
    ensures Delete(Delete(Delete(Delete(store, a, keys), b, keys), a, {k}), b, {k}) ==
            Delete(Delete(store, a, keys + {k}), b, keys + {k})
  {
    forall ns | ns in store
      ensures store[ns] - keys - {k} == store[ns] - (keys + {k})
    {
    }
  }
}
