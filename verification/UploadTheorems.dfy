/** What every run of storage requests keeps, and what a resumable upload delivers. */
module UploadTheorems {
  import opened Text
  import opened ContentRange
  import opened Uploads

  // ---- Objects and their bytes stay together -----------------------------------------

  function Objects(s: State, bucket: string): map<string, Value> { Namespace(s.store, ObjectNamespace(bucket)) }

  function Blobs(s: State, bucket: string): map<string, Value> { Namespace(s.store, DataNamespace(bucket)) }

  ghost predicate SoundObject(o: Value, d: Value, bucket: string, name: string, generation: nat) {
    o.ObjectRecord? && d.Blob? &&
    o.meta.bucket == bucket && o.meta.name == name && o.meta.size == |d.bytes| &&
    o.meta.generation <= generation
  }

  ghost predicate SoundBucket(s: State, bucket: string) {
    && Objects(s, bucket).Keys == Blobs(s, bucket).Keys
    && (!HasBucket(s, bucket) ==> Objects(s, bucket) == map[])
    && forall name :: name in Objects(s, bucket) ==>
         SoundObject(Objects(s, bucket)[name], Blobs(s, bucket)[name], bucket, name, s.generation)
  }

  /** The three kinds of namespace never collide. */
  lemma NamespacesApart(a: string, b: string)
    ensures ObjectNamespace(a) != DataNamespace(b) && ObjectNamespace(a) != BUCKETS && DataNamespace(a) != BUCKETS
    ensures a != b ==> ObjectNamespace(a) != ObjectNamespace(b) && DataNamespace(a) != DataNamespace(b)
  {
    assert ObjectNamespace(a)[8] == 'o' && DataNamespace(b)[8] == 'd' && DataNamespace(a)[8] == 'd' && BUCKETS[8] == 'b';
    assert ObjectNamespace(a)[16..] == a && ObjectNamespace(b)[16..] == b;
    assert DataNamespace(a)[13..] == a && DataNamespace(b)[13..] == b;
  }

  /** What a step does to one bucket: nothing, one object stored under the next generation, one
      object deleted, the bucket created, or the bucket deleted with all it holds. */
  datatype Effect = Nothing | Store(name: string, meta: Meta, bytes: string) | Erase(name: string) | Create | Empty

  ghost function EffectOn(s: State, op: Op, bucket: string): Effect {
    var reply := Step(s, op).reply;
    if op.bucket != bucket then Nothing
    else if reply.Stored? then
      Store(reply.meta.name, reply.meta,
            if op.UploadMedia? then op.body else if op.PutData? && op.id in s.sessions then s.sessions[op.id].buffer + op.body else "")
    else if reply != Done then Nothing
    else match op
      case CreateBucket(_) => Create
      case DeleteBucket(_) => Empty
      case DeleteObject(_, name) => Erase(name)
      case _ => Nothing
  }

  lemma StoreEffect(s: State, target: string, name: string, ct: string, body: string, bucket: string)
    ensures var s', meta := StoreObject(s, target, name, ct, body).state, StoreObject(s, target, name, ct, body).reply.meta;
            && meta.bucket == target && meta.name == name && meta.size == |body|
            && s'.generation == meta.generation == s.generation + 1
            && Namespace(s'.store, BUCKETS) == Namespace(s.store, BUCKETS)
            && Objects(s', bucket) == (if bucket == target then Objects(s, bucket)[name := ObjectRecord(meta)]
                                       else Objects(s, bucket))
            && Blobs(s', bucket) == (if bucket == target then Blobs(s, bucket)[name := Blob(body)]
                                     else Blobs(s, bucket))
  {
    NamespacesApart(target, bucket);
    NamespacesApart(bucket, target);
  }

  /** Each request has its effect on its own bucket and none on any other. */
  ghost predicate HasEffect(s: State, s': State, bucket: string, e: Effect) {
    var o, d, o', d' := Objects(s, bucket), Blobs(s, bucket), Objects(s', bucket), Blobs(s', bucket);
    match e
    case Nothing =>
      o' == o && d' == d && HasBucket(s', bucket) == HasBucket(s, bucket) && s.generation <= s'.generation
    case Store(name, meta, bytes) =>
      o' == o[name := ObjectRecord(meta)] && d' == d[name := Blob(bytes)] &&
      HasBucket(s, bucket) && HasBucket(s', bucket) &&
      meta.bucket == bucket && meta.name == name && meta.size == |bytes| &&
      meta.generation == s'.generation == s.generation + 1
    case Erase(name) =>
      o' == o - {name} && d' == d - {name} && HasBucket(s', bucket) == HasBucket(s, bucket) &&
      s'.generation == s.generation
    case Create =>
      o' == o && d' == d && !HasBucket(s, bucket) && HasBucket(s', bucket) && s'.generation == s.generation
    case Empty =>
      o' == map[] && d' == d - o.Keys && HasBucket(s, bucket) && !HasBucket(s', bucket) &&
      s'.generation == s.generation
  }

  lemma FinaliseEffect(s: State, id: string, sess: Session, bucket: string)
    ensures var s', meta := Finalise(s, id, sess).state, Finalise(s, id, sess).reply.meta;
            && meta.bucket == sess.bucket && meta.name == sess.name && meta.size == |sess.buffer|
            && s'.generation == meta.generation == s.generation + 1
            && Namespace(s'.store, BUCKETS) == Namespace(s.store, BUCKETS)
            && Objects(s', bucket) == (if bucket == sess.bucket then Objects(s, bucket)[sess.name := ObjectRecord(meta)]
                                       else Objects(s, bucket))
            && Blobs(s', bucket) == (if bucket == sess.bucket then Blobs(s, bucket)[sess.name := Blob(sess.buffer)]
                                     else Blobs(s, bucket))
  {
    var ct := if sess.contentType == "" then "application/octet-stream" else sess.contentType;
    StoreEffect(s, sess.bucket, sess.name, ct, sess.buffer, bucket);
  }

  lemma PutDataEffect(s: State, op: Op, bucket: string)
    requires op.PutData?
    ensures HasEffect(s, Step(s, op).state, bucket, EffectOn(s, op, bucket))
  {
    if op.id in s.sessions {
      var sess := s.sessions[op.id];
      var v := Judge(|sess.buffer|, op.header, op.body);
      if v.End? {
        FinaliseEffect(s, op.id, Total(sess.(buffer := sess.buffer + op.body), v.total), bucket);
      }
    }
  }

  lemma CreateEffect(s: State, op: Op, bucket: string)
    requires op.CreateBucket?
    ensures HasEffect(s, Step(s, op).state, bucket, EffectOn(s, op, bucket))
  {
    NamespacesApart(bucket, op.bucket);
  }

  lemma DeleteEffect(s: State, op: Op, bucket: string)
    requires op.DeleteBucket?
    ensures HasEffect(s, Step(s, op).state, bucket, EffectOn(s, op, bucket))
  {
    NamespacesApart(op.bucket, bucket);
    NamespacesApart(bucket, op.bucket);
  }

  lemma EraseEffect(s: State, op: Op, bucket: string)
    requires op.DeleteObject?
    ensures HasEffect(s, Step(s, op).state, bucket, EffectOn(s, op, bucket))
  {
    NamespacesApart(op.bucket, bucket);
    NamespacesApart(bucket, op.bucket);
  }

  lemma StepEffect(s: State, op: Op, bucket: string)
    ensures HasEffect(s, Step(s, op).state, bucket, EffectOn(s, op, bucket))
  {
    match op
    case UploadMedia(b, name, ct, body) => StoreEffect(s, b, name, ct, body, bucket);
    case PutData(_, _, _, _) => PutDataEffect(s, op, bucket);
    case StartUpload(_, _, _) =>
    case CreateBucket(_) => CreateEffect(s, op, bucket);
    case DeleteBucket(_) => DeleteEffect(s, op, bucket);
    case DeleteObject(_, _) => EraseEffect(s, op, bucket);
  }

  lemma StepKeepsSound(s: State, op: Op, bucket: string)
    requires SoundBucket(s, bucket)
    ensures SoundBucket(Step(s, op).state, bucket)
  {
    StepEffect(s, op, bucket);
  }

  /** In every reachable state metadata and bytes have the same names, recorded sizes are true,
      and a bucket that does not exist holds nothing. */
  lemma {:induction false} BucketsStaySound(t: Trace, bucket: string)
    ensures SoundBucket(Run(t), bucket)
  {
    if t.Then? {
      BucketsStaySound(t.before, bucket);
      StepKeepsSound(Run(t.before), t.op, bucket);
    }
  }

  /** Deleting a bucket leaves neither metadata nor bytes behind. */
  lemma DeleteBucketEmptiesBoth(t: Trace, bucket: string)
    ensures HasBucket(Run(t), bucket) ==>
              Objects(Run(Then(t, DeleteBucket(bucket))), bucket) == map[] &&
              Blobs(Run(Then(t, DeleteBucket(bucket))), bucket) == map[]
  {
    BucketsStaySound(Then(t, DeleteBucket(bucket)), bucket);
    StepEffect(Run(t), DeleteBucket(bucket), bucket);
  }

  lemma {:induction false} GenerationNeverFalls(start: Trace, t: Trace)
    requires Continues(t, start)
    ensures Run(start).generation <= Run(t).generation
  {
    if t != start {
      GenerationNeverFalls(start, t.before);
      StepEffect(Run(t.before), t.op, t.op.bucket);
    }
  }

  /** Over any run, the object found under a name is the very one that was there, or one stored
      since then under a strictly larger generation. */
  lemma {:induction false} OverwritesRaiseGeneration(start: Trace, t: Trace, bucket: string, name: string)
    requires Continues(t, start) && name in Objects(Run(t), bucket)
    ensures var o := Objects(Run(t), bucket)[name];
            || (name in Objects(Run(start), bucket) && o == Objects(Run(start), bucket)[name] &&
                name in Blobs(Run(t), bucket) && name in Blobs(Run(start), bucket) &&
                Blobs(Run(t), bucket)[name] == Blobs(Run(start), bucket)[name])
            || (o.ObjectRecord? && o.meta.generation > Run(start).generation)
  {
    BucketsStaySound(t, bucket);
    if t != start {
      GenerationNeverFalls(start, t.before);
      StepEffect(Run(t.before), t.op, bucket);
      BucketsStaySound(t.before, bucket);
      if name in Objects(Run(t.before), bucket) {
        OverwritesRaiseGeneration(start, t.before, bucket, name);
      }
    }
  }

  // ---- A resumable upload delivers the file ---------------------------------------------

  /** The chunk holds the bytes of `file` it says it holds, and is declared last only if it is. */
  predicate TrueSlice(file: string, r: Range, body: string) {
    && 0 <= r.start && r.start + |body| <= |file|
    && body == file[r.start..r.start + |body|]
    && (r.final || r.end < 0 ==> r.start + |body| == |file|)
  }

  /** A request about `file` when the server holds its first `held` bytes: whatever is not a
      well-formed chunk, any true slice in any order, or the whole remainder in one shot. */
  predicate Honest(file: string, held: nat, header: string, body: string)
    requires held <= |file|
  {
    if header == "" then body == file[held..]
    else
      var r := Parse(header);
      r.Some? && !r.value.isStatus && CountsMatch(r.value, body) ==> TrueSlice(file, r.value, body)
  }

  predicate HonestOp(file: string, s: State, id: string, op: Op) {
    op.PutData? && op.id == id && id in s.sessions && s.sessions[id].buffer <= file ==>
      Honest(file, |s.sessions[id].buffer|, op.header, op.body)
  }

  predicate HonestSince(file: string, start: Trace, t: Trace, id: string)
    requires Continues(t, start)
  {
    t == start || (HonestSince(file, start, t.before, id) && HonestOp(file, Run(t.before), id, t.op))
  }

  /** Object `name` of `bucket` is exactly `file`, with its true size. */
  ghost predicate Delivered(s: State, bucket: string, name: string, file: string) {
    && name in Objects(s, bucket) && name in Blobs(s, bucket)
    && Blobs(s, bucket)[name] == Blob(file)
    && Objects(s, bucket)[name].ObjectRecord? && Objects(s, bucket)[name].meta.size == |file|
  }

  ghost predicate SessionsIssued(s: State) {
    forall id :: id in s.sessions ==> exists k: nat :: k <= s.resumableSeq && id == SessionName(k)
  }

  lemma {:induction false} SessionIdsAreIssued(t: Trace)
    ensures SessionsIssued(Run(t))
  {
    if t.Then? {
      SessionIdsAreIssued(t.before);
      var s, s' := Run(t.before), Run(t);
      forall id | id in s'.sessions
        ensures exists k: nat :: k <= s'.resumableSeq && id == SessionName(k)
      {
        if id in s.sessions {
          var k: nat :| k <= s.resumableSeq && id == SessionName(k);
          assert k <= s'.resumableSeq;
        }
      }
    }
  }

  /** A new session never takes over the id of a live one. */
  lemma FreshSessionId(s: State)
    requires SessionsIssued(s)
    ensures SessionName(s.resumableSeq + 1) !in s.sessions
  {
    if SessionName(s.resumableSeq + 1) in s.sessions {
      var k: nat :| k <= s.resumableSeq && SessionName(s.resumableSeq + 1) == SessionName(k);
      assert SessionName(k)[8..] == Decimal(k);
      assert SessionName(s.resumableSeq + 1)[8..] == Decimal(s.resumableSeq + 1);
      DecimalInjective(k, s.resumableSeq + 1);
    }
  }

  lemma PrefixGrows(file: string, buffer: string, body: string)
    requires buffer <= file && |buffer| + |body| <= |file| && body == file[|buffer|..|buffer| + |body|]
    ensures buffer + body <= file && (|buffer| + |body| == |file| ==> buffer + body == file)
  {
    assert buffer == file[..|buffer|];
    assert file[..|buffer| + |body|] == buffer + body;
    assert |buffer| + |body| == |file| ==> file[..|file|] == file;
  }

  lemma HonestRange(file: string, buffer: string, r: Range, body: string)
    requires buffer <= file && (!r.isStatus && CountsMatch(r, body) ==> TrueSlice(file, r, body))
    ensures match JudgeRange(|buffer|, r, body)
            case End(_) => buffer + body == file
            case Append(_) => buffer + body <= file
            case _ => true
  {
    if !r.isStatus && CountsMatch(r, body) && r.start == |buffer| {
      PrefixGrows(file, buffer, body);
    }
  }

  /** Whatever an honest request appends keeps the buffer a prefix, and only the rest ends it. */
  lemma HonestVerdict(file: string, buffer: string, header: string, body: string)
    requires buffer <= file && Honest(file, |buffer|, header, body)
    ensures match Judge(|buffer|, header, body)
            case End(_) => buffer + body == file
            case Append(_) => buffer + body <= file
            case _ => true
  {
    if header == "" {
      PrefixGrows(file, buffer, body);
    } else if Parse(header).Some? {
      HonestRange(file, buffer, Parse(header).value, body);
    }
  }

  /** Ending a session stores what it holds. */
  lemma FinaliseDelivers(s: State, id: string, sess: Session)
    ensures var r := Finalise(s, id, sess);
            r.reply.Stored? && id !in r.state.sessions && Delivered(r.state, sess.bucket, sess.name, sess.buffer)
  {
    var ct := if sess.contentType == "" then "application/octet-stream" else sess.contentType;
    StoreEffect(s, sess.bucket, sess.name, ct, sess.buffer, sess.bucket);
  }

  lemma HonestData(file: string, s: State, id: string, op: Op)
    requires op.PutData? && op.id == id
    requires id in s.sessions && s.sessions[id].buffer <= file && HonestOp(file, s, id, op)
    ensures Advanced(file, s, id, op)
  {
    if HasBucket(s, op.bucket) && s.sessions[id].bucket == op.bucket {
      HonestUpload(file, s, id, op.header, op.body);
    }
  }

  lemma HonestUpload(file: string, s: State, id: string, header: string, body: string)
    requires id in s.sessions && s.sessions[id].buffer <= file && Honest(file, |s.sessions[id].buffer|, header, body)
    ensures var r, sess := UploadData(s, id, header, body), s.sessions[id];
            if id in r.state.sessions
            then r.state.sessions[id].buffer <= file && r.state.sessions[id].bucket == sess.bucket &&
                 r.state.sessions[id].name == sess.name && |sess.buffer| <= |r.state.sessions[id].buffer|
            else r.reply.Stored? && Delivered(r.state, sess.bucket, sess.name, file)
  {
    var sess := s.sessions[id];
    var v := Judge(|sess.buffer|, header, body);
    HonestVerdict(file, sess.buffer, header, body);
    if v.End? {
      FinaliseDelivers(s, id, Total(sess.(buffer := sess.buffer + body), v.total));
    }
  }

  /** The buffer is a longer prefix of the file, or the request delivered the file. */
  ghost predicate Advanced(file: string, s: State, id: string, op: Op)
    requires id in s.sessions
  {
    var s', sess := Step(s, op).state, s.sessions[id];
    if id in s'.sessions
    then s'.sessions[id].buffer <= file && s'.sessions[id].bucket == sess.bucket &&
         s'.sessions[id].name == sess.name && |sess.buffer| <= |s'.sessions[id].buffer|
    else op.PutData? && op.id == id && Step(s, op).reply.Stored? && Delivered(s', sess.bucket, sess.name, file)
  }

  lemma StoreKeepsSessions(s: State, bucket: string, name: string, ct: string, body: string)
    ensures StoreObject(s, bucket, name, ct, body).state.sessions == s.sessions
    ensures StoreObject(s, bucket, name, ct, body).state.resumableSeq == s.resumableSeq
  {
  }

  /** What a request does to the sessions and their counter. */
  lemma SessionsAfter(s: State, op: Op)
    ensures var s' := Step(s, op).state;
            && s.resumableSeq <= s'.resumableSeq
            && (op.StartUpload? ==> forall k :: k in s.sessions && k != SessionName(s.resumableSeq + 1) ==>
                  k in s'.sessions && s'.sessions[k] == s.sessions[k])
            && (op.PutData? ==> forall k :: k in s.sessions && k != op.id ==> k in s'.sessions && s'.sessions[k] == s.sessions[k])
            && (!op.StartUpload? && !op.PutData? ==> s'.sessions == s.sessions)
  {
    match op
    case UploadMedia(bucket, name, ct, body) => StoreKeepsSessions(s, bucket, name, ct, body);
    case PutData(_, id, header, body) =>
      if id in s.sessions {
        UploadTouchesOne(s, id, header, body);
      }
    case _ =>
  }

  lemma UploadTouchesOne(s: State, id: string, header: string, body: string)
    requires id in s.sessions
    ensures var s' := UploadData(s, id, header, body).state;
            && s.resumableSeq == s'.resumableSeq
            && forall k :: k in s.sessions && k != id ==> k in s'.sessions && s'.sessions[k] == s.sessions[k]
  {
  }

  lemma OtherOpsLeaveSession(s: State, op: Op, id: string)
    requires SessionsIssued(s) && id in s.sessions && !(op.PutData? && op.id == id)
    ensures id in Step(s, op).state.sessions && Step(s, op).state.sessions[id] == s.sessions[id]
  {
    FreshSessionId(s);
    SessionsAfter(s, op);
  }

  lemma HonestStep(file: string, s: State, id: string, op: Op)
    requires SessionsIssued(s) && id in s.sessions && s.sessions[id].buffer <= file && HonestOp(file, s, id, op)
    ensures Advanced(file, s, id, op)
  {
    if op.PutData? && op.id == id {
      HonestData(file, s, id, op);
    } else {
      OtherOpsLeaveSession(s, op, id);
    }
  }

  /** For every run of honest requests, in any order, with duplicates, gaps, status queries and
      traffic on other sessions: while the session lives its buffer is a prefix of the file, and
      the request that ends it stores exactly the file. */
  lemma {:induction false} UploadDeliversFile(file: string, start: Trace, t: Trace, id: string)
    returns (at: Trace)
    requires Continues(t, start) && HonestSince(file, start, t, id)
    requires id in Run(start).sessions && Run(start).sessions[id].buffer <= file
    ensures Continues(at, start) && Continues(t, at)
    ensures id in Run(t).sessions ==>
              at == t && Run(t).sessions[id].buffer <= file &&
              |Run(start).sessions[id].buffer| <= |Run(t).sessions[id].buffer|
    ensures id in Run(at).sessions ==>
              id in Run(t).sessions &&
              Run(t).sessions[id].bucket == Run(start).sessions[id].bucket &&
              Run(t).sessions[id].name == Run(start).sessions[id].name
    ensures id !in Run(at).sessions ==>
              Delivered(Run(at), Run(start).sessions[id].bucket, Run(start).sessions[id].name, file)
  {
    at := t;
    if t != start {
      at := UploadDeliversFile(file, start, t.before, id);
      SessionIdsAreIssued(t.before);
      if id in Run(t.before).sessions {
        at := t;
        HonestStep(file, Run(t.before), id, t.op);
      } else {
        StepStaysClosed(start, t, id);
      }
    }
  }

  /** Over any run: a session that was live and has ended is never live again. */
  lemma {:induction false} StaysClosed(start: Trace, ended: Trace, t: Trace, id: string)
    requires Continues(ended, start) && Continues(t, ended)
    requires id in Run(start).sessions && id !in Run(ended).sessions
    ensures id !in Run(t).sessions
  {
    if t != ended {
      StaysClosed(start, ended, t.before, id);
      ContinuesOn(start, ended, t.before);
      StepStaysClosed(start, t, id);
    }
  }

  lemma {:induction false} ContinuesOn(start: Trace, mid: Trace, t: Trace)
    requires Continues(mid, start) && Continues(t, mid)
    ensures Continues(t, start)
  {
    if t != mid {
      ContinuesOn(start, mid, t.before);
    }
  }

  /** A session id of the past is not the next one to be issued. */
  lemma OldIdIsNotNext(start: Trace, t: Trace, id: string)
    requires Continues(t, start) && id in Run(start).sessions
    ensures id != SessionName(Run(t).resumableSeq + 1)
  {
    SessionIdsAreIssued(start);
    var k: nat :| k <= Run(start).resumableSeq && id == SessionName(k);
    SeqNeverFalls(start, t);
    NamesDiffer(k, Run(t).resumableSeq + 1);
  }

  lemma NamesDiffer(k: nat, n: nat)
    requires k < n
    ensures SessionName(k) != SessionName(n)
  {
    assert SessionName(k)[8..] == Decimal(k) && SessionName(n)[8..] == Decimal(n);
    DecimalRoundTrip(k);
    DecimalRoundTrip(n);
  }

  lemma ClosedStepsClosed(s: State, op: Op, id: string)
    requires id !in s.sessions && id != SessionName(s.resumableSeq + 1)
    ensures id !in Step(s, op).state.sessions
  {
  }

  lemma StepStaysClosed(start: Trace, t: Trace, id: string)
    requires t.Then? && id !in Run(t.before).sessions
    requires Continues(t.before, start) && id in Run(start).sessions
    ensures id !in Run(t).sessions
  {
    OldIdIsNotNext(start, t.before, id);
    ClosedStepsClosed(Run(t.before), t.op, id);
  }

  lemma {:induction false} SeqNeverFalls(start: Trace, t: Trace)
    requires Continues(t, start)
    ensures Run(start).resumableSeq <= Run(t).resumableSeq
  {
    if t != start {
      SeqNeverFalls(start, t.before);
      SessionsAfter(Run(t.before), t.op);
    }
  }
}
