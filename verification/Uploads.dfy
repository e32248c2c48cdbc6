/**
 The object store and its resumable-upload sessions: one step is one request. A `string` holds
 raw bytes, and the store is a map from namespace to a map from key to value.
 */
module Uploads {
  import opened Text
  import opened ContentRange

  // ---- The store ---------------------------------------------------------------

  datatype Meta = Meta(bucket: string, name: string, generation: nat, contentType: string, size: nat)

  datatype Value = BucketRecord | ObjectRecord(meta: Meta) | Blob(bytes: string)

  type Store = map<string, map<string, Value>>

  const BUCKETS := "storage/buckets"

  function ObjectNamespace(bucket: string): string { "storage/objects/" + bucket }

  function DataNamespace(bucket: string): string { "storage/data/" + bucket }

  function Namespace(store: Store, ns: string): map<string, Value> {
    if ns in store then store[ns] else map[]
  }

  function Put(store: Store, ns: string, key: string, v: Value): Store {
    store[ns := Namespace(store, ns)[key := v]]
  }

  function Delete(store: Store, ns: string, keys: set<string>): Store {
    if ns in store then store[ns := store[ns] - keys] else store
  }

  // ---- The service --------------------------------------------------------------

  datatype Session = Session(bucket: string, name: string, contentType: string, buffer: string, totalSize: int)

  datatype State = State(store: Store, sessions: map<string, Session>, generation: nat, resumableSeq: nat)

  datatype Op =
    | CreateBucket(bucket: string)
    | DeleteBucket(bucket: string)
    | StartUpload(bucket: string, name: string, contentType: string)
    | PutData(bucket: string, id: string, header: string, body: string)
    | UploadMedia(bucket: string, name: string, contentType: string, body: string)
    | DeleteObject(bucket: string, name: string)

  datatype Reply =
    | Done | NotFound | Conflict | BadRequest
    | Started(id: string)
    | Resume(range: Option<string>)
    | Stored(meta: Meta)

  datatype Outcome = Outcome(state: State, reply: Reply)

  predicate HasBucket(s: State, bucket: string) { bucket in Namespace(s.store, BUCKETS) }

  function StoreObject(s: State, bucket: string, name: string, contentType: string, body: string): Outcome {
    var meta := Meta(bucket, name, s.generation + 1, contentType, |body|);
    var store := Put(Put(s.store, ObjectNamespace(bucket), name, ObjectRecord(meta)),
                     DataNamespace(bucket), name, Blob(body));
    Outcome(s.(store := store, generation := s.generation + 1), Stored(meta))
  }

  function Finalise(s: State, id: string, sess: Session): Outcome {
    var ct := if sess.contentType == "" then "application/octet-stream" else sess.contentType;
    var r := StoreObject(s, sess.bucket, sess.name, ct, sess.buffer);
    r.(state := r.state.(sessions := s.sessions - {id}))
  }

  function Total(sess: Session, total: int): Session {
    if total >= 0 then sess.(totalSize := total) else sess
  }

  /** The declared byte count agrees with the body; an open end is taken from the body. */
  predicate CountsMatch(r: Range, body: string) { r.end < 0 || |body| == r.end - r.start + 1 }

  /** How a data request is treated: refused, answered with the bytes held, appended, or last. */
  datatype Verdict = Refuse | Report(total: int) | Append(total: int) | End(total: int)

  function Judge(held: nat, header: string, body: string): Verdict {
    if header == "" then End(-1)
    else
      var r := Parse(header);
      if r.None? then Refuse else JudgeRange(held, r.value, body)
  }

  function JudgeRange(held: nat, r: Range, body: string): Verdict {
    if r.isStatus then Report(r.total)
    else if !CountsMatch(r, body) then Refuse
    else if r.start != held then Report(-1)
    else if r.final || r.end < 0 then End(r.total)
    else Append(r.total)
  }

  function UploadData(s: State, id: string, header: string, body: string): Outcome
    requires id in s.sessions
  {
    Judged(s, id, Judge(|s.sessions[id].buffer|, header, body), body)
  }

  /** What the verdict on a request does to the session. */
  function Judged(s: State, id: string, v: Verdict, body: string): Outcome
    requires id in s.sessions
  {
    var sess := s.sessions[id];
    match v
    case Refuse => Outcome(s, BadRequest)
    case Report(total) => Keep(s, id, Total(sess, total))
    case Append(total) => Keep(s, id, Total(sess.(buffer := sess.buffer + body), total))
    case End(total) => Finalise(s, id, Total(sess.(buffer := sess.buffer + body), total))
  }

  /** The session goes on, and the client is told which bytes are held. */
  function Keep(s: State, id: string, sess: Session): Outcome {
    Outcome(s.(sessions := s.sessions[id := sess]), Resume(PrintHeld(|sess.buffer|)))
  }

  function SessionName(n: nat): string { "session-" + Decimal(n) }

  function Step(s: State, op: Op): Outcome {
    match op
    case CreateBucket(bucket) =>
      if bucket == "" then Outcome(s, BadRequest)
      else if HasBucket(s, bucket) then Outcome(s, Conflict)
      else Outcome(s.(store := Put(s.store, BUCKETS, bucket, BucketRecord)), Done)
    case DeleteBucket(bucket) =>
      if !HasBucket(s, bucket) then Outcome(s, NotFound)
      else
        var keys := Namespace(s.store, ObjectNamespace(bucket)).Keys;
        var emptied := Delete(Delete(s.store, ObjectNamespace(bucket), keys), DataNamespace(bucket), keys);
        Outcome(s.(store := Delete(emptied, BUCKETS, {bucket})), Done)
    case StartUpload(bucket, name, contentType) =>
      if !HasBucket(s, bucket) then Outcome(s, NotFound)
      else if name == "" then Outcome(s, BadRequest)
      else
        var id := SessionName(s.resumableSeq + 1);
        Outcome(s.(sessions := s.sessions[id := Session(bucket, name, contentType, "", -1)],
                   resumableSeq := s.resumableSeq + 1), Started(id))
    case PutData(bucket, id, header, body) =>
      if !HasBucket(s, bucket) || id !in s.sessions || s.sessions[id].bucket != bucket
      then Outcome(s, NotFound)
      else UploadData(s, id, header, body)
    case UploadMedia(bucket, name, contentType, body) =>
      if !HasBucket(s, bucket) then Outcome(s, NotFound)
      else if name == "" then Outcome(s, BadRequest)
      else StoreObject(s, bucket, name, contentType, body)
    case DeleteObject(bucket, name) =>
      if !HasBucket(s, bucket) || name !in Namespace(s.store, ObjectNamespace(bucket)) then Outcome(s, NotFound)
      else
        Outcome(s.(store := Delete(Delete(s.store, ObjectNamespace(bucket), {name}), DataNamespace(bucket), {name})),
                Done)
  }

  // ---- Runs -----------------------------------------------------------------------

  datatype Trace = Start | Then(before: Trace, op: Op)

  const EMPTY := State(map[], map[], 0, 0)

  function Run(t: Trace): State {
    match t
    case Start => EMPTY
    case Then(before, op) => Step(Run(before), op).state
  }

  predicate Continues(t: Trace, start: Trace) {
    t == start || (t.Then? && Continues(t.before, start))
  }

  /** A run continues itself, and what it continues. */
  lemma ContinuesMore(start: Trace, t: Trace, op: Op)
    ensures Continues(start, start) && (Continues(t, start) ==> Continues(Then(t, op), start))
  {
  }

  lemma WrapPeriod(n: int)
    ensures Wrap64(n - 0x1_0000_0000_0000_0000) == Wrap64(n)
  {
  }

  lemma OpenEndWraps(start: nat, len: nat)
    requires start <= INT64_MAX && len <= INT64_MAX
    ensures Wrap64(Wrap64(start + len - 1) - start + 1) == len
  {
    if start + len - 1 > INT64_MAX {
      WrapPeriod(start + len - 1);
      WrapPeriod(len);
    }
  }

  /** Evaluating the length check in wrapping int64 arithmetic decides the same way, for every
      body a machine can hold. */
  lemma LengthCheckIgnoresWrap(r: Range, body: string)
    requires 0 <= r.start <= INT64_MAX && INT64_MIN <= r.end <= INT64_MAX && |body| <= INT64_MAX
    ensures var end := if r.end < 0 then Wrap64(r.start + |body| - 1) else r.end;
            CountsMatch(r, body) <==> |body| == Wrap64(end - r.start + 1)
  {
    if r.end < 0 {
      OpenEndWraps(r.start, |body|);
    } else {
      WrapPeriod(r.end - r.start + 1);
    }
  }
}
