/** What each storage request is answered, and what it leaves behind, header by header. */
module UploadReplies {
  import opened Text
  import opened ContentRange
  import opened Uploads
  import opened UploadTheorems
  import opened ResumeTheorems

  // ---- Headers as they are written ------------------------------------------------------------

  function TotalText(total: Option<nat>): string { if total.None? then "*" else Decimal(total.value) }

  function TotalOf(total: Option<nat>): int { if total.None? then -1 else total.value }

  predicate Fits64(n: nat) { n <= 0x7FFF_FFFF_FFFF_FFFF }

  predicate TotalFits(total: Option<nat>) { total.Some? ==> Fits64(total.value) }

  /** The three headers a client sends, and the one that answers it. */
  lemma HeadersAreWritten(start: nat, end: nat, total: Option<nat>, held: nat)
    ensures Print(Status(total)) == "bytes " + ("*" + "/" + TotalText(total))
    ensures Print(Chunk(start, end, total)) == "bytes " + ((Decimal(start) + "-" + Decimal(end)) + "/" + TotalText(total))
    ensures Print(OpenEnded(start, total)) == "bytes " + ((Decimal(start) + "-" + "*") + "/" + TotalText(total))
    ensures PrintHeld(held) == if held == 0 then None else Some("bytes=0-" + Decimal(held - 1))
  {
  }

  // ---- A request to a session -----------------------------------------------------------------

  predicate Serves(s: State, bucket: string, id: string) {
    HasBucket(s, bucket) && id in s.sessions && s.sessions[id].bucket == bucket
  }

  /** The declared length disagrees with the body's. */
  predicate LengthDisagrees(r: Range, body: string) { !r.isStatus && r.end >= 0 && |body| != r.end - r.start + 1 }

  /** A data request fails in two ways only, and then changes nothing. */
  lemma RefusedIff(s: State, bucket: string, id: string, header: string, body: string)
    ensures var r := Step(s, PutData(bucket, id, header, body));
            && (r.reply == NotFound <==> !Serves(s, bucket, id))
            && (r.reply == BadRequest <==>
                  Serves(s, bucket, id) && header != "" && (Parse(header).None? || LengthDisagrees(Parse(header).value, body)))
            && (r.reply == NotFound || r.reply == BadRequest ==> r.state == s)
            && (r.reply == NotFound || r.reply == BadRequest || r.reply.Resume? || r.reply.Stored?)
  {
  }

  // ---- The verdict on each header -------------------------------------------------------------

  lemma JudgeReads(held: nat, shape: Shape, r: Range, body: string)
    requires Printable(shape) && r == Meaning(shape)
    ensures Judge(held, Print(shape), body) == JudgeRange(held, r, body)
  {
    JudgePrinted(held, shape, body);
  }

  lemma StatusVerdict(held: nat, total: Option<nat>, body: string)
    requires TotalFits(total)
    ensures Judge(held, Print(Status(total)), body) == Report(TotalOf(total))
  {
    JudgeReads(held, Status(total), Range(-1, -1, TotalOf(total), false, true), body);
  }

  lemma ChunkVerdict(held: nat, start: nat, end: nat, total: Option<nat>, body: string)
    requires Fits64(start) && Fits64(end) && TotalFits(total) && |body| == end - start + 1
    ensures Judge(held, Print(Chunk(start, end, total)), body) ==
            if start != held then Report(-1) else if total == Some(end + 1) then End(TotalOf(total)) else Append(TotalOf(total))
  {
    JudgeReads(held, Chunk(start, end, total), Range(start, end, TotalOf(total), total == Some(end + 1), false), body);
  }

  lemma OpenVerdict(held: nat, start: nat, total: Option<nat>, body: string)
    requires Fits64(start) && TotalFits(total)
    ensures Judge(held, Print(OpenEnded(start, total)), body) == if start != held then Report(-1) else End(TotalOf(total))
  {
    JudgeReads(held, OpenEnded(start, total), Range(start, -1, TotalOf(total), false, false), body);
  }

  lemma StepIsJudged(s: State, bucket: string, id: string, header: string, body: string)
    requires Serves(s, bucket, id)
    ensures Step(s, PutData(bucket, id, header, body)) == Judged(s, id, Judge(|s.sessions[id].buffer|, header, body), body)
  {
  }

  // ---- And its reply --------------------------------------------------------------------------

  /** A status query is answered with the bytes held, and records a total that it declares. */
  lemma StatusIsAnswered(s: State, bucket: string, id: string, total: Option<nat>, body: string)
    requires Serves(s, bucket, id) && TotalFits(total)
    ensures var r := Step(s, PutData(bucket, id, Print(Status(total)), body));
            var sess := s.sessions[id];
            && r.reply == Resume(PrintHeld(|sess.buffer|))
            && r.state == s.(sessions := s.sessions[id := if total.Some? then sess.(totalSize := total.value) else sess])
  {
    StepIsJudged(s, bucket, id, Print(Status(total)), body);
    StatusVerdict(|s.sessions[id].buffer|, total, body);
    SameSession(s, id);
  }

  /** A chunk that starts elsewhere than where the buffer ends is answered the same way, and changes nothing. */
  lemma MisplacedIsAnswered(s: State, bucket: string, id: string, start: nat, end: nat, total: Option<nat>, body: string)
    requires Serves(s, bucket, id) && start != |s.sessions[id].buffer|
    requires Fits64(start) && Fits64(end) && TotalFits(total) && |body| == end - start + 1
    ensures var r := Step(s, PutData(bucket, id, Print(Chunk(start, end, total)), body));
            r.reply == Resume(PrintHeld(|s.sessions[id].buffer|)) && r.state == s
  {
    StepIsJudged(s, bucket, id, Print(Chunk(start, end, total)), body);
    ChunkVerdict(|s.sessions[id].buffer|, start, end, total, body);
    SameSession(s, id);
  }

  lemma MisplacedRestIsAnswered(s: State, bucket: string, id: string, start: nat, total: Option<nat>, body: string)
    requires Serves(s, bucket, id) && start != |s.sessions[id].buffer| && Fits64(start) && TotalFits(total)
    ensures var r := Step(s, PutData(bucket, id, Print(OpenEnded(start, total)), body));
            r.reply == Resume(PrintHeld(|s.sessions[id].buffer|)) && r.state == s
  {
    StepIsJudged(s, bucket, id, Print(OpenEnded(start, total)), body);
    OpenVerdict(|s.sessions[id].buffer|, start, total, body);
    SameSession(s, id);
  }

  lemma SameSession(s: State, id: string)
    requires id in s.sessions
    ensures s.(sessions := s.sessions[id := s.sessions[id]]) == s
  {
    assert s.sessions[id := s.sessions[id]] == s.sessions;
  }

  lemma AppendedReply(s: State, id: string, total: Option<nat>, body: string)
    requires id in s.sessions && body != ""
    ensures var r := Judged(s, id, Append(TotalOf(total)), body);
            var sess := s.sessions[id].(buffer := s.sessions[id].buffer + body);
            && r.reply == Resume(PrintHeld(|s.sessions[id].buffer| + |body|))
            && r.state == s.(sessions := s.sessions[id := if total.Some? then sess.(totalSize := total.value) else sess])
  {
  }

  /** A chunk that starts where the buffer ends and does not reach the total is appended. */
  lemma ChunkIsAppended(s: State, bucket: string, id: string, end: nat, total: Option<nat>, body: string)
    requires Serves(s, bucket, id) && Fits64(|s.sessions[id].buffer|) && Fits64(end) && TotalFits(total)
    requires body != "" && |s.sessions[id].buffer| + |body| == end + 1 && total != Some(end + 1)
    ensures var r := Step(s, PutData(bucket, id, Print(Chunk(|s.sessions[id].buffer|, end, total)), body));
            var sess := s.sessions[id].(buffer := s.sessions[id].buffer + body);
            && r.reply == Resume(PrintHeld(end + 1))
            && r.state == s.(sessions := s.sessions[id := if total.Some? then sess.(totalSize := total.value) else sess])
  {
    var held := |s.sessions[id].buffer|;
    var h := Print(Chunk(held, end, total));
    assert Step(s, PutData(bucket, id, h, body)) == Judged(s, id, Append(TotalOf(total)), body) by {
      StepIsJudged(s, bucket, id, h, body);
      ChunkVerdict(held, held, end, total, body);
    }
    AppendedReply(s, id, total, body);
  }

  // ---- What is stored -------------------------------------------------------------------------

  /** Object `name` of `bucket` is `body` under the next generation; nothing else of a bucket changes. */
  ghost predicate StoresBody(s: State, s': State, meta: Meta, body: string) {
    && s'.generation == s.generation + 1 == meta.generation && meta.size == |body|
    && (forall b :: HasBucket(s', b) == HasBucket(s, b))
    && forall b ::
         && Objects(s', b) == (if b == meta.bucket then Objects(s, b)[meta.name := ObjectRecord(meta)] else Objects(s, b))
         && Blobs(s', b) == (if b == meta.bucket then Blobs(s, b)[meta.name := Blob(body)] else Blobs(s, b))
  }

  lemma StoreStores(s: State, bucket: string, name: string, ct: string, body: string)
    ensures var r := StoreObject(s, bucket, name, ct, body);
            && r.reply == Stored(Meta(bucket, name, s.generation + 1, ct, |body|))
            && StoresBody(s, r.state, r.reply.meta, body)
            && r.state.sessions == s.sessions && r.state.resumableSeq == s.resumableSeq
  {
    forall b
      ensures var s' := StoreObject(s, bucket, name, ct, body).state;
              && HasBucket(s', b) == HasBucket(s, b)
              && Objects(s', b) == (if b == bucket then Objects(s, b)[name := ObjectRecord(Meta(bucket, name, s.generation + 1, ct, |body|))] else Objects(s, b))
              && Blobs(s', b) == (if b == bucket then Blobs(s, b)[name := Blob(body)] else Blobs(s, b))
    {
      StoreEffect(s, bucket, name, ct, body, b);
    }
  }

  /** The upload ends: the session is gone, and its object is the whole buffer. */
  ghost predicate Ends(s: State, r: Outcome, id: string, body: string)
    requires id in s.sessions
  {
    var sess := s.sessions[id];
    var ct := if sess.contentType == "" then "application/octet-stream" else sess.contentType;
    && r.reply == Stored(Meta(sess.bucket, sess.name, s.generation + 1, ct, |sess.buffer| + |body|))
    && StoresBody(s, r.state, r.reply.meta, sess.buffer + body)
    && r.state.sessions == s.sessions - {id}
  }

  lemma FinaliseEnds(s: State, id: string, total: int, body: string)
    requires id in s.sessions
    ensures Ends(s, Finalise(s, id, Total(s.sessions[id].(buffer := s.sessions[id].buffer + body), total)), id, body)
  {
    var sess := s.sessions[id];
    var ct := if sess.contentType == "" then "application/octet-stream" else sess.contentType;
    StoreStores(s, sess.bucket, sess.name, ct, sess.buffer + body);
  }

  /** A body without a Content-Range ends the upload, whatever is held. */
  lemma OneShotEnds(s: State, bucket: string, id: string, body: string)
    requires Serves(s, bucket, id)
    ensures Ends(s, Step(s, PutData(bucket, id, "", body)), id, body)
  {
    StepIsJudged(s, bucket, id, "", body);
    FinaliseEnds(s, id, -1, body);
  }

  /** So does a chunk that starts where the buffer ends and reaches the total. */
  lemma LastChunkEnds(s: State, bucket: string, id: string, end: nat, body: string)
    requires Serves(s, bucket, id) && Fits64(|s.sessions[id].buffer|) && Fits64(end + 1)
    requires body != "" && |s.sessions[id].buffer| + |body| == end + 1
    ensures Ends(s, Step(s, PutData(bucket, id, Print(Chunk(|s.sessions[id].buffer|, end, Some(end + 1))), body)), id, body)
  {
    var held := |s.sessions[id].buffer|;
    StepIsJudged(s, bucket, id, Print(Chunk(held, end, Some(end + 1))), body);
    ChunkVerdict(held, held, end, Some(end + 1), body);
    FinaliseEnds(s, id, end + 1, body);
  }

  /** And one with an open end. */
  lemma RestEnds(s: State, bucket: string, id: string, total: Option<nat>, body: string)
    requires Serves(s, bucket, id) && Fits64(|s.sessions[id].buffer|) && TotalFits(total)
    ensures Ends(s, Step(s, PutData(bucket, id, Print(OpenEnded(|s.sessions[id].buffer|, total)), body)), id, body)
  {
    var held := |s.sessions[id].buffer|;
    StepIsJudged(s, bucket, id, Print(OpenEnded(held, total)), body);
    OpenVerdict(held, held, total, body);
    FinaliseEnds(s, id, TotalOf(total), body);
  }

  // ---- The other requests ---------------------------------------------------------------------

  /** A media upload fails without its bucket or a name, and otherwise stores its body. */
  lemma MediaStores(s: State, bucket: string, name: string, contentType: string, body: string)
    ensures var r := Step(s, UploadMedia(bucket, name, contentType, body));
            if !HasBucket(s, bucket) then r == Outcome(s, NotFound)
            else if name == "" then r == Outcome(s, BadRequest)
            else
              && r.reply == Stored(Meta(bucket, name, s.generation + 1, contentType, |body|))
              && StoresBody(s, r.state, r.reply.meta, body) && r.state.sessions == s.sessions
  {
    StoreStores(s, bucket, name, contentType, body);
  }

  /** A resumable upload fails in the same cases, and otherwise opens an empty session under a new id. */
  lemma StartOpens(s: State, bucket: string, name: string, contentType: string)
    requires SessionsIssued(s)
    ensures var r := Step(s, StartUpload(bucket, name, contentType));
            if !HasBucket(s, bucket) then r == Outcome(s, NotFound)
            else if name == "" then r == Outcome(s, BadRequest)
            else
              var id := "session-" + Decimal(s.resumableSeq + 1);
              && id !in s.sessions && r.reply == Started(id)
              && r.state == s.(sessions := s.sessions[id := Session(bucket, name, contentType, "", -1)], resumableSeq := s.resumableSeq + 1)
  {
    FreshSessionId(s);
  }

  /** A bucket is created unless it has no name or exists, and deleted if it exists; deleted objects are gone. */
  lemma BucketReplies(s: State, bucket: string, name: string)
    ensures Step(s, CreateBucket(bucket)).reply == if bucket == "" then BadRequest else if HasBucket(s, bucket) then Conflict else Done
    ensures bucket != "" ==> HasBucket(Step(s, CreateBucket(bucket)).state, bucket)
    ensures Step(s, DeleteBucket(bucket)).reply == if HasBucket(s, bucket) then Done else NotFound
    ensures !HasBucket(Step(s, DeleteBucket(bucket)).state, bucket)
    ensures Step(s, DeleteObject(bucket, name)).reply == if HasBucket(s, bucket) && name in Objects(s, bucket) then Done else NotFound
    ensures HasBucket(s, bucket) ==> name !in Objects(Step(s, DeleteObject(bucket, name)).state, bucket)
  {
    StepEffect(s, CreateBucket(bucket), bucket);
    StepEffect(s, DeleteBucket(bucket), bucket);
    StepEffect(s, DeleteObject(bucket, name), bucket);
  }
}
