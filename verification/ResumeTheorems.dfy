/** A client that resumes where the server stands finishes its upload. */
module ResumeTheorems {
  import opened Text
  import opened ContentRange
  import opened Uploads
  import opened UploadTheorems

  /** The 308 reply names exactly the bytes held. */
  lemma ResumeNamesBytesHeld(s: State, bucket: string, id: string, header: string, body: string)
    ensures var r := Step(s, PutData(bucket, id, header, body));
            r.reply.Resume? ==>
              id in r.state.sessions &&
              (|r.state.sessions[id].buffer| <= INT64_MAX ==>
                 ResumeOffset(r.reply.range) == |r.state.sessions[id].buffer|)
  {
    var r := Step(s, PutData(bucket, id, header, body));
    if r.reply.Resume? && |r.state.sessions[id].buffer| <= INT64_MAX {
      HeldRoundTrip(|r.state.sessions[id].buffer|);
    }
  }

  /** The server accepts a non-empty body: a chunk that starts where it stands, whether its header
      declares the total or not, or the rest in one shot. */
  predicate Resuming(s: State, id: string, op: Op) {
    && op.PutData? && op.id == id && id in s.sessions && op.bucket == s.sessions[id].bucket
    && HasBucket(s, op.bucket) && op.body != ""
    && var v := Judge(|s.sessions[id].buffer|, op.header, op.body);
       v.Append? || v.End?
  }

  lemma JudgePrinted(held: nat, shape: Shape, body: string)
    requires Printable(shape)
    ensures Judge(held, Print(shape), body) == JudgeRange(held, Meaning(shape), body)
  {
    RoundTrip(shape);
    assert |PREFIX| == 6;
  }

  /** A chunk printed for the offset named by the server is accepted, and is the last exactly if it
      declares the total it reaches. */
  lemma PrintedChunkIsAccepted(held: nat, total: Option<nat>, body: string)
    requires body != "" && held + |body| <= INT64_MAX && (total.Some? ==> total.value <= INT64_MAX)
    ensures var v := Judge(held, Print(Chunk(held, held + |body| - 1, total)), body);
            if total == Some(held + |body|) then v.End? else v.Append?
  {
    JudgePrinted(held, Chunk(held, held + |body| - 1, total), body);
  }

  /** So is one with an open end, as the last. */
  lemma PrintedRestIsAccepted(held: nat, total: Option<nat>, body: string)
    requires held <= INT64_MAX && (total.Some? ==> total.value <= INT64_MAX)
    ensures Judge(held, Print(OpenEnded(held, total)), body).End?
  {
    JudgePrinted(held, OpenEnded(held, total), body);
  }

  /** A chunk that starts where the server stands and reaches the end of the file is declared last. */
  predicate KnowsEnd(file: string, s: State, id: string, op: Op) {
    op.PutData? && op.id == id && id in s.sessions && op.header != "" ==>
      var r := Parse(op.header);
      r.Some? && !r.value.isStatus && CountsMatch(r.value, op.body) &&
      r.value.start == |s.sessions[id].buffer| && r.value.start + |op.body| == |file| ==>
        r.value.final || r.value.end < 0
  }

  predicate KnowsEndSince(file: string, start: Trace, t: Trace, id: string)
    requires Continues(t, start)
  {
    t == start || (KnowsEndSince(file, start, t.before, id) && KnowsEnd(file, Run(t.before), id, t.op))
  }

  function Resumes(start: Trace, t: Trace, id: string): nat
    requires Continues(t, start)
  {
    if t == start then 0
    else Resumes(start, t.before, id) + if Resuming(Run(t.before), id, t.op) then 1 else 0
  }

  lemma ResumingAdvances(s: State, id: string, op: Op)
    requires Resuming(s, id, op)
    ensures var s' := Step(s, op).state;
            id in s'.sessions ==> |s'.sessions[id].buffer| > |s.sessions[id].buffer|
  {
    assert Step(s, op) == UploadData(s, id, op.header, op.body);
  }

  lemma BufferAfter(s: State, op: Op, id: string)
    requires op.PutData? && op.id == id && id in s.sessions && id in Step(s, op).state.sessions
    ensures var buffer, buffer' := s.sessions[id].buffer, Step(s, op).state.sessions[id].buffer;
            buffer' == buffer || (Judge(|buffer|, op.header, op.body).Append? && buffer' == buffer + op.body)
  {
  }

  lemma AppendIsNotLast(file: string, s: State, buffer: string, id: string, op: Op)
    requires op.PutData? && op.id == id && id in s.sessions && s.sessions[id].buffer == buffer && KnowsEnd(file, s, id, op)
    requires buffer <= file && Honest(file, |buffer|, op.header, op.body)
    ensures Judge(|buffer|, op.header, op.body).Append? ==> buffer + op.body < file
  {
    HonestVerdict(file, buffer, op.header, op.body);
    assert Judge(|buffer|, op.header, op.body).Append? ==> |buffer| + |op.body| != |file|;
  }

  /** A live session is short of the whole file if no chunk ends it quietly. */
  lemma StaysShort(file: string, s: State, id: string, op: Op)
    requires SessionsIssued(s) && id in s.sessions && s.sessions[id].buffer < file
    requires HonestOp(file, s, id, op) && KnowsEnd(file, s, id, op)
    ensures var s' := Step(s, op).state; id in s'.sessions ==> s'.sessions[id].buffer < file
  {
    if !(op.PutData? && op.id == id) {
      OtherOpsLeaveSession(s, op, id);
    } else if id in Step(s, op).state.sessions {
      AppendIsNotLast(file, s, s.sessions[id].buffer, id, op);
      BufferAfter(s, op, id);
    }
  }

  /** However the other requests interleave, as many resumptions as there are bytes missing end
      the upload: each one shrinks the part of the file the server still lacks. */
  lemma {:induction false} ResumingFinishes(file: string, start: Trace, t: Trace, id: string)
    requires file != "" && Continues(t, start)
    requires HonestSince(file, start, t, id) && KnowsEndSince(file, start, t, id)
    requires id in Run(start).sessions && Run(start).sessions[id].buffer < file
    ensures id in Run(t).sessions ==>
              Run(t).sessions[id].buffer < file &&
              |Run(start).sessions[id].buffer| + Resumes(start, t, id) <= |Run(t).sessions[id].buffer|
    ensures |Run(start).sessions[id].buffer| + Resumes(start, t, id) >= |file| ==> id !in Run(t).sessions
  {
    if t != start {
      ResumingFinishes(file, start, t.before, id);
      SessionIdsAreIssued(t.before);
      if id in Run(t.before).sessions {
        HonestStep(file, Run(t.before), id, t.op);
        StaysShort(file, Run(t.before), id, t.op);
        if Resuming(Run(t.before), id, t.op) {
          ResumingAdvances(Run(t.before), id, t.op);
        }
      } else {
        StepStaysClosed(start, t, id);
      }
    }
  }
}
