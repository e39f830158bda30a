/** The pull loop under loss: any part of any answer may fail to arrive. A chunk that
    was asked for in vain is asked for again once its request has timed out, and the
    file still arrives. */
module AttachmentLoss {
  import opened Wrappers
  import opened AttachmentTypes
  import opened AttachmentChunks
  import opened AttachmentTransfers
  import opened AttachmentSystem
  import opened AttachmentWindow
  import opened AttachmentDelivery
  import opened AttachmentPull
  import Ops = AttachmentOperations

  /** A poll, and the chunks whose frames do not arrive; all of them: no answer. */
  datatype Poll = Poll(now: nat, lost: iset<nat>)

  ghost predicate Answered(poll: Poll) {
    poll.lost == iset{}
  }

  ghost function Arriving(frames: seq<ChunkFrame>, lost: iset<nat>): (r: seq<ChunkFrame>) {
    if frames == [] then []
    else (if frames[0].chunkIndex in lost then [] else [frames[0]]) + Arriving(frames[1..], lost)
  }

  ghost function LossyRound(sender: Runtime, rt: Runtime, id: string, poll: Poll): (r: (Runtime, Runtime)) {
    var (asked, request) := Ops.NextRequest(rt, id, poll.now, MAX_REQUEST_BATCH);
    if request.None? then (sender, asked)
    else
      var (served, frames) := Ops.ServeChunks(sender, request.value);
      (served, if frames.Ok? then IngestAll(asked, Arriving(frames.value, poll.lost)) else asked)
  }

  ghost function LossyRounds(sender: Runtime, rt: Runtime, id: string, polls: seq<Poll>): (r: (Runtime, Runtime))
    decreases polls
  {
    if polls == [] then (sender, rt)
    else
      var (s, t) := LossyRound(sender, rt, id, polls[0]);
      LossyRounds(s, t, id, polls[1..])
  }

  /** Time does not run backwards, and a poll that is answered comes at least ten
      seconds after the last one that was not. `settled`: nothing was lost last. */
  ghost predicate Paced(polls: seq<Poll>, last: nat, settled: bool)
    decreases polls
  {
    polls == [] ||
      (&& polls[0].now >= last
       && (Answered(polls[0]) ==> settled || polls[0].now >= last + CHUNK_REQUEST_TIMEOUT)
       && Paced(polls[1..], polls[0].now, Answered(polls[0])))
  }

  ghost function AnsweredCount(polls: seq<Poll>): (n: nat) {
    if polls == [] then 0 else (if Answered(polls[0]) then 1 else 0) + AnsweredCount(polls[1..])
  }

  /** A started download of the file; its requests, if any are out, are no younger
      than `last`. */
  ghost predicate Waiting(rt: Runtime, f: File, last: nat, settled: bool) {
    var id := f.manifest.attachmentId;
    && Sound(rt) && id in rt.incoming && Faithful(rt.incoming[id], f)
    && rt.incoming[id].state == Active && rt.incoming[id].downloadStarted
    && Stamped(rt, last) && (settled ==> Ops.InFlight(rt, last) == {})
  }

  lemma WaitingEnds(rt: Runtime, f: File, last: nat, settled: bool, now: nat)
    requires Waiting(rt, f, last, settled) && now >= last && (settled || now >= last + CHUNK_REQUEST_TIMEOUT)
    ensures Quiet(rt, f, now)
  {
    StampsLast(rt, last, now);
    if settled {
      WaitingShrinks(rt, last, now);
    } else {
      TimeoutClears(rt, last, now);
    }
  }

  // ---------- an answered poll ----------

  lemma {:induction false} NothingLost(frames: seq<ChunkFrame>)
    ensures Arriving(frames, iset{}) == frames
  {
    if frames != [] {
      NothingLost(frames[1..]);
    }
  }

  lemma AnsweredIsRound(sender: Runtime, rt: Runtime, id: string, poll: Poll)
    requires Answered(poll)
    ensures LossyRound(sender, rt, id, poll) == Round(sender, rt, id, poll.now)
  {
    var (asked, request) := Ops.NextRequest(rt, id, poll.now, MAX_REQUEST_BATCH);
    if request.Some? {
      var frames := Ops.ServeChunks(sender, request.value).1;
      if frames.Ok? {
        NothingLost(frames.value);
      }
    }
  }

  // ---------- a poll whose answer is lost, or part of it ----------

  ghost function Left(indices: seq<nat>, lost: iset<nat>): (r: seq<nat>)
    ensures forall i :: i in r ==> i in indices
  {
    if indices == [] then []
    else (if indices[0] in lost then [] else [indices[0]]) + Left(indices[1..], lost)
  }

  lemma {:induction false} ArrivingFrames(f: File, indices: seq<nat>, lost: iset<nat>)
    requires Honest(f) && forall i :: i in indices ==> i < f.manifest.chunkCount
    ensures Arriving(FramesFor(f, indices), lost) == FramesFor(f, Left(indices, lost))
  {
    if indices != [] {
      var first, rest := indices[0], indices[1..];
      assert indices == [first] + rest && first in indices && forall i :: i in rest ==> i in indices;
      FirstFrame(f, first, rest);
      ArrivingFrames(f, rest, lost);
      ArrivingSplits(FrameOf(f, first), FramesFor(f, rest), lost);
      if first !in lost {
        FirstFrame(f, first, Left(rest, lost));
      }
    }
  }

  lemma ArrivingSplits(frame: ChunkFrame, rest: seq<ChunkFrame>, lost: iset<nat>)
    ensures Arriving([frame] + rest, lost) == (if frame.chunkIndex in lost then [] else [frame]) + Arriving(rest, lost)
  {
    assert ([frame] + rest)[1..] == rest;
  }

  /** What one poll makes of the transfer, whatever is lost. */
  ghost predicate Kept(sender: Runtime, rt: Runtime, f: File, now: nat) {
    var id := f.manifest.attachmentId;
    && Holds(sender, f)
    && (Done(rt, f) || Waiting(rt, f, now, false))
  }

  lemma {:induction false} LossyRoundKeeps(sender: Runtime, rt: Runtime, f: File, last: nat, settled: bool, poll: Poll)
    requires Honest(f) && Holds(sender, f) && Waiting(rt, f, last, settled) && poll.now >= last
    ensures var id := f.manifest.attachmentId;
      var (s, r) := LossyRound(sender, rt, id, poll);
      && Kept(s, r, f, poll.now)
      && id in r.incoming && Remaining(r.incoming[id]) <= Remaining(rt.incoming[id])
  {
    var id, now := f.manifest.attachmentId, poll.now;
    StampsLast(rt, last, now);
    NextRequestEffect(rt, id, now, MAX_REQUEST_BATCH);
    var batch := PollBatch(rt, f, now);
    if batch > 0 {
      var answer := RequestIndices(rt.incoming[id], now, batch);
      LossyAnswer(sender, rt, f, poll, answer.0, answer.1);
    }
  }

  /** The transfer once it has asked, and once what arrives was taken in. */
  lemma {:induction false} AskedAndTaken(t: Incoming, f: File, now: nat, batch: nat, lost: iset<nat>, u: Incoming, indices: seq<nat>)
    returns (v: Incoming)
    requires Honest(f) && Faithful(t, f) && t.state == Active && t.downloadStarted
    requires (u, indices) == RequestIndices(t, now, batch)
    ensures u == t.(requestCursor := u.requestCursor, priorityChunk := u.priorityChunk)
    ensures forall i :: i in indices ==> i < f.manifest.chunkCount
    ensures v == TakeAll(MarkRequested(u, indices, now), FramesFor(f, Left(indices, lost)))
    ensures Fuller(MarkRequested(u, indices, now), v, f)
    ensures Remaining(v) <= Remaining(t)
  {
    RequestShape(t, now, batch);
    RequestKeepsWellFormed(t, now, batch);
    var asked := MarkRequested(u, indices, now);
    AnswerIsTaken(asked, f, Left(indices, lost));
    v := TakeAll(asked, FramesFor(f, Left(indices, lost)));
    SubsetCounts(t.chunks.Keys, v.chunks.Keys);
  }

  /** The device after a poll, whatever of the answer arrives. */
  lemma {:induction false} LossyOutcome(sender: Runtime, rt: Runtime, f: File, poll: Poll, u: Incoming, indices: seq<nat>)
    requires Honest(f) && Holds(sender, f) && Waiting(rt, f, poll.now, false) && PollBatch(rt, f, poll.now) > 0
    requires (u, indices) == RequestIndices(rt.incoming[f.manifest.attachmentId], poll.now, PollBatch(rt, f, poll.now))
    requires forall i :: i in indices ==> i < f.manifest.chunkCount
    ensures var id := f.manifest.attachmentId;
      var (s, r) := LossyRound(sender, rt, id, poll);
      && Holds(s, f)
      && r == rt.(incoming := rt.incoming[id := TakeAll(MarkRequested(u, indices, poll.now), FramesFor(f, Left(indices, poll.lost)))])
  {
    var id, now := f.manifest.attachmentId, poll.now;
    NextRequestEffect(rt, id, now, MAX_REQUEST_BATCH);
    if indices != [] {
      RequestIsServedInFull(rt, id, now, MAX_REQUEST_BATCH, sender, f);
      LossyTaken(sender, rt, f, poll, MarkRequested(u, indices, now), indices);
    }
  }

  lemma {:induction false} LossyTaken(sender: Runtime, rt: Runtime, f: File, poll: Poll, asked: Incoming, indices: seq<nat>)
    requires Honest(f) && Holds(sender, f)
    requires forall i :: i in indices ==> i < f.manifest.chunkCount
    requires var id := f.manifest.attachmentId;
      && Ops.NextRequest(rt, id, poll.now, MAX_REQUEST_BATCH)
         == (rt.(incoming := rt.incoming[id := asked]), Some(ChunkRequest(id, indices)))
      && Ops.ServeChunks(sender, ChunkRequest(id, indices)).1 == Ok(FramesFor(f, indices))
    ensures var id := f.manifest.attachmentId;
      var (s, r) := LossyRound(sender, rt, id, poll);
      Holds(s, f) && r == rt.(incoming := rt.incoming[id := TakeAll(asked, FramesFor(f, Left(indices, poll.lost)))])
  {
    var id := f.manifest.attachmentId;
    ArrivingFrames(f, indices, poll.lost);
    IngestAllIsTakeAll(rt.(incoming := rt.incoming[id := asked]), id, FramesFor(f, Left(indices, poll.lost)));
    ServingKeepsHolding(sender, ChunkRequest(id, indices), f);
  }

  lemma {:induction false} LossyAnswer(sender: Runtime, rt: Runtime, f: File, poll: Poll, u: Incoming, indices: seq<nat>)
    requires Honest(f) && Holds(sender, f) && Waiting(rt, f, poll.now, false) && PollBatch(rt, f, poll.now) > 0
    requires (u, indices) == RequestIndices(rt.incoming[f.manifest.attachmentId], poll.now, PollBatch(rt, f, poll.now))
    ensures var id := f.manifest.attachmentId;
      var (s, r) := LossyRound(sender, rt, id, poll);
      && Kept(s, r, f, poll.now)
      && id in r.incoming && Remaining(r.incoming[id]) <= Remaining(rt.incoming[id])
  {
    var id, now := f.manifest.attachmentId, poll.now;
    var v := AskedAndTaken(rt.incoming[id], f, now, PollBatch(rt, f, now), poll.lost, u, indices);
    LossyOutcome(sender, rt, f, poll, u, indices);
    TakenKeepsWaiting(rt, f, now, u, indices, v);
  }

  /** Replacing one record by a well formed one with the same stamps. */
  lemma SwapKeepsTables(rt: Runtime, id: string, u: Incoming, v: Incoming, now: nat)
    requires Sound(rt) && WellFormed(v) && v.requestedAt == u.requestedAt
    requires Stamped(rt.(incoming := rt.incoming[id := u]), now)
    ensures Sound(rt.(incoming := rt.incoming[id := v])) && Stamped(rt.(incoming := rt.incoming[id := v]), now)
  {
    var marked, after := rt.(incoming := rt.incoming[id := u]), rt.(incoming := rt.incoming[id := v]);
    forall k | k in after.incoming ensures StampedBy(after.incoming[k].requestedAt, now) {
      assert k in marked.incoming && StampedBy(marked.incoming[k].requestedAt, now);
    }
  }

  lemma TakenKeepsWaiting(rt: Runtime, f: File, now: nat, u: Incoming, indices: seq<nat>, v: Incoming)
    requires Waiting(rt, f, now, false)
    requires u == rt.incoming[f.manifest.attachmentId].(requestCursor := u.requestCursor, priorityChunk := u.priorityChunk)
    requires Fuller(MarkRequested(u, indices, now), v, f)
    ensures var after := rt.(incoming := rt.incoming[f.manifest.attachmentId := v]);
      Done(after, f) || Waiting(after, f, now, false)
  {
    var id := f.manifest.attachmentId;
    var asked := MarkRequested(u, indices, now);
    MarkedInFlight(rt, id, u, indices, now);
    SwapKeepsTables(rt, id, asked, v, now);
    assert v.downloadStarted == rt.incoming[id].downloadStarted;
  }

  // ---------- the whole loop ----------

  lemma {:induction false} DoneStaysDone(sender: Runtime, rt: Runtime, f: File, polls: seq<Poll>)
    requires Done(rt, f)
    ensures LossyRounds(sender, rt, f.manifest.attachmentId, polls) == (sender, rt)
    decreases polls
  {
    if polls != [] {
      DoneStaysDone(sender, rt, f, polls[1..]);
    }
  }

  lemma PollOnce(sender: Runtime, rt: Runtime, f: File, last: nat, settled: bool, poll: Poll)
    requires Honest(f) && Holds(sender, f) && Waiting(rt, f, last, settled) && poll.now >= last
    requires Answered(poll) ==> settled || poll.now >= last + CHUNK_REQUEST_TIMEOUT
    ensures var id := f.manifest.attachmentId;
      var (s, r) := LossyRound(sender, rt, id, poll);
      && Holds(s, f)
      && (Done(r, f) || (Waiting(r, f, poll.now, Answered(poll))
                         && Remaining(r.incoming[id]) <= Remaining(rt.incoming[id]) - if Answered(poll) then 1 else 0))
  {
    if Answered(poll) {
      WaitingEnds(rt, f, last, settled, poll.now);
      AnsweredIsRound(sender, rt, f.manifest.attachmentId, poll);
      RoundAdvances(sender, rt, f, poll.now);
    } else {
      LossyRoundKeeps(sender, rt, f, last, settled, poll);
    }
  }

  /** Whatever is lost, and whatever the device was waiting for at the start: once as
      many polls were answered as chunks are missing and cursor steps are left, each
      at least ten seconds after the last loss, the file is complete. */
  lemma {:induction false} PullDeliversDespiteLoss(sender: Runtime, rt: Runtime, f: File, polls: seq<Poll>, last: nat, settled: bool)
    requires Honest(f) && Holds(sender, f) && Waiting(rt, f, last, settled) && Paced(polls, last, settled)
    requires AnsweredCount(polls) >= Remaining(rt.incoming[f.manifest.attachmentId])
    ensures var r := LossyRounds(sender, rt, f.manifest.attachmentId, polls).1;
      Done(r, f) && Join(r.incoming[f.manifest.attachmentId].chunks, 0, f.manifest.chunkCount) == f.plaintext
  {
    PullEnds(sender, rt, f, polls, last, settled);
    DoneIsTheFile(LossyRounds(sender, rt, f.manifest.attachmentId, polls).1, f);
  }

  lemma {:induction false} PullEnds(sender: Runtime, rt: Runtime, f: File, polls: seq<Poll>, last: nat, settled: bool)
    requires Honest(f) && Holds(sender, f) && Waiting(rt, f, last, settled) && Paced(polls, last, settled)
    requires AnsweredCount(polls) >= Remaining(rt.incoming[f.manifest.attachmentId])
    ensures Done(LossyRounds(sender, rt, f.manifest.attachmentId, polls).1, f)
    decreases polls
  {
    var id := f.manifest.attachmentId;
    ActiveRemains(rt.incoming[id]);
    assert polls != [];
    PollOnce(sender, rt, f, last, settled, polls[0]);
    var (s, r) := LossyRound(sender, rt, id, polls[0]);
    if Done(r, f) {
      DoneStaysDone(s, r, f, polls[1..]);
    } else {
      PullEnds(s, r, f, polls[1..], polls[0].now, Answered(polls[0]));
    }
  }
}
