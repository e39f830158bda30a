/** The pull loop ends. A device that polls for requests, against a sender that
    answers them, holds the whole file after a bounded number of polls, whatever
    it already held and whatever playback asked for. */
module AttachmentPull {
  import opened Wrappers
  import opened Primitives
  import opened AttachmentTypes
  import opened AttachmentChunks
  import opened AttachmentTransfers
  import opened AttachmentSystem
  import opened AttachmentWindow
  import opened AttachmentDelivery
  import Ops = AttachmentOperations

  function IngestAll(rt: Runtime, frames: seq<ChunkFrame>): (r: Runtime)
    decreases frames
  {
    if frames == [] then rt else IngestAll(Ops.IngestChunk(rt, frames[0]).0, frames[1..])
  }

  /** One poll: ask, let the sender answer, take in the answer. */
  function Round(sender: Runtime, rt: Runtime, id: string, now: nat): (r: (Runtime, Runtime)) {
    var (asked, request) := Ops.NextRequest(rt, id, now, MAX_REQUEST_BATCH);
    if request.None? then (sender, asked)
    else
      var (served, frames) := Ops.ServeChunks(sender, request.value);
      (served, if frames.Ok? then IngestAll(asked, frames.value) else asked)
  }

  function Rounds(sender: Runtime, rt: Runtime, id: string, times: seq<nat>): (r: (Runtime, Runtime))
    decreases times
  {
    if times == [] then (sender, rt)
    else
      var (s, t) := Round(sender, rt, id, times[0]);
      Rounds(s, t, id, times[1..])
  }

  ghost predicate Holds(sender: Runtime, f: File) {
    var id := f.manifest.attachmentId;
    && id in sender.outgoing
    && sender.outgoing[id].state == Active && sender.outgoing[id].manifest == f.manifest
    && sender.outgoing[id].plaintext == f.plaintext
    && sender.outgoing[id].key == f.key && sender.outgoing[id].prefix == f.prefix
  }

  /** A started download of the file, with no request outstanding. */
  ghost predicate Quiet(rt: Runtime, f: File, now: nat) {
    var id := f.manifest.attachmentId;
    && Sound(rt) && id in rt.incoming && Faithful(rt.incoming[id], f)
    && rt.incoming[id].state == Active && rt.incoming[id].downloadStarted
    && Stamped(rt, now) && Ops.InFlight(rt, now) == {}
  }

  ghost predicate Done(rt: Runtime, f: File) {
    var id := f.manifest.attachmentId;
    && id in rt.incoming && Faithful(rt.incoming[id], f) && rt.incoming[id].state == Complete
  }

  /** Chunks still missing plus the way the cursor still has to go. */
  ghost function Remaining(t: Incoming): (r: int) {
    (t.manifest.chunkCount - |t.chunks|) + (t.manifest.chunkCount - t.requestCursor)
  }

  /** u is t after some more of the file came in. */
  ghost predicate Fuller(t: Incoming, u: Incoming, f: File) {
    && Faithful(u, f)
    && u == t.(chunks := u.chunks, state := u.state)
    && t.chunks.Keys <= u.chunks.Keys
    && (u.state == Active || u.state == Complete)
  }

  lemma {:induction false} GenuineFrameIsTaken(t: Incoming, f: File, i: nat)
    requires Honest(f) && Faithful(t, f) && (t.state == Active || t.state == Complete) && i < f.manifest.chunkCount
    ensures Fuller(t, Ops.Ingested(t, FrameOf(f, i)).0, f)
    ensures Ops.Ingested(t, FrameOf(f, i)).0.chunks.Keys == t.chunks.Keys + {i}
  {
    var frame := FrameOf(f, i);
    SliceHasExpectedLength(f.manifest, f.plaintext, i);
    IngestKeepsWellFormed(t, frame);
    IngestStaysGenuine(t, frame, f);
    IngestEffect(t, frame);
    GenuineFrameCannotFail(t, frame, f);
    if t.state == Complete {
      CountMeansAll(t);
    }
  }

  function TakeAll(t: Incoming, frames: seq<ChunkFrame>): (u: Incoming)
    decreases frames
  {
    if frames == [] then t else TakeAll(Ops.Ingested(t, frames[0]).0, frames[1..])
  }

  /** Frames of one transfer touch nothing else on the device. */
  lemma {:induction false} IngestAllIsTakeAll(rt: Runtime, id: string, frames: seq<ChunkFrame>)
    requires id in rt.incoming && forall k :: 0 <= k < |frames| ==> frames[k].attachmentId == id
    ensures IngestAll(rt, frames) == rt.(incoming := rt.incoming[id := TakeAll(rt.incoming[id], frames)])
    decreases frames
  {
    if frames == [] {
      assert rt.incoming == rt.incoming[id := rt.incoming[id]];
    } else {
      IngestAllIsTakeAll(Ops.IngestChunk(rt, frames[0]).0, id, frames[1..]);
    }
  }

  function Named(indices: seq<nat>): (r: set<nat>) {
    set i | i in indices
  }

  lemma FirstFrame(f: File, first: nat, rest: seq<nat>)
    requires Honest(f) && first < f.manifest.chunkCount && forall i :: i in rest ==> i < f.manifest.chunkCount
    ensures FramesFor(f, [first] + rest) == [FrameOf(f, first)] + FramesFor(f, rest)
  {
    var all, tail := FramesFor(f, [first] + rest), FramesFor(f, rest);
    forall k | 0 <= k < |rest| ensures all[k + 1] == tail[k] {
      assert ([first] + rest)[k + 1] == rest[k];
    }
    LedBy(all, FrameOf(f, first), tail);
  }

  lemma LedBy(all: seq<ChunkFrame>, first: ChunkFrame, tail: seq<ChunkFrame>)
    requires |all| == |tail| + 1 && all[0] == first
    requires forall k :: 0 <= k < |tail| ==> all[k + 1] == tail[k]
    ensures all == [first] + tail
  {
  }

  lemma FullerStill(t: Incoming, u: Incoming, v: Incoming, f: File)
    requires Fuller(t, u, f) && Fuller(u, v, f)
    ensures Fuller(t, v, f)
  {
  }

  lemma NamedInTurn(held: set<nat>, first: nat, rest: seq<nat>)
    ensures held + {first} + Named(rest) == held + Named([first] + rest)
  {
    assert forall i :: i in [first] + rest <==> i == first || i in rest;
  }

  lemma TakeFirst(t: Incoming, f: File, first: nat, rest: seq<nat>)
    requires Honest(f) && first < f.manifest.chunkCount && forall i :: i in rest ==> i < f.manifest.chunkCount
    ensures TakeAll(t, FramesFor(f, [first] + rest)) == TakeAll(Ops.Ingested(t, FrameOf(f, first)).0, FramesFor(f, rest))
  {
    FirstFrame(f, first, rest);
  }

  lemma {:induction false} AnswerIsTaken(t: Incoming, f: File, indices: seq<nat>)
    requires Honest(f) && forall i :: i in indices ==> i < f.manifest.chunkCount
    requires Faithful(t, f) && (t.state == Active || t.state == Complete)
    ensures var u := TakeAll(t, FramesFor(f, indices));
      Fuller(t, u, f) && u.chunks.Keys == t.chunks.Keys + Named(indices)
    decreases indices, 0
  {
    if indices == [] {
      assert Named([]) == {};
    } else {
      var first, rest := indices[0], indices[1..];
      assert indices == [first] + rest && first in indices;
      assert forall i :: i in rest ==> i in indices;
      TakeOneMore(t, f, first, rest);
    }
  }

  lemma {:induction false} TakeOneMore(t: Incoming, f: File, first: nat, rest: seq<nat>)
    requires Honest(f) && first < f.manifest.chunkCount && forall i :: i in rest ==> i < f.manifest.chunkCount
    requires Faithful(t, f) && (t.state == Active || t.state == Complete)
    ensures var u := TakeAll(t, FramesFor(f, [first] + rest));
      Fuller(t, u, f) && u.chunks.Keys == t.chunks.Keys + Named([first] + rest)
    decreases rest, 1
  {
    var u := Ops.Ingested(t, FrameOf(f, first)).0;
    GenuineFrameIsTaken(t, f, first);
    AnswerIsTaken(u, f, rest);
    TakeFirst(t, f, first, rest);
    FullerStill(t, u, TakeAll(u, FramesFor(f, rest)), f);
    NamedInTurn(t.chunks.Keys, first, rest);
  }

  lemma ServingKeepsHolding(sender: Runtime, request: ChunkRequest, f: File)
    requires Holds(sender, f) && request.attachmentId == f.manifest.attachmentId
    ensures Holds(Ops.ServeChunks(sender, request).0, f)
  {
    var o := sender.outgoing[request.attachmentId];
    ServedKeepsRecord(o, request.attachmentId,
                      request.chunkIndices[..Min(|request.chunkIndices|, RequestBatch(o.manifest.chunkSize))]);
  }

  lemma {:induction false} ServedKeepsRecord(o: Outgoing, id: string, indices: seq<nat>)
    ensures var u := Ops.Served(o, id, indices).0; u == o.(servedChunks := u.servedChunks)
  {
    if indices != [] {
      ServedKeepsRecord(o, id, indices[..|indices| - 1]);
    }
  }

  /** A poll, seen from the transfer: it is asked for chunks, and takes the answer in. */
  lemma {:induction false} RoundOutcome(sender: Runtime, rt: Runtime, f: File, now: nat)
    returns (u: Incoming, indices: seq<nat>)
    requires Honest(f) && Holds(sender, f) && Quiet(rt, f, now)
    ensures (u, indices) == RequestIndices(rt.incoming[f.manifest.attachmentId], now, PollBatch(rt, f, now))
    ensures forall i :: i in indices ==> i < f.manifest.chunkCount
    ensures var (s, r) := Round(sender, rt, f.manifest.attachmentId, now);
      && Holds(s, f)
      && r == rt.(incoming := rt.incoming[f.manifest.attachmentId := TakeAll(MarkRequested(u, indices, now), FramesFor(f, indices))])
  {
    var id := f.manifest.attachmentId;
    var batch := PollBatch(rt, f, now);
    RequestShape(rt.incoming[id], now, batch);
    NextRequestEffect(rt, id, now, MAX_REQUEST_BATCH);
    var answer := RequestIndices(rt.incoming[id], now, batch);
    u, indices := answer.0, answer.1;
    if indices != [] {
      RequestIsServedInFull(rt, id, now, MAX_REQUEST_BATCH, sender, f);
      AnsweredRound(sender, rt, f, now, MarkRequested(u, indices, now), indices);
    }
  }

  ghost function PollBatch(rt: Runtime, f: File, now: nat): (batch: nat)
    requires f.manifest.attachmentId in rt.incoming
  {
    Min(Min(MAX_REQUEST_BATCH, Ops.AvailableSlots(rt, now)), RequestBatch(rt.incoming[f.manifest.attachmentId].manifest.chunkSize))
  }

  lemma {:induction false} AnsweredRound(sender: Runtime, rt: Runtime, f: File, now: nat, asked: Incoming, indices: seq<nat>)
    requires Honest(f) && Holds(sender, f)
    requires forall i :: i in indices ==> i < f.manifest.chunkCount
    requires var id := f.manifest.attachmentId;
      && Ops.NextRequest(rt, id, now, MAX_REQUEST_BATCH)
         == (rt.(incoming := rt.incoming[id := asked]), Some(ChunkRequest(id, indices)))
      && Ops.ServeChunks(sender, ChunkRequest(id, indices)).1 == Ok(FramesFor(f, indices))
    ensures var (s, r) := Round(sender, rt, f.manifest.attachmentId, now);
      && Holds(s, f)
      && r == rt.(incoming := rt.incoming[f.manifest.attachmentId := TakeAll(asked, FramesFor(f, indices))])
  {
    var id := f.manifest.attachmentId;
    var next := rt.(incoming := rt.incoming[id := asked]);
    IngestAllIsTakeAll(next, id, FramesFor(f, indices));
    ServingKeepsHolding(sender, ChunkRequest(id, indices), f);
  }

  /** The transfer after a poll: more of the file, or a cursor further on. */
  lemma {:induction false} TransferAdvances(t: Incoming, f: File, now: nat, batch: nat, u: Incoming, indices: seq<nat>)
    returns (v: Incoming)
    requires Honest(f) && Faithful(t, f) && t.state == Active && t.downloadStarted && batch > 0
    requires forall i :: !Outstanding(t, i, now)
    requires (u, indices) == RequestIndices(t, now, batch)
    ensures forall i :: i in indices ==> i < f.manifest.chunkCount
    ensures v == TakeAll(MarkRequested(u, indices, now), FramesFor(f, indices))
    ensures Fuller(MarkRequested(u, indices, now), v, f)
    ensures forall i :: i in indices ==> i in v.chunks
    ensures Remaining(v) < Remaining(t)
  {
    RequestMakesProgress(t, now, batch);
    RequestShape(t, now, batch);
    RequestKeepsWellFormed(t, now, batch);
    var asked := MarkRequested(u, indices, now);
    AnswerIsTaken(asked, f, indices);
    v := TakeAll(asked, FramesFor(f, indices));
    MoreChunks(t.chunks, v.chunks, indices);
  }

  lemma MoreChunks(before: map<nat, Bytes>, after: map<nat, Bytes>, indices: seq<nat>)
    requires before.Keys <= after.Keys
    requires forall i :: i in indices ==> i in after && i !in before
    ensures |after| >= |before| + if indices == [] then 0 else 1
  {
    if indices != [] {
      assert indices[0] in indices;
      SubsetCounts(before.Keys + {indices[0]}, after.Keys);
    } else {
      SubsetCounts(before.Keys, after.Keys);
    }
  }

  /** Once the answer is in, nothing is outstanding again. */
  lemma {:induction false} QuietAgain(rt: Runtime, id: string, u: Incoming, v: Incoming, indices: seq<nat>, now: nat)
    requires id in rt.incoming && Stamped(rt, now) && Ops.InFlight(rt, now) == {}
    requires rt.incoming[id].downloadStarted && rt.incoming[id].state == Active
    requires u == rt.incoming[id].(requestCursor := u.requestCursor, priorityChunk := u.priorityChunk)
    requires var asked := MarkRequested(u, indices, now);
      v == asked.(chunks := v.chunks, state := v.state) && asked.chunks.Keys <= v.chunks.Keys
    requires forall i :: i in indices ==> i in v.chunks
    ensures var r := rt.(incoming := rt.incoming[id := v]);
      Stamped(r, now) && Ops.InFlight(r, now) == {}
  {
    var r := rt.(incoming := rt.incoming[id := v]);
    MarkedInFlight(rt, id, u, indices, now);
    forall k, i ensures (k, i) !in Ops.InFlight(r, now) {
      assert (k, i) !in Ops.InFlight(rt, now);
    }
  }

  lemma {:induction false} RoundAdvances(sender: Runtime, rt: Runtime, f: File, now: nat)
    requires Honest(f) && Holds(sender, f) && Quiet(rt, f, now)
    ensures var id := f.manifest.attachmentId;
      var (s, r) := Round(sender, rt, id, now);
      && Holds(s, f)
      && (Done(r, f) || (Quiet(r, f, now) && Remaining(r.incoming[id]) < Remaining(rt.incoming[id])))
  {
    var id := f.manifest.attachmentId;
    var t := rt.incoming[id];
    var batch := PollBatch(rt, f, now);
    NothingOutstanding(rt, id, now);
    var u, indices := RoundOutcome(sender, rt, f, now);
    RequestShape(t, now, batch);
    var v := TransferAdvances(t, f, now, batch, u, indices);
    QuietAgain(rt, id, u, v, indices, now);
    assert Sound(rt.(incoming := rt.incoming[id := v]));
  }

  lemma NothingOutstanding(rt: Runtime, id: string, now: nat)
    requires id in rt.incoming && rt.incoming[id].downloadStarted && rt.incoming[id].state == Active
    requires Ops.InFlight(rt, now) == {}
    ensures forall i :: !Outstanding(rt.incoming[id], i, now)
  {
    forall i: nat ensures !Outstanding(rt.incoming[id], i, now) {
      assert (id, i) !in Ops.InFlight(rt, now);
    }
  }

  ghost predicate Nondecreasing(times: seq<nat>) {
    forall i, j :: 0 <= i <= j < |times| ==> times[i] <= times[j]
  }

  /** The pull loop ends in the sender's file: at any nondecreasing poll times,
      as many polls as chunks are missing plus cursor steps are left suffice. */
  lemma {:induction false} PullDelivers(sender: Runtime, rt: Runtime, f: File, times: seq<nat>)
    requires Honest(f) && Holds(sender, f) && times != [] && Quiet(rt, f, times[0])
    requires Nondecreasing(times)
    requires |times| >= Remaining(rt.incoming[f.manifest.attachmentId])
    ensures var r := Rounds(sender, rt, f.manifest.attachmentId, times).1;
      Done(r, f) && Join(r.incoming[f.manifest.attachmentId].chunks, 0, f.manifest.chunkCount) == f.plaintext
  {
    QuietPullEnds(sender, rt, f, times);
    DoneIsTheFile(Rounds(sender, rt, f.manifest.attachmentId, times).1, f);
  }

  lemma {:induction false} QuietPullEnds(sender: Runtime, rt: Runtime, f: File, times: seq<nat>)
    requires Honest(f) && Holds(sender, f) && times != [] && Quiet(rt, f, times[0])
    requires Nondecreasing(times)
    requires |times| >= Remaining(rt.incoming[f.manifest.attachmentId])
    ensures Done(Rounds(sender, rt, f.manifest.attachmentId, times).1, f)
    decreases times
  {
    var id := f.manifest.attachmentId;
    var now, later := times[0], times[1..];
    RoundAdvances(sender, rt, f, now);
    var (s, r) := Round(sender, rt, id, now);
    if Done(r, f) {
      DoneStays(s, r, f, later);
    } else {
      ActiveRemains(r.incoming[id]);
      QuietLater(r, f, now, later[0]);
      LaterInOrder(times);
      QuietPullEnds(s, r, f, later);
    }
  }

  lemma ActiveRemains(t: Incoming)
    requires WellFormed(t) && t.state == Active
    ensures Remaining(t) > 0
  {
  }

  lemma LaterInOrder(times: seq<nat>)
    requires times != [] && Nondecreasing(times)
    ensures Nondecreasing(times[1..])
  {
    var later := times[1..];
    forall i, j | 0 <= i <= j < |later| ensures later[i] <= later[j] {
      assert later[i] == times[i + 1] && later[j] == times[j + 1];
    }
  }

  lemma DoneIsTheFile(rt: Runtime, f: File)
    requires Honest(f) && Done(rt, f)
    ensures Join(rt.incoming[f.manifest.attachmentId].chunks, 0, f.manifest.chunkCount) == f.plaintext
  {
    AllChunksJoin(rt.incoming[f.manifest.attachmentId], f);
  }

  lemma QuietLater(rt: Runtime, f: File, now: nat, later: nat)
    requires Quiet(rt, f, now) && now <= later
    ensures Quiet(rt, f, later)
  {
    WaitingShrinks(rt, now, later);
    StampsLast(rt, now, later);
  }

  lemma {:induction false} DoneStays(sender: Runtime, rt: Runtime, f: File, times: seq<nat>)
    requires Done(rt, f)
    ensures Rounds(sender, rt, f.manifest.attachmentId, times) == (sender, rt)
    decreases times
  {
    if times != [] {
      DoneStays(sender, rt, f, times[1..]);
    }
  }
}
