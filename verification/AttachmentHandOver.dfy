/** From file to file: a prepared file is handed over once, to the byte, whatever is
    lost on the way; and on a quiet device each poll brings the next window of it. */
module AttachmentHandOver {
  import opened Wrappers
  import opened Primitives
  import opened AttachmentTypes
  import opened AttachmentChunks
  import opened AttachmentTransfers
  import opened AttachmentSystem
  import opened AttachmentWindow
  import opened AttachmentDelivery
  import opened AttachmentPull
  import opened AttachmentLoss
  import Ops = AttachmentOperations

  type Answer = Result<ChunkOutcome, AttachmentError>

  // ---------- what the frames of a pull are answered ----------

  ghost function Answers(rt: Runtime, frames: seq<ChunkFrame>): (r: seq<Answer>)
    decreases frames
  {
    if frames == [] then []
    else [Ops.IngestChunk(rt, frames[0]).1] + Answers(Ops.IngestChunk(rt, frames[0]).0, frames[1..])
  }

  ghost function PollAnswers(sender: Runtime, rt: Runtime, id: string, poll: Poll): (r: seq<Answer>) {
    var (asked, request) := Ops.NextRequest(rt, id, poll.now, MAX_REQUEST_BATCH);
    if request.None? then []
    else
      var frames := Ops.ServeChunks(sender, request.value).1;
      if frames.Ok? then Answers(asked, Arriving(frames.value, poll.lost)) else []
  }

  ghost function PullAnswers(sender: Runtime, rt: Runtime, id: string, polls: seq<Poll>): (r: seq<Answer>)
    decreases polls
  {
    if polls == [] then []
    else
      var (s, t) := LossyRound(sender, rt, id, polls[0]);
      PollAnswers(sender, rt, id, polls[0]) + PullAnswers(s, t, id, polls[1..])
  }

  predicate HandsOver(answer: Answer) {
    answer.Ok? && answer.value.Completed?
  }

  /** The answers that hand over a file. */
  ghost function HandOvers(answers: seq<Answer>): (r: seq<ChunkOutcome>) {
    if answers == [] then []
    else (if HandsOver(answers[0]) then [answers[0].value] else []) + HandOvers(answers[1..])
  }

  lemma HandOversNext(answer: Answer, rest: seq<Answer>)
    ensures HandOvers([answer] + rest) == (if HandsOver(answer) then [answer.value] else []) + HandOvers(rest)
  {
    assert ([answer] + rest)[1..] == rest;
  }

  lemma {:induction false} HandOversOfBoth(first: seq<Answer>, second: seq<Answer>)
    ensures HandOvers(first + second) == HandOvers(first) + HandOvers(second)
  {
    if first == [] {
      assert first + second == second;
    } else {
      var rest := first[1..];
      assert first == [first[0]] + rest;
      assert first + second == [first[0]] + (rest + second);
      HandOversNext(first[0], rest);
      HandOversNext(first[0], rest + second);
      HandOversOfBoth(rest, second);
    }
  }

  function TheFile(f: File): (r: ChunkOutcome) {
    Completed(f.manifest.attachmentId, Sha256(f.plaintext), f.plaintext)
  }

  lemma FrameHandsOver(t: Incoming, f: File, i: nat)
    requires Honest(f) && Faithful(t, f) && (t.state == Active || t.state == Complete) && i < f.manifest.chunkCount
    ensures var (u, answer) := Ops.Ingested(t, FrameOf(f, i));
      && (HandsOver(answer) <==> t.state == Active && u.state == Complete)
      && (HandsOver(answer) ==> answer.value == TheFile(f))
      && (t.state == Complete ==> u.state == Complete)
  {
    SliceHasExpectedLength(f.manifest, f.plaintext, i);
    IngestIsFaithful(t, FrameOf(f, i), f);
    IngestEffect(t, FrameOf(f, i));
    GenuineFrameIsTaken(t, f, i);
  }

  ghost predicate Taking(rt: Runtime, f: File) {
    var id := f.manifest.attachmentId;
    id in rt.incoming && Faithful(rt.incoming[id], f) && (rt.incoming[id].state == Active || rt.incoming[id].state == Complete)
  }

  /** The frames of one answer hand the file over exactly when they complete it. */
  lemma {:induction false} AnswerHandsOver(rt: Runtime, f: File, indices: seq<nat>)
    requires Honest(f) && Taking(rt, f) && forall i :: i in indices ==> i < f.manifest.chunkCount
    ensures var t := rt.incoming[f.manifest.attachmentId];
      HandOvers(Answers(rt, FramesFor(f, indices)))
      == if t.state == Active && TakeAll(t, FramesFor(f, indices)).state == Complete then [TheFile(f)] else []
    decreases indices, 0
  {
    if indices != [] {
      assert indices == [indices[0]] + indices[1..] && indices[0] in indices;
      assert forall i :: i in indices[1..] ==> i in indices;
      OneMoreHandsOver(rt, f, indices[0], indices[1..]);
    }
  }

  lemma {:induction false} OneMoreHandsOver(rt: Runtime, f: File, first: nat, rest: seq<nat>)
    requires Honest(f) && Taking(rt, f)
    requires first < f.manifest.chunkCount && forall i :: i in rest ==> i < f.manifest.chunkCount
    ensures var t := rt.incoming[f.manifest.attachmentId];
      HandOvers(Answers(rt, FramesFor(f, [first] + rest)))
      == if t.state == Active && TakeAll(t, FramesFor(f, [first] + rest)).state == Complete then [TheFile(f)] else []
    decreases rest, 1
  {
    var id := f.manifest.attachmentId;
    var t := rt.incoming[id];
    var next := Ops.IngestChunk(rt, FrameOf(f, first)).0;
    GenuineFrameIsTaken(t, f, first);
    FrameHandsOver(t, f, first);
    AnswerHandsOver(next, f, rest);
    TakeFirst(t, f, first, rest);
    FirstAnswer(rt, f, first, rest);
    if next.incoming[id].state == Complete {
      StaysComplete(next.incoming[id], f, rest);
    }
  }

  lemma FirstAnswer(rt: Runtime, f: File, first: nat, rest: seq<nat>)
    requires Honest(f) && first < f.manifest.chunkCount && forall i :: i in rest ==> i < f.manifest.chunkCount
    ensures var (next, answer) := Ops.IngestChunk(rt, FrameOf(f, first));
      HandOvers(Answers(rt, FramesFor(f, [first] + rest)))
      == (if HandsOver(answer) then [answer.value] else []) + HandOvers(Answers(next, FramesFor(f, rest)))
  {
    FirstFrame(f, first, rest);
    var frames := FramesFor(f, rest);
    assert ([FrameOf(f, first)] + frames)[1..] == frames;
    var (next, answer) := Ops.IngestChunk(rt, FrameOf(f, first));
    assert ([answer] + Answers(next, frames))[1..] == Answers(next, frames);
  }

  lemma {:induction false} StaysComplete(t: Incoming, f: File, indices: seq<nat>)
    requires Honest(f) && Faithful(t, f) && t.state == Complete && forall i :: i in indices ==> i < f.manifest.chunkCount
    ensures TakeAll(t, FramesFor(f, indices)).state == Complete
    decreases indices
  {
    if indices != [] {
      assert indices == [indices[0]] + indices[1..] && indices[0] in indices;
      assert forall i :: i in indices[1..] ==> i in indices;
      TakeFirst(t, f, indices[0], indices[1..]);
      StaysComplete(t, f, indices[1..]);
    }
  }

  // ---------- the pull hands over once ----------

  ghost predicate InOrder(polls: seq<Poll>, last: nat)
    decreases polls
  {
    polls == [] || (polls[0].now >= last && InOrder(polls[1..], polls[0].now))
  }

  lemma {:induction false} PacedIsInOrder(polls: seq<Poll>, last: nat, settled: bool)
    requires Paced(polls, last, settled)
    ensures InOrder(polls, last)
    decreases polls
  {
    if polls != [] {
      PacedIsInOrder(polls[1..], polls[0].now, Answered(polls[0]));
    }
  }

  lemma {:induction false} PollHandsOver(sender: Runtime, rt: Runtime, f: File, last: nat, poll: Poll)
    requires Honest(f) && Holds(sender, f) && Waiting(rt, f, last, false) && poll.now >= last
    ensures var id := f.manifest.attachmentId;
      HandOvers(PollAnswers(sender, rt, id, poll))
      == if Done(LossyRound(sender, rt, id, poll).1, f) then [TheFile(f)] else []
  {
    var id, now := f.manifest.attachmentId, poll.now;
    LossyRoundKeeps(sender, rt, f, last, false, poll);
    StampsLast(rt, last, now);
    NextRequestEffect(rt, id, now, MAX_REQUEST_BATCH);
    var batch := PollBatch(rt, f, now);
    if batch > 0 {
      var (u, indices) := RequestIndices(rt.incoming[id], now, batch);
      var v := AskedAndTaken(rt.incoming[id], f, now, batch, poll.lost, u, indices);
      LossyOutcome(sender, rt, f, poll, u, indices);
      if indices != [] {
        RequestIsServedInFull(rt, id, now, MAX_REQUEST_BATCH, sender, f);
        ArrivingFrames(f, indices, poll.lost);
        RequestKeepsWellFormed(rt.incoming[id], now, batch);
        AnswerHandsOver(Ops.NextRequest(rt, id, now, MAX_REQUEST_BATCH).0, f, Left(indices, poll.lost));
      }
    }
  }

  /** A finished pull asks for nothing, so it is answered nothing. */
  lemma {:induction false} DoneAnswersNothing(sender: Runtime, rt: Runtime, f: File, polls: seq<Poll>)
    requires Done(rt, f)
    ensures PullAnswers(sender, rt, f.manifest.attachmentId, polls) == []
    decreases polls
  {
    if polls != [] {
      DoneAnswersNothing(sender, rt, f, polls[1..]);
    }
  }

  /** Whatever is lost, and however often the device polls: the answers hand the
      sender's file over once if the download completed, and nothing before that. */
  lemma {:induction false} HandedOverOnce(sender: Runtime, rt: Runtime, f: File, polls: seq<Poll>, last: nat)
    requires Honest(f) && Holds(sender, f) && Waiting(rt, f, last, false) && InOrder(polls, last)
    ensures var id := f.manifest.attachmentId;
      HandOvers(PullAnswers(sender, rt, id, polls))
      == if Done(LossyRounds(sender, rt, id, polls).1, f) then [TheFile(f)] else []
    decreases polls
  {
    if polls != [] {
      var id := f.manifest.attachmentId;
      var (s, r) := LossyRound(sender, rt, id, polls[0]);
      LossyRoundKeeps(sender, rt, f, last, false, polls[0]);
      PollHandsOver(sender, rt, f, last, polls[0]);
      HandOversOfBoth(PollAnswers(sender, rt, id, polls[0]), PullAnswers(s, r, id, polls[1..]));
      if Done(r, f) {
        DoneStaysDone(s, r, f, polls[1..]);
        DoneAnswersNothing(s, r, f, polls[1..]);
      } else {
        HandedOverOnce(s, r, f, polls[1..], polls[0].now);
      }
    }
  }

  // ---------- each poll brings the next window ----------

  /** The first n chunks are here, and no more. */
  ghost predicate Swept(t: Incoming, f: File, n: nat) {
    && Faithful(t, f) && n <= f.manifest.chunkCount && (t.state == Active || t.state == Complete)
    && t.downloadStarted && t.priorityChunk == None && t.requestCursor == n
    && t.chunks.Keys == Range(0, n)
  }

  lemma {:induction false} SweepAsks(t: Incoming, f: File, n: nat, now: nat, batch: nat)
    requires Swept(t, f, n) && n < f.manifest.chunkCount && batch > 0
    requires forall i :: !Outstanding(t, i, now)
    ensures var (u, indices) := RequestIndices(t, now, batch);
      var end := Min(n + batch, f.manifest.chunkCount);
      && u == t.(requestCursor := end)
      && Named(indices) == Range(n, end)
  {
    var end := Min(n + batch, f.manifest.chunkCount);
    forall i | 0 <= i < n ensures !Wanted(t, i, now) {
      assert i in t.chunks.Keys;
    }
    NoneToAsk(t, 0, n, now, batch);
    SweepWantsAll(t, n, end, now, batch);
  }

  lemma {:induction false} NoneToAsk(t: Incoming, lo: nat, hi: nat, now: nat, batch: nat)
    requires forall i :: lo <= i < hi ==> !Wanted(t, i, now)
    ensures FirstWanted(t, lo, hi, now, batch) == []
    decreases hi - lo
  {
    if lo < hi {
      NoneToAsk(t, lo + 1, hi, now, batch);
    }
  }

  lemma {:induction false} SweepWantsAll(t: Incoming, n: nat, end: nat, now: nat, batch: nat)
    requires t.chunks.Keys == Range(0, n) && n <= end <= n + batch
    requires forall i :: !Outstanding(t, i, now)
    ensures Named(FirstWanted(t, n, end, now, batch)) == Range(n, end)
  {
    var asked := FirstWanted(t, n, end, now, batch);
    FirstWantedIsExact(t, n, end, now, batch);
    forall i | n <= i < end ensures i in asked {
      assert !Outstanding(t, i, now) && i !in t.chunks.Keys;
      assert Wanted(t, i, now);
      if i !in asked {
        BatchCoversInterval(asked, n, i);
      }
    }
  }

  lemma {:induction false} SweepTakes(t: Incoming, f: File, n: nat, now: nat, batch: nat, u: Incoming, indices: seq<nat>)
    requires Honest(f) && Swept(t, f, n) && n < f.manifest.chunkCount && batch > 0
    requires forall i :: !Outstanding(t, i, now)
    requires (u, indices) == RequestIndices(t, now, batch)
    requires forall i :: i in indices ==> i < f.manifest.chunkCount
    ensures Swept(TakeAll(MarkRequested(u, indices, now), FramesFor(f, indices)), f, Min(n + batch, f.manifest.chunkCount))
  {
    SweptIsNotDone(t, f, n);
    SweepAsks(t, f, n, now, batch);
    RequestKeepsWellFormed(t, now, batch);
    AnswerIsTaken(MarkRequested(u, indices, now), f, indices);
    SweptOn(t, TakeAll(MarkRequested(u, indices, now), FramesFor(f, indices)), f, n, now, indices, Min(n + batch, f.manifest.chunkCount));
  }

  lemma SweptOn(t: Incoming, v: Incoming, f: File, n: nat, now: nat, indices: seq<nat>, end: nat)
    requires Swept(t, f, n) && n <= end <= f.manifest.chunkCount && Named(indices) == Range(n, end)
    requires var asked := MarkRequested(t.(requestCursor := end), indices, now);
      Fuller(asked, v, f) && v.chunks.Keys == asked.chunks.Keys + Named(indices)
    ensures Swept(v, f, end)
  {
    RangesJoin(n, end);
  }

  lemma RangesJoin(n: nat, end: nat)
    requires n <= end
    ensures Range(0, n) + Range(n, end) == Range(0, end)
  {
  }

  lemma {:induction false} SweepPoll(sender: Runtime, rt: Runtime, f: File, n: nat, now: nat)
    requires Honest(f) && Holds(sender, f) && Quiet(rt, f, now)
    requires Swept(rt.incoming[f.manifest.attachmentId], f, n)
    ensures var id := f.manifest.attachmentId;
      var (s, r) := Round(sender, rt, id, now);
      && id in r.incoming
      && Swept(r.incoming[id], f, Min(n + RequestBatch(f.manifest.chunkSize), f.manifest.chunkCount))
  {
    var id := f.manifest.attachmentId;
    var t := rt.incoming[id];
    NothingOutstanding(rt, id, now);
    SweptIsNotDone(t, f, n);
    assert PollBatch(rt, f, now) == RequestBatch(f.manifest.chunkSize);
    var u, indices := RoundOutcome(sender, rt, f, now);
    SweepTakes(t, f, n, now, PollBatch(rt, f, now), u, indices);
  }

  lemma SweptIsNotDone(t: Incoming, f: File, n: nat)
    requires Swept(t, f, n)
    ensures t.state == Complete <==> n == f.manifest.chunkCount
    ensures |t.chunks| == n
  {
    assert |t.chunks| == |t.chunks.Keys| == n;
  }

  /** How far `times` polls get from n. */
  function Reach(n: nat, times: nat, batch: nat, count: nat): (r: nat) {
    if times == 0 then n else Min(Reach(n, times - 1, batch, count) + batch, count)
  }

  lemma {:induction false} ReachAgain(n: nat, times: nat, batch: nat, count: nat)
    ensures Reach(Min(n + batch, count), times, batch, count) == Reach(n, times + 1, batch, count)
  {
    if times > 0 {
      ReachAgain(n, times - 1, batch, count);
    }
  }

  lemma {:induction false} ReachIsProduct(n: nat, times: nat, batch: nat, count: nat)
    requires n <= count
    ensures Reach(n, times, batch, count) == Min(n + times * batch, count)
  {
    if times > 0 {
      ReachIsProduct(n, times - 1, batch, count);
      assert times * batch == (times - 1) * batch + batch;
    }
  }

  /** One poll, and the polls after it. */
  lemma RoundsFirst(sender: Runtime, rt: Runtime, id: string, times: seq<nat>)
    requires times != []
    ensures var (s, r) := Round(sender, rt, id, times[0]);
      Rounds(sender, rt, id, times) == Rounds(s, r, id, times[1..])
  {
  }

  ghost predicate SweptBy(rt: Runtime, f: File, n: nat, times: nat) {
    var id := f.manifest.attachmentId;
    && id in rt.incoming
    && Swept(rt.incoming[id], f, Reach(n, times, RequestBatch(f.manifest.chunkSize), f.manifest.chunkCount))
  }

  lemma SweepEnds(s: Runtime, r: Runtime, f: File, n: nat, times: seq<nat>)
    requires Done(r, f) && Swept(r.incoming[f.manifest.attachmentId], f, n)
    ensures SweptBy(Rounds(s, r, f.manifest.attachmentId, times).1, f, n, |times|)
  {
    SweptIsNotDone(r.incoming[f.manifest.attachmentId], f, n);
    DoneStays(s, r, f, times);
    StaysAtTheEnd(|times|, RequestBatch(f.manifest.chunkSize), f.manifest.chunkCount);
  }

  /** Between two polls of a sweep. */
  ghost predicate Sweeping(sender: Runtime, rt: Runtime, f: File, n: nat, now: nat) {
    && Honest(f) && Holds(sender, f) && (Done(rt, f) || Quiet(rt, f, now))
    && f.manifest.attachmentId in rt.incoming && Swept(rt.incoming[f.manifest.attachmentId], f, n)
  }

  lemma SweepOnce(sender: Runtime, rt: Runtime, f: File, n: nat, last: nat, now: nat) returns (s: Runtime, r: Runtime)
    requires Sweeping(sender, rt, f, n, last) && !Done(rt, f) && last <= now
    ensures (s, r) == Round(sender, rt, f.manifest.attachmentId, now)
    ensures Sweeping(s, r, f, Min(n + RequestBatch(f.manifest.chunkSize), f.manifest.chunkCount), now)
  {
    var round := Round(sender, rt, f.manifest.attachmentId, now);
    s, r := round.0, round.1;
    QuietLater(rt, f, last, now);
    RoundAdvances(sender, rt, f, now);
    SweepPoll(sender, rt, f, n, now);
  }

  lemma SweptFurther(rt: Runtime, f: File, n: nat, times: nat)
    ensures SweptBy(rt, f, n, times + 1)
            <==> SweptBy(rt, f, Min(n + RequestBatch(f.manifest.chunkSize), f.manifest.chunkCount), times)
  {
    ReachAgain(n, times, RequestBatch(f.manifest.chunkSize), f.manifest.chunkCount);
  }

  /** As many polls, as many windows. */
  lemma {:induction false} PollsSweep(sender: Runtime, rt: Runtime, f: File, n: nat, last: nat, times: seq<nat>)
    requires Sweeping(sender, rt, f, n, last) && Nondecreasing([last] + times)
    ensures SweptBy(Rounds(sender, rt, f.manifest.attachmentId, times).1, f, n, |times|)
    decreases times
  {
    if Done(rt, f) {
      SweepEnds(sender, rt, f, n, times);
    } else if times != [] {
      InOrderFrom(last, times);
      var s, r := SweepOnce(sender, rt, f, n, last, times[0]);
      PollsSweep(s, r, f, Min(n + RequestBatch(f.manifest.chunkSize), f.manifest.chunkCount), times[0], times[1..]);
      RoundsFirst(sender, rt, f.manifest.attachmentId, times);
      SweptFurther(Rounds(s, r, f.manifest.attachmentId, times[1..]).1, f, n, |times| - 1);
    }
  }

  lemma InOrderFrom(last: nat, times: seq<nat>)
    requires times != [] && Nondecreasing([last] + times)
    ensures last <= times[0] && Nondecreasing([times[0]] + times[1..])
  {
    var all := [last] + times;
    assert all[0] <= all[1];
    assert [times[0]] + times[1..] == all[1..];
    LaterInOrder(all);
  }

  lemma {:induction false} StaysAtTheEnd(times: nat, batch: nat, count: nat)
    ensures Reach(count, times, batch, count) == count
  {
    if times > 0 {
      StaysAtTheEnd(times - 1, batch, count);
    }
  }

  // ---------- from file to file ----------

  /** A device with nothing but this file on offer, and one that prepared it. */
  ghost predicate Exchanged(a: Ops.OutgoingAttachment, key: Key, prefix: NoncePrefix, sender: Runtime, receiver: Runtime, m: Manifest) {
    var nothing := Runtime(map[], map[]);
    && Ops.PrepareOutgoing(nothing, a, key, prefix) == (sender, Ok(m))
    && var (offered, registered) := Ops.RegisterIncoming(nothing, m);
       registered == Ok(()) && Ops.StartDownload(offered, a.attachmentId) == (receiver, Ok(()))
  }

  lemma ExchangeIsQuiet(a: Ops.OutgoingAttachment, key: Key, prefix: NoncePrefix, now: nat)
    returns (sender: Runtime, receiver: Runtime, f: File)
    requires 0 < |a.bytes| <= MAX_ATTACHMENT_SIZE
    ensures Honest(f) && Holds(sender, f) && Quiet(receiver, f, now)
    ensures Exchanged(a, key, prefix, sender, receiver, f.manifest)
    ensures f.manifest.attachmentId == a.attachmentId && f.plaintext == a.bytes
    ensures f.manifest.chunkSize == CHUNK_SIZE && f.manifest.chunkCount == DivCeil(|a.bytes|, CHUNK_SIZE)
    ensures var t := receiver.incoming[a.attachmentId];
      Remaining(t) == 2 * f.manifest.chunkCount && Swept(t, f, 0)
  {
    var m := Ops.FreshManifest(a, key, prefix);
    f := File(m, a.bytes, key, prefix);
    var t := Ops.Started(Ops.FreshIncoming(m, key, prefix));
    sender := Runtime(map[a.attachmentId := Outgoing(m, a.bytes, key, prefix, map[], Active)], map[]);
    receiver := Runtime(map[], map[a.attachmentId := t]);
    PreparedIsOffered(a, key, prefix);
    StartedIsQuiet(f, t, receiver, now);
  }

  /** Any file a sender may prepare arrives: prepared, registered, started and polled
      for, it is complete once two polls for each of its chunks were answered, whatever
      was lost in between; it equals what was sent, and exactly one answer hands it
      over. */
  lemma {:induction false} PreparedFileArrives(
    a: Ops.OutgoingAttachment, key: Key, prefix: NoncePrefix, sender: Runtime, receiver: Runtime, m: Manifest, polls: seq<Poll>)
    requires 0 < |a.bytes| <= MAX_ATTACHMENT_SIZE && Exchanged(a, key, prefix, sender, receiver, m)
    requires Paced(polls, 0, true) && AnsweredCount(polls) >= 2 * DivCeil(|a.bytes|, CHUNK_SIZE)
    ensures var r := LossyRounds(sender, receiver, a.attachmentId, polls).1;
      && a.attachmentId in r.incoming && r.incoming[a.attachmentId].state == Complete
      && Join(r.incoming[a.attachmentId].chunks, 0, m.chunkCount) == a.bytes
      && HandOvers(PullAnswers(sender, receiver, a.attachmentId, polls))
         == [Completed(a.attachmentId, Sha256(a.bytes), a.bytes)]
  {
    var s, r, f := ExchangeIsQuiet(a, key, prefix, 0);
    assert s == sender && r == receiver && f.manifest == m;
    assert Waiting(receiver, f, 0, true);
    PullDeliversDespiteLoss(sender, receiver, f, polls, 0, true);
    PacedIsInOrder(polls, 0, true);
    HandedOverOnce(sender, receiver, f, polls, 0);
  }

  /** How much one poll brings: 256 chunks of four KiB. */
  const WINDOW: nat := 1024 * 1024

  lemma AlsoFromTheFirst(times: seq<nat>)
    requires times != [] && Nondecreasing(times)
    ensures Nondecreasing([times[0]] + times)
  {
    var all := [times[0]] + times;
    forall i, j | 0 <= i <= j < |all| ensures all[i] <= all[j] {
      assert all[i] == if i == 0 then times[0] else times[i - 1];
      assert all[j] == if j == 0 then times[0] else times[j - 1];
    }
  }

  /** On a quiet device k polls bring exactly the first k MiB of the file. */
  lemma {:induction false} EachPollBringsAWindow(
    a: Ops.OutgoingAttachment, key: Key, prefix: NoncePrefix, sender: Runtime, receiver: Runtime, m: Manifest, times: seq<nat>)
    requires 0 < |a.bytes| <= MAX_ATTACHMENT_SIZE && Exchanged(a, key, prefix, sender, receiver, m)
    requires times != [] && Nondecreasing(times)
    ensures var r := Rounds(sender, receiver, a.attachmentId, times).1;
      && a.attachmentId in r.incoming
      && var t := r.incoming[a.attachmentId];
      && (t.state == Complete <==> |times| * WINDOW >= |a.bytes|)
      && Join(t.chunks, 0, m.chunkCount) == a.bytes[..Min(|times| * WINDOW, |a.bytes|)]
  {
    var s, r0, f := ExchangeIsQuiet(a, key, prefix, times[0]);
    assert s == sender && r0 == receiver && f.manifest == m;
    AlsoFromTheFirst(times);
    PollsSweep(sender, receiver, f, 0, times[0], times);
    var t := Rounds(sender, receiver, a.attachmentId, times).1.incoming[a.attachmentId];
    var n := Reach(0, |times|, RequestBatch(CHUNK_SIZE), m.chunkCount);
    SweptIsNotDone(t, f, n);
    SweptJoins(t, f, n);
    WindowsAreBytes(a.bytes, |times|);
  }

  /** Windows of chunks are windows of bytes, as far as the file goes. */
  lemma WindowsAreBytes(bytes: Bytes, times: nat)
    ensures var count := DivCeil(|bytes|, CHUNK_SIZE);
      var n := Reach(0, times, RequestBatch(CHUNK_SIZE), count);
      && (n == count <==> times * WINDOW >= |bytes|)
      && Offset(bytes, CHUNK_SIZE, n) == Min(times * WINDOW, |bytes|)
  {
    var count := DivCeil(|bytes|, CHUNK_SIZE);
    assert RequestBatch(CHUNK_SIZE) == 256;
    ReachIsProduct(0, times, 256, count);
    CountBoundsOffsets(|bytes|, CHUNK_SIZE, times * 256);
    CountBoundsOffsets(|bytes|, CHUNK_SIZE, count);
  }

  lemma {:induction false} SweptJoins(t: Incoming, f: File, n: nat)
    requires Honest(f) && Swept(t, f, n)
    ensures Join(t.chunks, 0, f.manifest.chunkCount) == f.plaintext[..Offset(f.plaintext, f.manifest.chunkSize, n)]
  {
    forall i | 0 <= i < n ensures HoldsSlice(f.plaintext, f.manifest.chunkSize, t.chunks, i) {
      assert i in t.chunks.Keys;
    }
    SlicesJoin(f.plaintext, f.manifest.chunkSize, t.chunks, 0, n);
    assert Offset(f.plaintext, f.manifest.chunkSize, 0) == 0;
    NothingBeyond(t.chunks, n, f.manifest.chunkCount);
  }

  lemma {:induction false} NothingBeyond(chunks: map<nat, Bytes>, n: nat, m: nat)
    requires n <= m && forall i :: n <= i < m ==> i !in chunks
    ensures Join(chunks, 0, m) == Join(chunks, 0, n)
    decreases m
  {
    if n < m {
      NothingBeyond(chunks, n, m - 1);
    }
  }

  lemma PreparedIsOffered(a: Ops.OutgoingAttachment, key: Key, prefix: NoncePrefix)
    requires 0 < |a.bytes| <= MAX_ATTACHMENT_SIZE
    ensures var nothing, m := Runtime(map[], map[]), Ops.FreshManifest(a, key, prefix);
      && WellSized(m) && m.chunkCount > 0
      && Ops.PrepareOutgoing(nothing, a, key, prefix)
         == (Runtime(map[a.attachmentId := Outgoing(m, a.bytes, key, prefix, map[], Active)], map[]), Ok(m))
      && Ops.RegisterIncoming(nothing, m) == (Runtime(map[], map[a.attachmentId := Ops.FreshIncoming(m, key, prefix)]), Ok(()))
      && Ops.StartDownload(Ops.RegisterIncoming(nothing, m).0, a.attachmentId)
         == (Runtime(map[], map[a.attachmentId := Ops.Started(Ops.FreshIncoming(m, key, prefix))]), Ok(()))
  {
    OffsetsFit(Ops.FreshManifest(a, key, prefix), 0);
    var offered := Ops.RegisterIncoming(Runtime(map[], map[]), Ops.FreshManifest(a, key, prefix)).0;
    assert offered.incoming[a.attachmentId := Ops.Started(offered.incoming[a.attachmentId])]
        == map[a.attachmentId := Ops.Started(offered.incoming[a.attachmentId])];
  }

  lemma StartedIsQuiet(f: File, t: Incoming, started: Runtime, now: nat)
    requires Honest(f) && f.manifest.chunkCount > 0
    requires t == Ops.Started(Ops.FreshIncoming(f.manifest, f.key, f.prefix))
    requires started == Runtime(map[], map[f.manifest.attachmentId := t])
    ensures Quiet(started, f, now) && Remaining(t) == 2 * f.manifest.chunkCount && Swept(t, f, 0)
  {
    assert Faithful(t, f);
    assert Ops.InFlight(started, now) == {};
  }
}
