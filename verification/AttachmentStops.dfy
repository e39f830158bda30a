/** What the request window forgets. A chunk that was asked for counts against the
    window until it comes or ten seconds pass, unless its download is stopped: then it
    no longer counts, although the frames may still be on their way. */
module AttachmentStops {
  import opened Wrappers
  import opened Primitives
  import opened AttachmentTypes
  import opened AttachmentChunks
  import opened AttachmentTransfers
  import opened AttachmentSystem
  import opened AttachmentWindow
  import opened AttachmentDelivery
  import opened AttachmentPull
  import opened AttachmentHandOver
  import opened AttachmentLifecycle
  import Ops = AttachmentOperations

  /** The operation stops the download: cancelled, failed or forgotten, or shown by a
      frame to be wrong. */
  ghost predicate Stops(rt: Runtime, op: Operation, id: string)
    requires Sound(rt)
  {
    match op
    case Cancel(k) => k == id
    case Fail(k) => k == id
    case Forget(k) => k == id
    case Ingest(frame) =>
      frame.attachmentId == id && id in rt.incoming && rt.incoming[id].state != Failed
      && Ops.IngestChunk(rt, frame).0.incoming[id].state == Failed
    case _ => false
  }

  /** The operation asks for chunk i of the download. */
  ghost predicate AsksFor(rt: Runtime, op: Operation, id: string, i: nat)
    requires Sound(rt)
  {
    op.Request? && op.id == id && i in AskedFor(Ops.NextRequest(rt, id, op.now, op.budget).1)
  }

  /** Asked for, and still counted until it comes or its time is over. */
  ghost predicate Counting(rt: Runtime, id: string, i: nat, later: nat) {
    && id in rt.incoming
    && var t := rt.incoming[id];
    && t.downloadStarted && (t.state == Active || t.state == Complete)
    && (i in t.chunks || (t.state == Active && i in t.requestedAt && later < t.requestedAt[i] + CHUNK_REQUEST_TIMEOUT))
  }

  /** No request for it is counted. */
  ghost predicate Uncounted(rt: Runtime, id: string, i: nat) {
    id in rt.incoming ==> rt.incoming[id].state != Active || i !in rt.incoming[id].requestedAt
  }

  /** The stamps of a transfer after these indices were asked for. */
  ghost predicate Marked(before: map<nat, nat>, after: map<nat, nat>, indices: seq<nat>, now: nat) {
    && (forall i :: i in after <==> i in before || i in indices)
    && (forall i :: i in after ==> after[i] == if i in indices then now else before[i])
  }

  lemma {:induction false} RequestMarks(rt: Runtime, id: string, now: nat, budget: nat)
    requires Sound(rt) && id in rt.incoming
    ensures var (rt', request) := Ops.NextRequest(rt, id, now, budget);
      && id in rt'.incoming
      && Marked(rt.incoming[id].requestedAt, rt'.incoming[id].requestedAt, AskedFor(request), now)
  {
    NextRequestEffect(rt, id, now, budget);
    var t := rt.incoming[id];
    var batch := Min(Min(budget, Ops.AvailableSlots(rt, now)), RequestBatch(t.manifest.chunkSize));
    if batch > 0 && t.downloadStarted && t.state == Active {
      RequestShape(t, now, batch);
      MarkRequestedMarks(t, RequestIndices(t, now, batch).0, RequestIndices(t, now, batch).1, now);
    }
  }

  lemma MarkRequestedMarks(t: Incoming, u: Incoming, indices: seq<nat>, now: nat)
    requires u.requestedAt == t.requestedAt
    ensures Marked(t.requestedAt, MarkRequested(u, indices, now).requestedAt, indices, now)
  {
  }

  /** A request marks only the chunks it asks for. */
  lemma {:induction false} RequestMarksOnlyItsOwn(rt: Runtime, k: string, now: nat, budget: nat, id: string, i: nat)
    requires Sound(rt) && id in rt.incoming
    requires !(k == id && i in AskedFor(Ops.NextRequest(rt, k, now, budget).1))
    ensures var rt' := Ops.NextRequest(rt, k, now, budget).0;
      && id in rt'.incoming
      && var (t, u) := (rt.incoming[id], rt'.incoming[id]);
      && u.state == t.state && u.downloadStarted == t.downloadStarted && u.chunks == t.chunks
      && (i in u.requestedAt <==> i in t.requestedAt)
      && (i in t.requestedAt ==> u.requestedAt[i] == t.requestedAt[i])
  {
    if k in rt.incoming {
      RequestKeepsContents(rt, k, now, budget);
    }
    if k == id {
      RequestMarks(rt, id, now, budget);
    }
  }

  /** Only a running download asks. */
  lemma OnlyRunningAsks(rt: Runtime, id: string, now: nat, budget: nat)
    requires Ops.NextRequest(rt, id, now, budget).1.Some?
    ensures id in rt.incoming && rt.incoming[id].downloadStarted && rt.incoming[id].state == Active
  {
  }

  lemma {:induction false} RequestCounts(rt: Runtime, id: string, now: nat, budget: nat, i: nat, later: nat)
    requires Sound(rt) && i in AskedFor(Ops.NextRequest(rt, id, now, budget).1) && later < now + CHUNK_REQUEST_TIMEOUT
    ensures Counting(Ops.NextRequest(rt, id, now, budget).0, id, i, later)
  {
    OnlyRunningAsks(rt, id, now, budget);
    RequestMarks(rt, id, now, budget);
    RequestKeepsRunning(rt, id, now, budget);
  }

  lemma RequestKeepsRunning(rt: Runtime, id: string, now: nat, budget: nat)
    requires Sound(rt) && id in rt.incoming
    ensures var after := Ops.NextRequest(rt, id, now, budget).0.incoming;
      id in after && after[id].state == rt.incoming[id].state && after[id].downloadStarted == rt.incoming[id].downloadStarted
  {
    RequestKeepsContents(rt, id, now, budget);
  }

  lemma {:induction false} AskingCounts(rt: Runtime, op: Operation, id: string, i: nat, later: nat)
    requires Sound(rt) && AsksFor(rt, op, id, i) && later < op.now + CHUNK_REQUEST_TIMEOUT
    ensures Counting(Apply(rt, op).0, id, i, later)
  {
    RequestCounts(rt, id, op.now, op.budget, i, later);
    ApplyRequest(rt, op);
  }

  lemma ApplyRequest(rt: Runtime, op: Operation)
    requires Sound(rt) && op.Request?
    ensures Apply(rt, op).0 == Ops.NextRequest(rt, op.id, op.now, op.budget).0
  {
  }

  lemma {:induction false} IngestKeepsCounting(rt: Runtime, frame: ChunkFrame, id: string, i: nat, later: nat)
    requires Sound(rt) && Counting(rt, id, i, later) && !Stops(rt, Ingest(frame), id)
    ensures Counting(Ops.IngestChunk(rt, frame).0, id, i, later)
  {
    if frame.attachmentId == id {
      var t := rt.incoming[id];
      IngestEffect(t, frame);
      IngestKeepsWellFormed(t, frame);
      var u := Ops.Ingested(t, frame).0;
      assert i < t.manifest.chunkCount;
      if u.state == Complete {
        CountMeansAll(u);
      }
    }
  }

  lemma StartKeepsCounting(rt: Runtime, k: string, id: string, i: nat, later: nat)
    requires Counting(rt, id, i, later)
    ensures Counting(Ops.StartDownload(rt, k).0, id, i, later)
  {
  }

  lemma StopsOfOthers(rt: Runtime, k: string, id: string, i: nat, later: nat)
    requires Counting(rt, id, i, later) && k != id
    ensures Counting(Ops.Cancel(rt, k), id, i, later) && Counting(Ops.FailIncoming(rt, k), id, i, later)
    ensures Counting(Ops.Forget(rt, k), id, i, later)
  {
  }

  lemma StreamKeepsCounting(rt: Runtime, k: string, start: nat, end: nat, id: string, i: nat, later: nat)
    requires Sound(rt) && Counting(rt, id, i, later)
    ensures Counting(Ops.StreamedRange(rt, k, start, end).0, id, i, later)
  {
    if k in rt.incoming { StreamKeepsContents(rt.incoming[k], start, end); }
  }

  lemma OthersStopsKeepCounting(rt: Runtime, op: Operation, id: string, i: nat, later: nat)
    requires Sound(rt) && Counting(rt, id, i, later) && !Stops(rt, op, id)
    requires op.Start? || op.Cancel? || op.Fail? || op.Forget?
    ensures Counting(Apply(rt, op).0, id, i, later)
  {
    if op.Start? {
      StartKeepsCounting(rt, op.id, id, i, later);
    } else {
      StopsOfOthers(rt, op.id, id, i, later);
    }
  }

  lemma SendersKeepCounting(rt: Runtime, op: Operation, id: string, i: nat, later: nat)
    requires Sound(rt) && Counting(rt, id, i, later) && (op.Prepare? || op.Restore? || op.Resume? || op.Serve?)
    ensures Counting(Apply(rt, op).0, id, i, later)
  {
    SendersLeaveIncoming(rt, op);
  }

  lemma RequestKeepsCounting(rt: Runtime, op: Operation, id: string, i: nat, later: nat)
    requires Sound(rt) && Counting(rt, id, i, later) && op.Request? && !AsksFor(rt, op, id, i)
    ensures Counting(Apply(rt, op).0, id, i, later)
  {
    RequestMarksOnlyItsOwn(rt, op.id, op.now, op.budget, id, i);
  }

  /** Without a stop it goes on counting. */
  lemma {:induction false} OthersKeepCounting(rt: Runtime, op: Operation, id: string, i: nat, later: nat)
    requires Sound(rt) && Counting(rt, id, i, later) && !Stops(rt, op, id) && !AsksFor(rt, op, id, i)
    ensures Counting(Apply(rt, op).0, id, i, later)
  {
    if op.Start? || op.Cancel? || op.Fail? || op.Forget? {
      OthersStopsKeepCounting(rt, op, id, i, later);
    } else if op.Ingest? {
      IngestKeepsCounting(rt, op.frame, id, i, later);
    } else if op.Request? {
      RequestKeepsCounting(rt, op, id, i, later);
    } else if op.Stream? {
      StreamKeepsCounting(rt, op.id, op.start, op.end, id, i, later);
    } else if op.Register? {
      RegisterLeaves(rt, op.manifest, id);
    } else {
      SendersKeepCounting(rt, op, id, i, later);
    }
  }

  /** A stop takes it out of the count. */
  lemma {:induction false} StopUncounts(rt: Runtime, op: Operation, id: string, i: nat)
    requires Sound(rt) && Stops(rt, op, id)
    ensures Uncounted(Apply(rt, op).0, id, i)
  {
  }

  lemma RequestStaysUncounted(rt: Runtime, k: string, now: nat, budget: nat, id: string, i: nat)
    requires Sound(rt) && Uncounted(rt, id, i)
    requires !(k == id && i in AskedFor(Ops.NextRequest(rt, k, now, budget).1))
    ensures Uncounted(Ops.NextRequest(rt, k, now, budget).0, id, i)
  {
    if id in rt.incoming {
      RequestMarksOnlyItsOwn(rt, k, now, budget, id, i);
    } else if k in rt.incoming {
      RequestKeepsContents(rt, k, now, budget);
    }
  }

  lemma IngestStaysUncounted(rt: Runtime, frame: ChunkFrame, id: string, i: nat)
    requires Sound(rt) && Uncounted(rt, id, i)
    ensures Uncounted(Ops.IngestChunk(rt, frame).0, id, i)
  {
    if frame.attachmentId in rt.incoming { IngestEffect(rt.incoming[frame.attachmentId], frame); }
  }

  lemma StreamStaysUncounted(rt: Runtime, k: string, start: nat, end: nat, id: string, i: nat)
    requires Sound(rt) && Uncounted(rt, id, i)
    ensures Uncounted(Ops.StreamedRange(rt, k, start, end).0, id, i)
  {
    if k in rt.incoming { StreamKeepsContents(rt.incoming[k], start, end); }
  }

  lemma StopsStayUncounted(rt: Runtime, k: string, id: string, i: nat)
    requires Sound(rt) && Uncounted(rt, id, i)
    ensures Uncounted(Ops.StartDownload(rt, k).0, id, i) && Uncounted(Ops.Cancel(rt, k), id, i)
    ensures Uncounted(Ops.FailIncoming(rt, k), id, i) && Uncounted(Ops.Forget(rt, k), id, i)
  {
  }

  /** And it stays out, until the chunk is asked for again. */
  lemma {:induction false} StaysUncounted(rt: Runtime, op: Operation, id: string, i: nat)
    requires Sound(rt) && Uncounted(rt, id, i) && !AsksFor(rt, op, id, i)
    ensures Uncounted(Apply(rt, op).0, id, i)
  {
    match op
    case Register(m) =>
    case Start(k) => StopsStayUncounted(rt, k, id, i);
    case Cancel(k) => StopsStayUncounted(rt, k, id, i);
    case Fail(k) => StopsStayUncounted(rt, k, id, i);
    case Forget(k) => StopsStayUncounted(rt, k, id, i);
    case Ingest(frame) => IngestStaysUncounted(rt, frame, id, i);
    case Request(k, now, budget) => RequestStaysUncounted(rt, k, now, budget, id, i);
    case Stream(k, start, end) => StreamStaysUncounted(rt, k, start, end, id, i);
    case _ => SendersLeaveIncoming(rt, op);
  }

  // ---------- over runs ----------

  ghost predicate StoppedAt(ws: seq<World>, events: seq<Event>, j: nat, d: string, id: string) {
    && j < |ws| && j < |events| && d in ws[j].devices && AllSound(ws[j])
    && events[j].On? && events[j].device == d && Stops(ws[j].devices[d].rt, events[j].operation, id)
  }

  ghost predicate AskedAt(ws: seq<World>, events: seq<Event>, j: nat, d: string, id: string, i: nat) {
    && j < |ws| && j < |events| && d in ws[j].devices && AllSound(ws[j])
    && events[j].On? && events[j].device == d && AsksFor(ws[j].devices[d].rt, events[j].operation, id, i)
  }

  ghost predicate StoppedSince(ws: seq<World>, events: seq<Event>, k: nat, n: nat, d: string, id: string) {
    exists j :: k < j < n && StoppedAt(ws, events, j, d, id)
  }

  lemma ClockHasPassed(w: World, e: Event, d: string)
    requires AllSound(w) && Enabled(w, e) && d in w.devices
    ensures d in Step(w, e).devices && w.devices[d].clock <= Step(w, e).devices[d].clock
    ensures e.On? && e.device == d && e.operation.Request? ==> e.operation.now == Step(w, e).devices[d].clock
    ensures !(e.On? && e.device == d) ==> Step(w, e).devices[d] == w.devices[d]
    ensures e.On? && e.device == d ==> Step(w, e).devices[d].rt == Apply(w.devices[d].rt, e.operation).0
  {
  }

  /** How chunk i, asked for at step k, stands at step n. */
  ghost predicate Stands(ws: seq<World>, events: seq<Event>, k: nat, n: nat, d: string, id: string, i: nat, later: nat) {
    && n < |ws| && AllSound(ws[n]) && d in ws[n].devices
    && if StoppedSince(ws, events, k, n, d, id) then Uncounted(ws[n].devices[d].rt, id, i)
       else Counting(ws[n].devices[d].rt, id, i, later)
  }

  lemma {:induction false} AskedStands(
    ws: seq<World>, events: seq<Event>, k: nat, d: string, id: string, i: nat, later: nat)
    requires k + 1 < |ws| && AskedAt(ws, events, k, d, id, i)
    requires Enabled(ws[k], events[k]) && ws[k + 1] == Step(ws[k], events[k])
    requires later < events[k].operation.now + CHUNK_REQUEST_TIMEOUT
    ensures Stands(ws, events, k, k + 1, d, id, i, later)
  {
    ClockHasPassed(ws[k], events[k], d);
    AskingCounts(ws[k].devices[d].rt, events[k].operation, id, i, later);
    NotStoppedYet(ws, events, k, d, id);
  }

  lemma {:induction false} StandsToTheEnd(
    ws: seq<World>, events: seq<Event>, k: nat, n: nat, d: string, id: string, i: nat, later: nat)
    requires k < n && forall j :: k < j < n ==> Follows(ws, events, j) && !AskedAt(ws, events, j, d, id, i)
    requires Stands(ws, events, k, k + 1, d, id, i, later)
    ensures Stands(ws, events, k, n, d, id, i, later)
  {
    if k + 1 < n {
      StandsToTheEnd(ws, events, k, n - 1, d, id, i, later);
      assert Follows(ws, events, n - 1) && !AskedAt(ws, events, n - 1, d, id, i);
      NextStep(ws, events, k, n, d, id, i, later);
    }
  }

  lemma NotStoppedYet(ws: seq<World>, events: seq<Event>, k: nat, d: string, id: string)
    ensures !StoppedSince(ws, events, k, k + 1, d, id)
  {
  }

  lemma StoppedNext(ws: seq<World>, events: seq<Event>, k: nat, n: nat, d: string, id: string)
    requires k + 1 < n
    ensures StoppedSince(ws, events, k, n, d, id)
            <==> StoppedSince(ws, events, k, n - 1, d, id) || StoppedAt(ws, events, n - 1, d, id)
  {
    if StoppedSince(ws, events, k, n, d, id) {
      var j :| k < j < n && StoppedAt(ws, events, j, d, id);
      assert j == n - 1 || (k < j < n - 1 && StoppedAt(ws, events, j, d, id));
    }
  }

  lemma {:induction false} NextStep(
    ws: seq<World>, events: seq<Event>, k: nat, n: nat, d: string, id: string, i: nat, later: nat)
    requires k + 1 < n < |ws| && n <= |events| && Stands(ws, events, k, n - 1, d, id, i, later)
    requires Enabled(ws[n - 1], events[n - 1]) && ws[n] == Step(ws[n - 1], events[n - 1])
    requires !AskedAt(ws, events, n - 1, d, id, i)
    ensures Stands(ws, events, k, n, d, id, i, later)
  {
    var w, e := ws[n - 1], events[n - 1];
    var rt := w.devices[d].rt;
    StoppedNext(ws, events, k, n, d, id);
    ClockHasPassed(w, e, d);
    if e.On? && e.device == d {
      if StoppedSince(ws, events, k, n - 1, d, id) {
        StaysUncounted(rt, e.operation, id, i);
      } else if Stops(rt, e.operation, id) {
        StopUncounts(rt, e.operation, id, i);
      } else {
        OthersKeepCounting(rt, e.operation, id, i, later);
      }
    }
  }

  /** Within ten seconds of the last request for a chunk that has not come, the request
      counts against the window exactly if its download was not stopped since. */
  lemma {:induction false} CountedExactlyUntilStopped(
    ws: seq<World>, events: seq<Event>, k: nat, n: nat, d: string, id: string, i: nat, later: nat)
    requires Trace(ws, events) && AllSound(ws[0]) && k < n < |ws| && d in ws[k].devices && AskedAt(ws, events, k, d, id, i)
    requires forall j :: k < j < n ==> !AskedAt(ws, events, j, d, id, i)
    requires d in ws[n].devices && ws[n].devices[d].clock <= later < events[k].operation.now + CHUNK_REQUEST_TIMEOUT
    requires id in ws[n].devices[d].rt.incoming ==> i !in ws[n].devices[d].rt.incoming[id].chunks
    ensures (id, i) in Ops.InFlight(ws[n].devices[d].rt, later) <==> !StoppedSince(ws, events, k, n, d, id)
  {
    forall j: nat | k <= j < n ensures Follows(ws, events, j) {
      StepOfTrace(ws, events, j);
    }
    assert Follows(ws, events, k);
    AskedStands(ws, events, k, d, id, i, later);
    StandsToTheEnd(ws, events, k, n, d, id, i, later);
    CountedIfNotStopped(ws[n].devices[d].rt, id, i, later);
  }

  lemma CountedIfNotStopped(rt: Runtime, id: string, i: nat, later: nat)
    requires id in rt.incoming ==> i !in rt.incoming[id].chunks
    requires Counting(rt, id, i, later) || Uncounted(rt, id, i)
    ensures Counting(rt, id, i, later) ==> (id, i) in Ops.InFlight(rt, later)
    ensures Uncounted(rt, id, i) ==> (id, i) !in Ops.InFlight(rt, later)
  {
  }

  /** So a download that is cancelled and started again may ask twice for a whole
      window at once: here 512 chunks are on their way to a device that counts 256. */
  lemma {:induction false} RestartAsksTwice(
    a: Ops.OutgoingAttachment, key: Key, prefix: NoncePrefix, sender: Runtime, receiver: Runtime, m: Manifest, now: nat)
    requires WINDOW <= |a.bytes| <= MAX_ATTACHMENT_SIZE && Exchanged(a, key, prefix, sender, receiver, m)
    ensures var id := a.attachmentId;
      var (asked, first) := Ops.NextRequest(receiver, id, now, MAX_REQUEST_BATCH);
      var again := Ops.StartDownload(Ops.Cancel(asked, id), id).0;
      var second := Ops.NextRequest(again, id, now, MAX_REQUEST_BATCH).1;
      NamesTheFirst(first, 256) && NamesTheFirst(second, 256)
  {
    var id := a.attachmentId;
    var s, r, f := ExchangeIsQuiet(a, key, prefix, now);
    assert s == sender && r == receiver && f.manifest == m;
    WindowOfChunks(a.bytes);
    SweptIsNotDone(receiver.incoming[id], f, 0);
    FirstWindow(receiver, f, now);
    var asked := Ops.NextRequest(receiver, id, now, MAX_REQUEST_BATCH).0;
    var again := Ops.StartDownload(Ops.Cancel(asked, id), id).0;
    StartedAnew(receiver, asked, f, now);
    FirstWindow(again, f, now);
  }

  ghost predicate NamesTheFirst(request: Option<ChunkRequest>, n: nat) {
    request.Some? && forall i: nat :: i in request.value.chunkIndices <==> i < n
  }

  lemma WindowOfChunks(bytes: Bytes)
    requires WINDOW <= |bytes|
    ensures DivCeil(|bytes|, CHUNK_SIZE) >= 256
  {
    CountBoundsOffsets(|bytes|, CHUNK_SIZE, 255);
  }

  /** A download of nothing yet, on a device that waits for nothing. */
  ghost predicate Fresh(rt: Runtime, f: File, now: nat) {
    var id := f.manifest.attachmentId;
    && Sound(rt) && id in rt.incoming && Swept(rt.incoming[id], f, 0) && rt.incoming[id].state == Active
    && f.manifest.chunkSize == CHUNK_SIZE && f.manifest.chunkCount >= 256
    && Ops.InFlight(rt, now) == {}
  }

  lemma StartedAnew(rt: Runtime, asked: Runtime, f: File, now: nat)
    requires Fresh(rt, f, now) && rt.incoming.Keys == {f.manifest.attachmentId}
    requires asked == Ops.NextRequest(rt, f.manifest.attachmentId, now, MAX_REQUEST_BATCH).0
    ensures Fresh(Ops.StartDownload(Ops.Cancel(asked, f.manifest.attachmentId), f.manifest.attachmentId).0, f, now)
  {
    var id := f.manifest.attachmentId;
    RequestKeepsContents(rt, id, now, MAX_REQUEST_BATCH);
    RequestKeepsSound(rt, id, now, MAX_REQUEST_BATCH);
    StartUndoesCancel(asked, id);
    var again := Ops.StartDownload(Ops.Cancel(asked, id), id).0;
    StopsKeepSound(asked, id);
    StartKeepsSound(Ops.Cancel(asked, id), id);
    assert again.incoming.Keys == {id};
    assert Ops.InFlight(again, now) == {};
  }

  lemma {:induction false} FirstWindow(rt: Runtime, f: File, now: nat)
    requires Fresh(rt, f, now)
    ensures NamesTheFirst(Ops.NextRequest(rt, f.manifest.attachmentId, now, MAX_REQUEST_BATCH).1, 256)
  {
    var id := f.manifest.attachmentId;
    NothingOutstanding(rt, id, now);
    NextRequestEffect(rt, id, now, MAX_REQUEST_BATCH);
    WholeWindow(rt, now);
    FirstIndices(rt.incoming[id], f, now, MAX_REQUEST_BATCH);
  }

  lemma WholeWindow(rt: Runtime, now: nat)
    requires Ops.InFlight(rt, now) == {}
    ensures Min(Min(MAX_REQUEST_BATCH, Ops.AvailableSlots(rt, now)), RequestBatch(CHUNK_SIZE)) == MAX_REQUEST_BATCH
  {
  }

  lemma FirstIndices(t: Incoming, f: File, now: nat, batch: nat)
    requires Swept(t, f, 0) && 0 < batch <= f.manifest.chunkCount && forall i :: !Outstanding(t, i, now)
    ensures var indices := RequestIndices(t, now, batch).1;
      indices != [] && forall i: nat :: i in indices <==> i < batch
  {
    SweepAsks(t, f, 0, now, batch);
    var indices := RequestIndices(t, now, batch).1;
    forall i: nat ensures i in indices <==> i < batch {
      assert i in indices <==> i in Named(indices);
    }
    assert batch - 1 in indices;
  }
}
