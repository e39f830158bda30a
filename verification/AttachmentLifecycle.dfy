/** What stopping, resuming and forgetting a transfer do, and what each of them undoes;
    and which files and manifests are taken in at all. */
module AttachmentLifecycle {
  import opened Wrappers
  import opened Primitives
  import opened AttachmentTypes
  import opened AttachmentChunks
  import opened AttachmentTransfers
  import opened AttachmentSystem
  import opened AttachmentWindow
  import opened AttachmentDelivery
  import opened AttachmentPull
  import Ops = AttachmentOperations

  /** No other transfer is touched. */
  ghost predicate OnlyTouches(before: Runtime, after: Runtime, id: string) {
    && (forall k :: k != id ==> (k in after.incoming <==> k in before.incoming) && (k in after.outgoing <==> k in before.outgoing))
    && (forall k :: k != id && k in before.incoming ==> k in after.incoming && after.incoming[k] == before.incoming[k])
    && (forall k :: k != id && k in before.outgoing ==> k in after.outgoing && after.outgoing[k] == before.outgoing[k])
  }

  // ---------- the states of a transfer ----------

  /** Where an operation leaves an incoming transfer: only a running download can be
      cancelled, any can be failed, a stopped one starts again, and the last chunk
      completes it or shows that it was never right. */
  ghost predicate MovesTo(rt: Runtime, op: Operation, id: string, next: TransferState)
    requires id in rt.incoming
  {
    var t := rt.incoming[id];
    match op
    case Cancel(k) => next == if k == id && t.state == Active then Cancelled else t.state
    case Fail(k) => next == if k == id then Failed else t.state
    case Start(k) => next == if k == id && (t.state == Cancelled || t.state == Failed) then Active else t.state
    case Ingest(frame) =>
      if frame.attachmentId != id || t.state != Active then next == t.state
      else
        (match Ops.IngestChunk(rt, frame).1
         case Ok(Completed(_, _, _)) => next == Complete
         case Err(ManifestMismatch(_)) => next == Failed
         case _ => next == Active)
    case _ => next == t.state
  }

  lemma IngestedMoves(t: Incoming, frame: ChunkFrame)
    requires WellFormed(t)
    ensures var (u, answer) := Ops.Ingested(t, frame);
      u.state == if t.state != Active then t.state
                 else match answer
                      case Ok(Completed(_, _, _)) => Complete
                      case Err(ManifestMismatch(_)) => Failed
                      case _ => Active
  {
  }

  lemma IngestMoves(rt: Runtime, frame: ChunkFrame, id: string)
    requires Sound(rt) && id in rt.incoming
    ensures id in Ops.IngestChunk(rt, frame).0.incoming
    ensures MovesTo(rt, Ingest(frame), id, Ops.IngestChunk(rt, frame).0.incoming[id].state)
  {
    if frame.attachmentId == id {
      IngestedMoves(rt.incoming[id], frame);
    }
  }

  lemma StopsMove(rt: Runtime, k: string, id: string)
    requires Sound(rt) && id in rt.incoming
    ensures id in Ops.StartDownload(rt, k).0.incoming && id in Ops.Cancel(rt, k).incoming && id in Ops.FailIncoming(rt, k).incoming
    ensures MovesTo(rt, Start(k), id, Ops.StartDownload(rt, k).0.incoming[id].state)
    ensures MovesTo(rt, Operation.Cancel(k), id, Ops.Cancel(rt, k).incoming[id].state)
    ensures MovesTo(rt, Fail(k), id, Ops.FailIncoming(rt, k).incoming[id].state)
  {
  }

  lemma RequestMoves(rt: Runtime, k: string, now: nat, budget: nat, id: string)
    requires Sound(rt) && id in rt.incoming
    ensures var after := Ops.NextRequest(rt, k, now, budget).0.incoming;
      id in after && after[id].state == rt.incoming[id].state
  {
    if k in rt.incoming {
      RequestKeepsContents(rt, k, now, budget);
    }
  }

  lemma StreamMoves(rt: Runtime, k: string, start: nat, end: nat, id: string)
    requires Sound(rt) && id in rt.incoming
    ensures var after := Ops.StreamedRange(rt, k, start, end).0.incoming;
      id in after && after[id].state == rt.incoming[id].state
  {
    if k in rt.incoming { StreamKeepsContents(rt.incoming[k], start, end); }
  }

  /** An operation that is no stop, start or frame leaves every state. */
  lemma OthersLeaveStates(rt: Runtime, op: Operation, id: string)
    requires Sound(rt) && id in rt.incoming
    requires !op.Start? && !op.Cancel? && !op.Fail? && !op.Forget? && !op.Ingest?
    ensures id in Apply(rt, op).0.incoming && Apply(rt, op).0.incoming[id].state == rt.incoming[id].state
  {
    match op
    case Register(m) => RegisterLeaves(rt, m, id);
    case Request(k, now, budget) => RequestMoves(rt, k, now, budget, id);
    case Stream(k, start, end) => StreamMoves(rt, k, start, end, id);
    case _ => SendersLeaveIncoming(rt, op);
  }

  lemma StopsMoveAsDrawn(rt: Runtime, op: Operation, id: string)
    requires Sound(rt) && id in rt.incoming && (op.Start? || op.Cancel? || op.Fail?)
    ensures id in Apply(rt, op).0.incoming && MovesTo(rt, op, id, Apply(rt, op).0.incoming[id].state)
  {
    StopsMove(rt, op.id, id);
  }

  lemma OthersMoveAsDrawn(rt: Runtime, op: Operation, id: string)
    requires Sound(rt) && id in rt.incoming
    requires !op.Start? && !op.Cancel? && !op.Fail? && !op.Forget? && !op.Ingest?
    ensures id in Apply(rt, op).0.incoming && MovesTo(rt, op, id, Apply(rt, op).0.incoming[id].state)
  {
    OthersLeaveStates(rt, op, id);
  }

  lemma ForgetMovesNoOther(rt: Runtime, k: string, id: string)
    requires Sound(rt) && id in rt.incoming && k != id
    ensures id in Ops.Forget(rt, k).incoming && Ops.Forget(rt, k).incoming[id] == rt.incoming[id]
  {
  }

  lemma {:induction false} StatesMoveAsDrawn(rt: Runtime, op: Operation, id: string)
    requires Sound(rt) && id in rt.incoming && op != Forget(id)
    ensures id in Apply(rt, op).0.incoming && MovesTo(rt, op, id, Apply(rt, op).0.incoming[id].state)
  {
    if op.Start? || op.Cancel? || op.Fail? {
      StopsMoveAsDrawn(rt, op, id);
    } else if op.Ingest? {
      IngestMoves(rt, op.frame, id);
    } else if op.Forget? {
      ForgetMovesNoOther(rt, op.id, id);
    } else {
      OthersMoveAsDrawn(rt, op, id);
    }
  }

  lemma RegisterLeaves(rt: Runtime, m: Manifest, id: string)
    requires id in rt.incoming
    ensures id in Ops.RegisterIncoming(rt, m).0.incoming && Ops.RegisterIncoming(rt, m).0.incoming[id] == rt.incoming[id]
  {
  }

  // ---------- cancel, and start again ----------

  /** A cancelled download takes nothing in, asks for nothing and frees its part of the
      window; a cancelled upload serves nothing; a finished transfer is not cancelled;
      and nothing but the state changes. */
  lemma CancelStops(rt: Runtime, id: string, frame: ChunkFrame, request: ChunkRequest, now: nat, budget: nat)
    requires frame.attachmentId == id && request.attachmentId == id
    ensures var c := Ops.Cancel(rt, id);
      && OnlyTouches(rt, c, id)
      && (id in rt.incoming && rt.incoming[id].state == Active ==>
            && id in c.incoming && c.incoming[id] == rt.incoming[id].(state := Cancelled)
            && Ops.IngestChunk(c, frame) == (c, Ok(Duplicate))
            && Ops.NextRequest(c, id, now, budget) == (c, None)
            && forall i :: (id, i) !in Ops.InFlight(c, now))
      && (id in rt.incoming && rt.incoming[id].state != Active ==> id in c.incoming && c.incoming[id] == rt.incoming[id])
      && (id in rt.outgoing && rt.outgoing[id].state == Active ==>
            && id in c.outgoing && c.outgoing[id] == rt.outgoing[id].(state := Cancelled)
            && Ops.ServeChunks(c, request) == (c, Ok([])))
      && (id in rt.outgoing && rt.outgoing[id].state != Active ==> id in c.outgoing && c.outgoing[id] == rt.outgoing[id])
  {
    var c := Ops.Cancel(rt, id);
    if id in rt.incoming && rt.incoming[id].state == Active {
      assert c.incoming[id := c.incoming[id]] == c.incoming;
    }
  }

  /** Starting again undoes a cancel: every chunk is kept, and the schedule begins
      anew with nothing asked for. */
  lemma StartUndoesCancel(rt: Runtime, id: string)
    requires id in rt.incoming && rt.incoming[id].state == Active
    ensures var (r, answer) := Ops.StartDownload(Ops.Cancel(rt, id), id);
      && answer == Ok(()) && id in r.incoming
      && r.incoming[id] == rt.incoming[id].(requestedAt := map[], requestCursor := 0, priorityChunk := None, downloadStarted := true)
  {
  }

  /** A failed download starts over, as if it had just been offered. */
  lemma StartAfterFailStartsOver(rt: Runtime, id: string)
    requires id in rt.incoming
    ensures var t := rt.incoming[id];
      var (r, answer) := Ops.StartDownload(Ops.FailIncoming(rt, id), id);
      && answer == Ok(()) && id in r.incoming
      && r.incoming[id] == Incoming(t.manifest, t.key, t.prefix, map[], Active, true, 0, map[], None)
      && OnlyTouches(rt, r, id)
      && (id in rt.outgoing ==> id in r.outgoing && r.outgoing[id] == rt.outgoing[id])
  {
  }

  /** Starting a download that runs or is finished only notes that it was started. */
  lemma StartLeavesTheRest(rt: Runtime, id: string)
    ensures var (r, answer) := Ops.StartDownload(rt, id);
      && (answer == Ok(()) <==> id in rt.incoming) && (answer.Err? ==> r == rt && answer == Err(UnknownTransfer(id)))
      && OnlyTouches(rt, r, id) && r.outgoing == rt.outgoing
      && (id in rt.incoming && (rt.incoming[id].state == Active || rt.incoming[id].state == Complete) ==>
            id in r.incoming && r.incoming[id] == rt.incoming[id].(downloadStarted := true))
  {
  }

  /** Resuming an upload undoes a cancel: the sender is as it was. */
  lemma ResumeUndoesCancel(rt: Runtime, id: string, request: ChunkRequest)
    requires id in rt.outgoing && rt.outgoing[id].state == Active && request.attachmentId == id
    ensures Ops.ResumeOutgoing(Ops.Cancel(rt, id), id).outgoing == rt.outgoing
    ensures Ops.ServeChunks(Ops.ResumeOutgoing(Ops.Cancel(rt, id), id), request).1 == Ops.ServeChunks(rt, request).1
    ensures OnlyTouches(rt, Ops.ResumeOutgoing(rt, id), id)
  {
    var o := rt.outgoing[id];
    assert rt.outgoing[id := o.(state := Cancelled)][id := o] == rt.outgoing;
    assert o.(state := Cancelled).(state := Active) == o;
  }

  /** A download that is cancelled and started again still brings the whole file,
      after one poll for each chunk that is missing and one for each step of the
      cursor. */
  lemma {:induction false} CancelledDownloadStillArrives(sender: Runtime, rt: Runtime, f: File, times: seq<nat>)
    requires Honest(f) && Holds(sender, f) && times != [] && Quiet(rt, f, times[0]) && Nondecreasing(times)
    requires |times| >= 2 * f.manifest.chunkCount - |rt.incoming[f.manifest.attachmentId].chunks|
    ensures var id := f.manifest.attachmentId;
      var again := Ops.StartDownload(Ops.Cancel(rt, id), id).0;
      var r := Rounds(sender, again, id, times).1;
      Done(r, f) && Join(r.incoming[id].chunks, 0, f.manifest.chunkCount) == f.plaintext
  {
    var again := Ops.StartDownload(Ops.Cancel(rt, f.manifest.attachmentId), f.manifest.attachmentId).0;
    StartedAgainIsQuiet(rt, f, times[0]);
    PullDelivers(sender, again, f, times);
  }

  lemma StartedAgainIsQuiet(rt: Runtime, f: File, now: nat)
    requires Quiet(rt, f, now)
    ensures var id := f.manifest.attachmentId;
      var again := Ops.StartDownload(Ops.Cancel(rt, id), id).0;
      && Quiet(again, f, now)
      && Remaining(again.incoming[id]) == 2 * f.manifest.chunkCount - |rt.incoming[id].chunks|
  {
    var id := f.manifest.attachmentId;
    var again := Ops.StartDownload(Ops.Cancel(rt, id), id).0;
    StartUndoesCancel(rt, id);
    StopsKeepSound(rt, id);
    StartKeepsSound(Ops.Cancel(rt, id), id);
    OnlyThisOne(rt, id);
    ClearedIsQuiet(rt, again, id, now);
  }

  lemma OnlyThisOne(rt: Runtime, id: string)
    requires id in rt.incoming
    ensures var again := Ops.StartDownload(Ops.Cancel(rt, id), id).0.incoming;
      id in again && again == rt.incoming[id := again[id]]
  {
  }

  lemma ClearedIsQuiet(rt: Runtime, again: Runtime, id: string, now: nat)
    requires Stamped(rt, now) && Ops.InFlight(rt, now) == {} && id in again.incoming
    requires again.incoming == rt.incoming[id := again.incoming[id]] && again.incoming[id].requestedAt == map[]
    ensures Stamped(again, now) && Ops.InFlight(again, now) == {}
  {
    forall k, i ensures (k, i) !in Ops.InFlight(again, now) {
      assert (k, i) !in Ops.InFlight(rt, now);
    }
  }

  // ---------- forget ----------

  /** A forgotten transfer is unknown on both sides, and its id is free again. */
  lemma ForgetFreesTheId(rt: Runtime, id: string, frame: ChunkFrame, request: ChunkRequest, m: Manifest, a: Ops.OutgoingAttachment, key: Key, prefix: NoncePrefix)
    requires frame.attachmentId == id && request.attachmentId == id && m.attachmentId == id && a.attachmentId == id
    ensures var gone := Ops.Forget(rt, id);
      && OnlyTouches(rt, gone, id) && id !in gone.incoming && id !in gone.outgoing
      && Ops.IngestChunk(gone, frame) == (gone, Ok(Unknown))
      && Ops.ServeChunks(gone, request) == (gone, Err(UnknownTransfer(id)))
      && Ops.StartDownload(gone, id) == (gone, Err(UnknownTransfer(id)))
      && (Ops.RegisterIncoming(gone, m).1.Ok? <==> m.keyText.Encoded? && m.prefixText.Encoded? && WellSized(m))
      && (Ops.PrepareOutgoing(gone, a, key, prefix).1.Ok? <==> 0 < |a.bytes| <= MAX_ATTACHMENT_SIZE)
  {
  }

  // ---------- what is taken in ----------

  /** A manifest is registered exactly if its id is new, its keys decode, it declares 1
      byte to 50 MiB in chunks of some size, and counts its chunks right. A new download
      holds nothing and asks for nothing; a refusal changes nothing. */
  lemma RegisteredExactly(rt: Runtime, m: Manifest)
    ensures var (r, answer) := Ops.RegisterIncoming(rt, m);
      && (answer == Ok(()) <==>
            && m.attachmentId !in rt.incoming && m.keyText.Encoded? && m.prefixText.Encoded?
            && 0 < m.totalSize <= 50 * 1024 * 1024 && 0 < m.chunkSize
            && (forall i: nat :: i < m.chunkCount <==> i * m.chunkSize < m.totalSize))
      && (answer == Err(DuplicateTransfer(m.attachmentId)) <==> m.attachmentId in rt.incoming)
      && (answer == Err(ManifestMismatch("key")) <==> m.attachmentId !in rt.incoming && m.keyText.Garbled?)
      && (answer == Err(ManifestMismatch("nonce prefix")) <==>
            m.attachmentId !in rt.incoming && m.keyText.Encoded? && m.prefixText.Garbled?)
      && (answer == Err(ManifestMismatch("size or chunk_size")) <==>
            && m.attachmentId !in rt.incoming && m.keyText.Encoded? && m.prefixText.Encoded?
            && (m.totalSize == 0 || m.totalSize > 50 * 1024 * 1024 || m.chunkSize == 0))
      && (answer.Err? ==> r == rt)
      && (answer.Ok? ==>
            && OnlyTouches(rt, r, m.attachmentId) && r.outgoing == rt.outgoing && m.attachmentId in r.incoming
            && r.incoming[m.attachmentId] == Incoming(m, m.keyText.value, m.prefixText.value, map[], Active, false, 0, map[], None))
  {
    if 0 < m.totalSize && 0 < m.chunkSize {
      CountsItsChunks(m);
    }
  }

  lemma CountsItsChunks(m: Manifest)
    requires 0 < m.totalSize && 0 < m.chunkSize
    ensures DivCeil(m.totalSize, m.chunkSize) == m.chunkCount
            <==> forall i: nat :: i < m.chunkCount <==> i * m.chunkSize < m.totalSize
  {
    var count := DivCeil(m.totalSize, m.chunkSize);
    forall i: nat ensures i < count <==> i * m.chunkSize < m.totalSize {
      CountBoundsOffsets(m.totalSize, m.chunkSize, i);
    }
    if count < m.chunkCount {
      assert !(count * m.chunkSize < m.totalSize);
    } else if count > m.chunkCount {
      assert m.chunkCount * m.chunkSize < m.totalSize;
    }
  }

  /** The errors of a preparation, and the order in which they are looked for. */
  lemma PreparedExactly(rt: Runtime, a: Ops.OutgoingAttachment, key: Key, prefix: NoncePrefix)
    ensures var (r, made) := Ops.PrepareOutgoing(rt, a, key, prefix);
      && (made == Err(Empty) <==> |a.bytes| == 0)
      && (made == Err(TooLarge(|a.bytes|)) <==> |a.bytes| > 50 * 1024 * 1024)
      && (made == Err(DuplicateTransfer(a.attachmentId)) <==>
            0 < |a.bytes| <= 50 * 1024 * 1024 && a.attachmentId in rt.outgoing)
      && (made.Err? <==> |a.bytes| == 0 || |a.bytes| > 50 * 1024 * 1024 || a.attachmentId in rt.outgoing)
      && (made.Err? ==> r == rt)
      && (made.Ok? ==>
            var f := File(made.value, a.bytes, key, prefix);
            && Honest(f) && Holds(r, f) && f.manifest.attachmentId == a.attachmentId && f.manifest.mime == a.mime
            && f.manifest.chunkSize == 4096
            && OnlyTouches(rt, r, a.attachmentId) && r.incoming == rt.incoming)
  {
  }

  /** A sender that comes back restores a file from its manifest exactly if the id is
      free and the bytes are those of the manifest; it then serves as before. */
  lemma RestoredExactly(rt: Runtime, f: File, bytes: Bytes)
    requires Honest(f)
    ensures var (r, answer) := Ops.RestoreOutgoing(rt, f.manifest, bytes);
      && (answer == Ok(()) <==> f.manifest.attachmentId !in rt.outgoing && bytes == f.plaintext)
      && (answer == Err(DuplicateTransfer(f.manifest.attachmentId)) <==> f.manifest.attachmentId in rt.outgoing)
      && (answer.Err? ==> r == rt)
      && (answer.Ok? ==> Holds(r, f) && OnlyTouches(rt, r, f.manifest.attachmentId) && r.incoming == rt.incoming)
  {
  }

  /** Of any manifest: it is restored exactly if it describes the bytes, their length,
      digest and chunks, and its keys decode. */
  lemma RestoreChecks(rt: Runtime, m: Manifest, bytes: Bytes)
    requires m.attachmentId !in rt.outgoing
    ensures Ops.RestoreOutgoing(rt, m, bytes).1 == Ok(()) <==>
      && |bytes| == m.totalSize && m.contentHash == Sha256(bytes) && m.chunkSize > 0
      && DivCeil(m.totalSize, m.chunkSize) == m.chunkCount
      && m.keyText.Encoded? && m.prefixText.Encoded?
  {
  }

  // ---------- what is handed over, whoever made the manifest ----------

  /** Whatever the manifest and the frames, a file that is handed over has the declared
      size and digest; and a full set of chunks that does not fails for good, so that
      nothing is handed over. */
  lemma CompletedIsVerified(t: Incoming, frame: ChunkFrame)
    requires WellFormed(t)
    ensures var (u, answer) := Ops.Ingested(t, frame);
      && (answer.Ok? && answer.value.Completed? ==>
            && answer.value.attachmentId == frame.attachmentId
            && |answer.value.bytes| == t.manifest.totalSize
            && answer.value.contentHash == Sha256(answer.value.bytes) == t.manifest.contentHash
            && u.state == Complete && answer.value.bytes == Join(u.chunks, 0, t.manifest.chunkCount))
      && (Accepts(t, frame) && |t.chunks| + 1 == t.manifest.chunkCount
          && Sha256(Join(u.chunks, 0, t.manifest.chunkCount)) != t.manifest.contentHash ==>
            u.state == Failed && (answer == Err(ManifestMismatch("size")) || answer == Err(ManifestMismatch("content hash"))))
  {
  }

  // ---------- serving ----------

  /** The indices of a request that the file has. */
  function Existing(f: File, indices: seq<nat>): (r: seq<nat>)
    ensures forall i :: i in r ==> i < f.manifest.chunkCount
  {
    if indices == [] then []
    else
      var last := indices[|indices| - 1];
      Existing(f, indices[..|indices| - 1]) + if last < f.manifest.chunkCount then [last] else []
  }

  /** How often an index is asked for. */
  function Occurrences(indices: seq<nat>, i: nat): (n: nat) {
    if indices == [] then 0
    else Occurrences(indices[..|indices| - 1], i) + if indices[|indices| - 1] == i then 1 else 0
  }

  function CountOf(served: map<nat, u32>, i: nat): (n: nat) {
    if i in served then served[i] else 0
  }

  lemma {:induction false} SliceExists(f: File, i: nat)
    requires Honest(f)
    ensures ChunkSlice(f.plaintext, i, f.manifest.chunkSize).Some? <==> i < f.manifest.chunkCount
  {
    if i < f.manifest.chunkCount {
      SliceHasExpectedLength(f.manifest, f.plaintext, i);
    } else {
      OffsetsFit(f.manifest, i);
    }
  }

  lemma FramesForMore(f: File, front: seq<nat>, last: nat)
    requires Honest(f) && last < f.manifest.chunkCount && forall i :: i in front ==> i < f.manifest.chunkCount
    ensures FramesFor(f, front + [last]) == FramesFor(f, front) + [FrameOf(f, last)]
  {
    var all := FramesFor(f, front + [last]);
    assert forall k :: 0 <= k < |front| ==> (front + [last])[k] == front[k];
  }

  lemma {:induction false} ServedExactly(o: Outgoing, f: File, indices: seq<nat>)
    requires Honest(f) && o.manifest == f.manifest && o.plaintext == f.plaintext && o.key == f.key && o.prefix == f.prefix
    ensures var (u, frames) := Ops.Served(o, f.manifest.attachmentId, indices);
      u == o.(servedChunks := u.servedChunks) && frames == FramesFor(f, Existing(f, indices))
  {
    if indices != [] {
      var front, last := indices[..|indices| - 1], indices[|indices| - 1];
      ServedExactly(o, f, front);
      SliceExists(f, last);
      if last < f.manifest.chunkCount {
        FramesForMore(f, Existing(f, front), last);
      }
    }
  }

  lemma CountedOnce(served: map<nat, u32>, last: nat, i: nat)
    ensures CountOf(Ops.Counted(served, last), i) == (CountOf(served, i) + if last == i then 1 else 0) % U32_LIMIT
  {
  }

  lemma ServedNext(o: Outgoing, id: string, indices: seq<nat>)
    requires indices != []
    requires ChunkSlice(o.plaintext, indices[|indices| - 1], o.manifest.chunkSize).Some?
    ensures Ops.Served(o, id, indices).0.servedChunks
         == Ops.Counted(Ops.Served(o, id, indices[..|indices| - 1]).0.servedChunks, indices[|indices| - 1])
  {
  }

  lemma ServedNotThere(o: Outgoing, id: string, indices: seq<nat>)
    requires indices != []
    requires ChunkSlice(o.plaintext, indices[|indices| - 1], o.manifest.chunkSize).None?
    ensures Ops.Served(o, id, indices).0.servedChunks == Ops.Served(o, id, indices[..|indices| - 1]).0.servedChunks
  {
  }

  lemma CountWraps(before: nat, more: nat, one: nat)
    ensures ((before + more) % U32_LIMIT + one) % U32_LIMIT == (before + (more + one)) % U32_LIMIT
  {
  }

  lemma {:induction false} ServingIsCounted(o: Outgoing, f: File, indices: seq<nat>, i: nat)
    requires Honest(f) && o.manifest == f.manifest && o.plaintext == f.plaintext && i < f.manifest.chunkCount
    ensures CountOf(Ops.Served(o, f.manifest.attachmentId, indices).0.servedChunks, i)
         == (CountOf(o.servedChunks, i) + Occurrences(indices, i)) % U32_LIMIT
  {
    if indices != [] {
      var front, last := indices[..|indices| - 1], indices[|indices| - 1];
      ServingIsCounted(o, f, front, i);
      SliceExists(f, last);
      var before := Ops.Served(o, f.manifest.attachmentId, front).0.servedChunks;
      if last < f.manifest.chunkCount {
        ServedNext(o, f.manifest.attachmentId, indices);
        CountedOnce(before, last, i);
        CountWraps(CountOf(o.servedChunks, i), Occurrences(front, i), if last == i then 1 else 0);
      } else {
        ServedNotThere(o, f.manifest.attachmentId, indices);
      }
    }
  }

  /** Whoever asks an active sender, for whatever: the first indices of the request, as
      many as one batch, are answered with the file's own chunks, those the file does
      not have with nothing, and each serving is counted, modulo 2^32. */
  lemma {:induction false} AnyRequestIsServed(sender: Runtime, f: File, indices: seq<nat>, i: nat)
    requires Honest(f) && Holds(sender, f) && i < f.manifest.chunkCount
    ensures var id := f.manifest.attachmentId;
      var (r, answer) := Ops.ServeChunks(sender, ChunkRequest(id, indices));
      var taken := indices[..Min(|indices|, RequestBatch(f.manifest.chunkSize))];
      && answer == Ok(FramesFor(f, Existing(f, taken)))
      && Holds(r, f) && OnlyTouches(sender, r, id)
      && CountOf(r.outgoing[id].servedChunks, i)
         == (CountOf(sender.outgoing[id].servedChunks, i) + Occurrences(taken, i)) % U32_LIMIT
  {
    var taken := indices[..Min(|indices|, RequestBatch(f.manifest.chunkSize))];
    ServedExactly(sender.outgoing[f.manifest.attachmentId], f, taken);
    ServingIsCounted(sender.outgoing[f.manifest.attachmentId], f, taken, i);
  }
}
