/** One file followed through every run: what any device stores, streams or
    hands over under its manifest is the sender's file, and a device that keeps
    asking gets all of it. */
module AttachmentDelivery {
  import opened Wrappers
  import opened Primitives
  import opened AttachmentTypes
  import opened AttachmentChunks
  import opened AttachmentTransfers
  import opened AttachmentSystem
  import Ops = AttachmentOperations

  /** A file and the manifest its sender made for it. */
  datatype File = File(manifest: Manifest, plaintext: Bytes, key: Key, prefix: NoncePrefix)

  ghost predicate Honest(f: File) {
    && WellSized(f.manifest)
    && f.manifest.totalSize == |f.plaintext|
    && f.manifest.contentHash == Sha256(f.plaintext)
    && f.manifest.keyText == Encoded(f.key) && f.manifest.prefixText == Encoded(f.prefix)
  }

  ghost predicate UnderKey(frame: ChunkFrame, f: File) {
    && frame.ciphertext.Encoded? && frame.ciphertext.value.Sealed?
    && frame.ciphertext.value.key == f.key && frame.ciphertext.value.prefix == f.prefix
  }

  /** Nobody else holds the key: outsiders inject nothing sealed under it, a
      random draw repeats it only for the file itself, and whoever registers or
      restores under the file's id or key has the sender's manifest. */
  ghost predicate Trusted(e: Event, f: File) {
    match e
    case Inject(frame) => !UnderKey(frame, f)
    case On(_, Register(m)) => m.attachmentId == f.manifest.attachmentId ==> m == f.manifest
    case On(_, Prepare(a, key, prefix)) =>
      key == f.key && prefix == f.prefix ==> a.bytes == f.plaintext && f.manifest.chunkSize == CHUNK_SIZE
    case On(_, Restore(m, _)) =>
      m.keyText == f.manifest.keyText && m.prefixText == f.manifest.prefixText ==> m == f.manifest
    case _ => true
  }

  ghost predicate AllTrusted(events: seq<Event>, f: File) {
    forall e :: e in events ==> Trusted(e, f)
  }

  /** A frame sealed under the file's key carries the file's chunk. */
  ghost predicate GenuineFrame(frame: ChunkFrame, f: File) {
    UnderKey(frame, f) ==>
      ChunkSlice(f.plaintext, frame.ciphertext.value.index, f.manifest.chunkSize) == Some(frame.ciphertext.value.body)
  }

  ghost predicate GenuineChunks(chunks: map<nat, Bytes>, f: File) {
    forall i {:trigger HoldsSlice(f.plaintext, f.manifest.chunkSize, chunks, i)} ::
      i in chunks ==> HoldsSlice(f.plaintext, f.manifest.chunkSize, chunks, i)
  }

  ghost predicate GenuineOutgoing(o: Outgoing, f: File) {
    o.key == f.key && o.prefix == f.prefix ==> o.plaintext == f.plaintext && o.manifest.chunkSize == f.manifest.chunkSize
  }

  ghost predicate GenuineIncoming(t: Incoming, f: File) {
    t.manifest == f.manifest && t.key == f.key && t.prefix == f.prefix && GenuineChunks(t.chunks, f)
  }

  ghost predicate GenuineDevice(rt: Runtime, f: File) {
    && (forall id :: id in rt.outgoing ==> GenuineOutgoing(rt.outgoing[id], f))
    && (f.manifest.attachmentId in rt.incoming ==> GenuineIncoming(rt.incoming[f.manifest.attachmentId], f))
  }

  ghost predicate Genuine(w: World, f: File) {
    && (forall d :: d in w.devices ==> GenuineDevice(w.devices[d].rt, f))
    && (forall frame :: frame in w.wire ==> GenuineFrame(frame, f))
  }

  // ------------------------------------------------------------- the invariant

  lemma {:induction false} IngestStaysGenuine(t: Incoming, frame: ChunkFrame, f: File)
    requires WellFormed(t) && Honest(f) && GenuineIncoming(t, f) && GenuineFrame(frame, f)
    ensures GenuineIncoming(Ops.Ingested(t, frame).0, f)
  {
    IngestEffect(t, frame);
    if Accepts(t, frame) {
      AddedChunkIsGenuine(t.chunks, f, frame.chunkIndex, frame.ciphertext.value.body);
    }
  }

  lemma AddedChunkIsGenuine(chunks: map<nat, Bytes>, f: File, i: nat, body: Bytes)
    requires GenuineChunks(chunks, f) && ChunkSlice(f.plaintext, i, f.manifest.chunkSize) == Some(body)
    ensures GenuineChunks(chunks[i := body], f)
  {
    var more := chunks[i := body];
    forall j | j in more ensures HoldsSlice(f.plaintext, f.manifest.chunkSize, more, j) {
      assert j != i ==> HoldsSlice(f.plaintext, f.manifest.chunkSize, chunks, j);
    }
  }

  lemma {:induction false} ServedFramesAreGenuine(o: Outgoing, id: string, indices: seq<nat>, f: File)
    requires GenuineOutgoing(o, f)
    ensures var (u, frames) := Ops.Served(o, id, indices);
      && u == o.(servedChunks := u.servedChunks)
      && forall frame :: frame in frames ==> GenuineFrame(frame, f)
  {
    if indices != [] {
      ServedFramesAreGenuine(o, id, indices[..|indices| - 1], f);
    }
  }

  lemma {:induction false} IncomingStaysGenuine(rt: Runtime, op: Operation, f: File)
    requires Sound(rt) && Honest(f) && Trusted(On("", op), f)
    requires op.Ingest? ==> GenuineFrame(op.frame, f)
    requires GenuineDevice(rt, f)
    ensures var rt' := Apply(rt, op).0;
      f.manifest.attachmentId in rt'.incoming ==> GenuineIncoming(rt'.incoming[f.manifest.attachmentId], f)
  {
    match op
    case Register(m) => RegisterStaysGenuine(rt, m, f);
    case Start(k) => StopsStayGenuine(rt, k, f);
    case Ingest(frame) => IngestKeepsDevice(rt, frame, f);
    case Stream(k, start, end) => StreamStaysGenuine(rt, k, start, end, f);
    case Request(k, now, budget) => RequestStaysGenuine(rt, k, now, budget, f);
    case Cancel(k) => StopsStayGenuine(rt, k, f);
    case Fail(k) => StopsStayGenuine(rt, k, f);
    case Forget(k) => StopsStayGenuine(rt, k, f);
    case _ => assert rt.incoming == Apply(rt, op).0.incoming by { SendersLeaveIncoming(rt, op); }
  }

  lemma IngestKeepsDevice(rt: Runtime, frame: ChunkFrame, f: File)
    requires Sound(rt) && Honest(f) && GenuineDevice(rt, f) && GenuineFrame(frame, f)
    ensures GenuineDevice(Ops.IngestChunk(rt, frame).0, f)
  {
    if frame.attachmentId == f.manifest.attachmentId && frame.attachmentId in rt.incoming {
      IngestStaysGenuine(rt.incoming[frame.attachmentId], frame, f);
    }
  }

  lemma StreamStaysGenuine(rt: Runtime, k: string, start: nat, end: nat, f: File)
    requires Sound(rt) && GenuineDevice(rt, f)
    ensures GenuineDevice(Ops.StreamedRange(rt, k, start, end).0, f)
  {
    if k in rt.incoming {
      StreamKeepsContents(rt.incoming[k], start, end);
    }
  }

  lemma RequestStaysGenuine(rt: Runtime, k: string, now: nat, budget: nat, f: File)
    requires Sound(rt) && GenuineDevice(rt, f)
    ensures GenuineDevice(Ops.NextRequest(rt, k, now, budget).0, f)
  {
    if k in rt.incoming {
      RequestKeepsContents(rt, k, now, budget);
    }
  }

  lemma RegisterStaysGenuine(rt: Runtime, m: Manifest, f: File)
    requires Honest(f) && Trusted(On("", Register(m)), f) && GenuineDevice(rt, f)
    ensures var rt' := Ops.RegisterIncoming(rt, m).0;
      f.manifest.attachmentId in rt'.incoming ==> GenuineIncoming(rt'.incoming[f.manifest.attachmentId], f)
  {
  }

  lemma StopsStayGenuine(rt: Runtime, k: string, f: File)
    requires GenuineDevice(rt, f)
    ensures GenuineDevice(Ops.StartDownload(rt, k).0, f) && GenuineDevice(Ops.Cancel(rt, k), f)
    ensures GenuineDevice(Ops.FailIncoming(rt, k), f) && GenuineDevice(Ops.Forget(rt, k), f)
  {
  }

  lemma StreamKeepsContents(t: Incoming, start: nat, end: nat)
    requires WellFormed(t)
    ensures var u := Ops.Streamed(t, start, end).0;
      u == t.(downloadStarted := true, priorityChunk := u.priorityChunk)
  {
  }

  lemma RequestKeepsContents(rt: Runtime, k: string, now: nat, budget: nat)
    requires Sound(rt) && k in rt.incoming
    ensures var rt' := Ops.NextRequest(rt, k, now, budget).0;
      && rt'.incoming.Keys == rt.incoming.Keys
      && rt'.outgoing == rt.outgoing
      && (forall j :: j in rt.incoming && j != k ==> rt'.incoming[j] == rt.incoming[j])
      && var (t, u) := (rt.incoming[k], rt'.incoming[k]);
         u == t.(requestCursor := u.requestCursor, priorityChunk := u.priorityChunk, requestedAt := u.requestedAt)
  {
    NextRequestEffect(rt, k, now, budget);
    RequestShape(rt.incoming[k], now,
                 Min(Min(budget, Ops.AvailableSlots(rt, now)), RequestBatch(rt.incoming[k].manifest.chunkSize)));
  }

  lemma {:induction false} OutgoingStaysGenuine(rt: Runtime, op: Operation, f: File)
    requires Sound(rt) && Honest(f) && Trusted(On("", op), f) && GenuineDevice(rt, f)
    ensures forall id :: id in Apply(rt, op).0.outgoing ==> GenuineOutgoing(Apply(rt, op).0.outgoing[id], f)
    ensures forall frame :: frame in Apply(rt, op).1 ==> GenuineFrame(frame, f)
  {
    match op
    case Serve(request) =>
      if request.attachmentId in rt.outgoing {
        var o := rt.outgoing[request.attachmentId];
        var taken := Min(|request.chunkIndices|, RequestBatch(o.manifest.chunkSize));
        ServedFramesAreGenuine(o, request.attachmentId, request.chunkIndices[..taken], f);
      }
    case Restore(m, bytes) => RestoreStaysGenuine(rt, m, bytes, f);
    case Request(k, now, budget) => RequestStaysGenuine(rt, k, now, budget, f);
    case Register(m) =>
    case Start(k) => StopsStayGenuine(rt, k, f);
    case Ingest(frame) =>
    case Stream(k, start, end) => StreamStaysGenuine(rt, k, start, end, f);
    case Cancel(k) => StopsStayGenuine(rt, k, f);
    case Fail(k) => StopsStayGenuine(rt, k, f);
    case Forget(k) => StopsStayGenuine(rt, k, f);
    case Prepare(_, _, _) =>
    case Resume(_) =>
  }

  /** The restored bytes hash to the sender's digest, so they are the sender's. */
  lemma RestoreStaysGenuine(rt: Runtime, m: Manifest, bytes: Bytes, f: File)
    requires Honest(f) && Trusted(On("", Restore(m, bytes)), f) && GenuineDevice(rt, f)
    ensures var rt' := Ops.RestoreOutgoing(rt, m, bytes).0;
      forall id :: id in rt'.outgoing ==> GenuineOutgoing(rt'.outgoing[id], f)
  {
  }

  lemma {:induction false} StepStaysGenuine(w: World, e: Event, f: File)
    requires AllSound(w) && Enabled(w, e) && Honest(f) && Trusted(e, f) && Genuine(w, f)
    ensures Genuine(Step(w, e), f)
  {
    if e.On? {
      var rt := w.devices[e.device].rt;
      assert Trusted(On("", e.operation), f);
      IncomingStaysGenuine(rt, e.operation, f);
      OutgoingStaysGenuine(rt, e.operation, f);
    }
  }

  ghost predicate GenuineAt(ws: seq<World>, f: File, n: nat) {
    n < |ws| && AllSound(ws[n]) && Genuine(ws[n], f)
  }

  lemma FollowingStaysGenuine(ws: seq<World>, events: seq<Event>, f: File, n: nat)
    requires Honest(f) && Follows(ws, events, n) && Trusted(events[n], f) && GenuineAt(ws, f, n)
    ensures GenuineAt(ws, f, n + 1)
  {
    StepStaysGenuine(ws[n], events[n], f);
  }

  lemma {:induction false} GenuineToTheEnd(ws: seq<World>, events: seq<Event>, f: File, n: nat)
    requires Honest(f) && n <= |events| && GenuineAt(ws, f, 0)
    requires forall j :: 0 <= j < n ==> Follows(ws, events, j) && Trusted(events[j], f)
    ensures GenuineAt(ws, f, n)
  {
    if n > 0 {
      GenuineToTheEnd(ws, events, f, n - 1);
      FollowingStaysGenuine(ws, events, f, n - 1);
    }
  }

  lemma {:induction false} TraceStaysGenuine(ws: seq<World>, events: seq<Event>, f: File, n: nat)
    requires Trace(ws, events) && AllSound(ws[0]) && n < |ws|
    requires Honest(f) && AllTrusted(events, f) && Genuine(ws[0], f)
    ensures AllSound(ws[n]) && Genuine(ws[n], f)
  {
    forall j | 0 <= j < n ensures Follows(ws, events, j) && Trusted(events[j], f) {
      StepOfTrace(ws, events, j);
      assert events[j] in events;
    }
    GenuineToTheEnd(ws, events, f, n);
  }

  // ------------------------------------------------------------- what a caller sees

  /** A transfer of the file, whatever became of it in between. */
  ghost predicate Faithful(t: Incoming, f: File) {
    WellFormed(t) && GenuineIncoming(t, f)
  }

  /** Reassembly. After any run, on any device: every stored chunk is the
      sender's, an unfinished download lacks a chunk, and no frame that can
      arrive makes the size or hash checks fail or completes anything but the
      sender's file. */
  lemma {:induction false} DeliveryIsFaithful(
    names: set<string>, ws: seq<World>, events: seq<Event>, n: nat, f: File, d: string, frame: ChunkFrame)
    requires Honest(f) && Trace(ws, events) && ws[0] == Boot(names) && n < |ws| && AllTrusted(events, f)
    requires d in ws[n].devices && frame in ws[n].wire
    requires f.manifest.attachmentId in ws[n].devices[d].rt.incoming
    ensures var rt := ws[n].devices[d].rt;
      var t := rt.incoming[f.manifest.attachmentId];
      && Faithful(t, f)
      && (t.state == Active ==> exists i :: 0 <= i < f.manifest.chunkCount && i !in t.chunks)
      && (t.state == Complete ==> Join(t.chunks, 0, f.manifest.chunkCount) == f.plaintext)
      && (frame.attachmentId == f.manifest.attachmentId ==> FaithfulAnswer(t, frame, Ops.IngestChunk(rt, frame).1, f))
  {
    TraceStaysGenuine(ws, events, f, n);
    var rt := ws[n].devices[d].rt;
    var t := rt.incoming[f.manifest.attachmentId];
    if t.state == Active { SomeChunkMissing(t); }
    if t.state == Complete { AllChunksJoin(t, f); }
    IngestIsFaithful(t, frame, f);
  }

  /** The frame carries the sender's chunk at its index. */
  ghost predicate Carries(frame: ChunkFrame, f: File) {
    && frame.ciphertext.Encoded? && UnderKey(frame, f)
    && frame.ciphertext.value.index == frame.chunkIndex < f.manifest.chunkCount
  }

  /** What a frame is answered, by what the transfer holds of the file: a repeat or a
      stopped transfer, an index past the end, text that does not decode or open, one
      more chunk, or the file itself when no other chunk is missing. */
  ghost predicate FaithfulAnswer(t: Incoming, frame: ChunkFrame, answer: Result<ChunkOutcome, AttachmentError>, f: File) {
    var i := frame.chunkIndex;
    var missing := t.state == Active && i !in t.chunks && i < f.manifest.chunkCount;
    var last := forall j :: 0 <= j < f.manifest.chunkCount ==> j == i || j in t.chunks;
    && (answer == Ok(Duplicate) <==> t.state != Active || i in t.chunks)
    && (answer == Ok(Unknown) <==> t.state == Active && i >= f.manifest.chunkCount)
    && (answer.Err? <==> missing && !Carries(frame, f))
    && (answer.Err? ==> answer.error == if frame.ciphertext.Garbled? then Codec("chunk base64") else Crypto)
    && (missing && Carries(frame, f) && last ==>
          answer == Ok(Completed(f.manifest.attachmentId, Sha256(f.plaintext), f.plaintext)))
    && (missing && Carries(frame, f) && !last ==>
          answer == Ok(Progress(TransferProgress(
            f.manifest.attachmentId, |f.plaintext|, f.manifest.chunkCount, |t.chunks| + 1, Active))))
  }

  lemma {:induction false} SomeChunkMissing(t: Incoming)
    requires WellFormed(t) && t.state == Active
    ensures exists i :: 0 <= i < t.manifest.chunkCount && i !in t.chunks
  {
    if forall i :: 0 <= i < t.manifest.chunkCount ==> i in t.chunks {
      FullMapCounts(t.chunks, t.manifest.chunkCount);
      assert false;
    }
  }

  lemma {:induction false} AllChunksJoin(t: Incoming, f: File)
    requires Honest(f) && GenuineIncoming(t, f) && |t.chunks| == t.manifest.chunkCount
    requires ChunksFit(t.manifest, t.chunks)
    ensures Join(t.chunks, 0, t.manifest.chunkCount) == f.plaintext
  {
    CountMeansAll(t);
    SlicesJoin(f.plaintext, f.manifest.chunkSize, t.chunks, 0, t.manifest.chunkCount);
    OffsetsFit(f.manifest, 0);
    assert Offset(f.plaintext, f.manifest.chunkSize, 0) == 0;
    assert Offset(f.plaintext, f.manifest.chunkSize, t.manifest.chunkCount) == |f.plaintext|;
  }

  /** All but one of the indices below n are here exactly when n - 1 of them are. */
  lemma {:induction false} OneMissing(held: set<nat>, n: nat, i: nat)
    requires (forall j :: j in held ==> j < n) && i < n && i !in held
    ensures |held| + 1 == n <==> forall j :: 0 <= j < n ==> j == i || j in held
  {
    var more, all := held + {i}, Range(0, n);
    assert |more| == |held| + 1;
    SubsetCounts(more, all);
    if forall j :: 0 <= j < n ==> j == i || j in held {
      assert more == all;
    }
  }

  lemma {:induction false} CarriedChunkIsTaken(t: Incoming, frame: ChunkFrame, f: File)
    requires Honest(f) && Faithful(t, f) && GenuineFrame(frame, f)
    requires t.state == Active && frame.chunkIndex !in t.chunks && frame.chunkIndex < f.manifest.chunkCount
    ensures Carries(frame, f) <==> Accepts(t, frame)
    ensures frame.ciphertext.Encoded? && !Carries(frame, f) ==>
      OpenChunk(t.key, t.prefix, frame.chunkIndex, frame.ciphertext.value).None?
  {
    SliceHasExpectedLength(f.manifest, f.plaintext, frame.chunkIndex);
  }

  lemma {:induction false} IngestIsFaithful(t: Incoming, frame: ChunkFrame, f: File)
    requires Honest(f) && Faithful(t, f) && GenuineFrame(frame, f)
    ensures frame.attachmentId == f.manifest.attachmentId ==> FaithfulAnswer(t, frame, Ops.Ingested(t, frame).1, f)
  {
    var i := frame.chunkIndex;
    if t.state == Active && i < t.manifest.chunkCount && i !in t.chunks {
      OneMissing(t.chunks.Keys, t.manifest.chunkCount, i);
      CarriedChunkIsTaken(t, frame, f);
      if Carries(frame, f) {
        var u := t.(chunks := t.chunks[i := frame.ciphertext.value.body]);
        IngestStaysGenuine(t, frame, f);
        AddedChunkFits(t, i, frame.ciphertext.value.body);
        if |u.chunks| == u.manifest.chunkCount {
          AllChunksJoin(u, f);
        }
      }
    }
  }

  /** No genuine frame makes a transfer fail. */
  lemma {:induction false} GenuineFrameCannotFail(t: Incoming, frame: ChunkFrame, f: File)
    requires Honest(f) && Faithful(t, f) && GenuineFrame(frame, f) && frame.attachmentId == f.manifest.attachmentId
    ensures Ops.Ingested(t, frame).0.state == Failed ==> t.state == Failed
  {
    IngestIsFaithful(t, frame, f);
  }

  // ------------------------------------------------------------- streaming

  /** A byte of the range, which is at least its first byte. */
  predicate InRange(f: File, start: nat, end: nat, p: nat) {
    start <= p < |f.plaintext| && (p < end || p == start)
  }

  /** Chunk i holds byte p. */
  predicate HoldsByte(size: nat, i: nat, p: nat) {
    i * size <= p < (i + 1) * size
  }

  /** Chunk i holds a byte of the range. */
  ghost predicate Touched(f: File, start: nat, end: nat, i: nat) {
    exists p: nat :: InRange(f, start, end, p) && HoldsByte(f.manifest.chunkSize, i, p)
  }

  /** A range is answered Ready exactly when the chunk of each of its bytes is here,
      and is then that range of the sender's file; otherwise the scheduler is pointed
      at the first of those chunks that is missing. */
  ghost predicate FaithfulRange(t: Incoming, f: File, start: nat, end: nat, u: Incoming, range: StreamRange) {
    match range
    case Ready(bytes, length, mime) =>
      && length == |f.plaintext| && mime == f.manifest.mime
      && bytes == (if start < Min(end, length) then f.plaintext[start..Min(end, length)] else [])
      && (forall i: nat :: Touched(f, start, end, i) ==> i in t.chunks)
    case Pending(length) =>
      && length == |f.plaintext| && u.priorityChunk.Some?
      && u.priorityChunk.value !in t.chunks && Touched(f, start, end, u.priorityChunk.value)
      && forall i: nat :: i < u.priorityChunk.value && Touched(f, start, end, i) ==> i in t.chunks
    case NotIncoming => false
  }

  lemma {:induction false} StreamIsFaithful(t: Incoming, f: File, start: nat, end: nat)
    requires Honest(f) && Faithful(t, f)
    ensures var (u, range) := Ops.Streamed(t, start, end); FaithfulRange(t, f, start, end, u, range)
  {
    var m := f.manifest;
    if start < m.totalSize {
      var stop := Max(Min(end, m.totalSize), start);
      CoveringFits(m, start, stop);
      CoveringIsExact(f, start, end);
      var (first, beyond) := Ops.Covering(m.chunkSize, start, stop);
      if Ops.FirstMissing(t.(downloadStarted := true), first, beyond).None? {
        forall i | first <= i < beyond ensures HoldsSlice(f.plaintext, m.chunkSize, t.chunks, i) {
          assert i in t.chunks;
        }
        SlicesJoin(f.plaintext, m.chunkSize, t.chunks, first, beyond);
        CutFromJoin(f.plaintext, Offset(f.plaintext, m.chunkSize, first), Offset(f.plaintext, m.chunkSize, beyond), start, stop);
      }
    }
  }

  /** The covering chunks are those with a byte in range. */
  lemma {:induction false} CoveringIsExact(f: File, start: nat, end: nat)
    requires Honest(f) && start < |f.plaintext|
    ensures var (first, beyond) := Ops.Covering(f.manifest.chunkSize, start, Max(Min(end, |f.plaintext|), start));
      forall i: nat :: Touched(f, start, end, i) <==> first <= i < beyond
  {
    var (first, beyond) := Ops.Covering(f.manifest.chunkSize, start, Max(Min(end, |f.plaintext|), start));
    forall i: nat ensures Touched(f, start, end, i) <==> first <= i < beyond {
      if Touched(f, start, end, i) {
        TouchedIsCovered(f, start, end, i);
      } else if first <= i < beyond {
        CoveredIsTouched(f, start, end, i);
      }
    }
  }

  function LastByte(f: File, start: nat, end: nat): (p: nat) {
    if start < Min(end, |f.plaintext|) then Min(end, |f.plaintext|) - 1 else start
  }

  lemma TouchedIsCovered(f: File, start: nat, end: nat, i: nat)
    requires Honest(f) && start < |f.plaintext| && Touched(f, start, end, i)
    ensures start / f.manifest.chunkSize <= i <= LastByte(f, start, end) / f.manifest.chunkSize
  {
    var p: nat :| InRange(f, start, end, p) && HoldsByte(f.manifest.chunkSize, i, p);
    ByteIsCovered(f.manifest.chunkSize, start, LastByte(f, start, end), i, p);
  }

  lemma ByteIsCovered(size: nat, start: nat, last: nat, i: nat, p: nat)
    requires size > 0 && start <= p <= last && HoldsByte(size, i, p)
    ensures start / size <= i <= last / size
  {
    DivisionSpans(start, size);
    DivisionSpans(last, size);
    if i < start / size { MulMonotone(i + 1, start / size, size); }
    if i > last / size { MulMonotone(last / size + 1, i, size); }
  }

  lemma CoveredIsTouched(f: File, start: nat, end: nat, i: nat)
    requires Honest(f) && start < |f.plaintext|
    requires start / f.manifest.chunkSize <= i <= LastByte(f, start, end) / f.manifest.chunkSize
    ensures Touched(f, start, end, i)
  {
    var size, last := f.manifest.chunkSize, LastByte(f, start, end);
    var p := FirstByteFrom(size, start, last, i);
    assert InRange(f, start, end, p);
  }

  /** A byte of the chunk between the two. */
  lemma FirstByteFrom(size: nat, start: nat, last: nat, i: nat) returns (p: nat)
    requires size > 0 && start <= last && start / size <= i <= last / size
    ensures start <= p <= last && HoldsByte(size, i, p)
  {
    DivisionSpans(start, size);
    if i == start / size {
      p := start;
    } else {
      DivisionSpans(last, size);
      MulMonotone(start / size + 1, i, size);
      MulMonotone(i, last / size, size);
      p := i * size;
      assert (i + 1) * size == i * size + size;
    }
  }

  /** Neither fallback of the slice is taken: the range lies inside the joined chunks. */
  lemma CutFromJoin(s: Bytes, from: nat, to: nat, start: nat, stop: nat)
    requires from <= start <= stop <= to <= |s|
    ensures var offset := start - from;
      Ops.GetRange(s[from..to], offset, Min(offset + stop - start, |s[from..to]|)) == Some(s[start..stop])
  {
    var a, b := start - from, stop - from;
    var cut := s[from..to][a..b];
    assert |cut| == |s[start..stop]|;
    forall k | 0 <= k < |cut| ensures cut[k] == s[start..stop][k] {
      assert cut[k] == s[from..to][a + k];
    }
    assert cut == s[start..stop];
  }

  /** After a Pending answer, the next request for the transfer starts at that
      first missing chunk, unless its request is still outstanding. */
  lemma {:induction false} PendingChunkIsAskedFirst(rt: Runtime, id: string, start: nat, end: nat, now: nat, budget: nat)
    requires Sound(rt) && id in rt.incoming && rt.incoming[id].state == Active
    requires Ops.StreamedRange(rt, id, start, end).1.Pending?
    requires Min(budget, Ops.AvailableSlots(Ops.StreamedRange(rt, id, start, end).0, now)) > 0
    ensures var streamed := Ops.StreamedRange(rt, id, start, end).0;
      var first := streamed.incoming[id].priorityChunk;
      && first.Some? && first.value !in rt.incoming[id].chunks
      && (Outstanding(rt.incoming[id], first.value, now)
          || (&& Ops.NextRequest(streamed, id, now, budget).1.Some?
              && Ops.NextRequest(streamed, id, now, budget).1.value.chunkIndices != []
              && Ops.NextRequest(streamed, id, now, budget).1.value.chunkIndices[0] == first.value))
  {
    var streamed := Ops.StreamedRange(rt, id, start, end).0;
    var t := streamed.incoming[id];
    StreamKeepsWellFormed(rt.incoming[id], start, end);
    NextRequestEffect(streamed, id, now, budget);
    if !Outstanding(rt.incoming[id], t.priorityChunk.value, now) {
      PriorityLeads(t, now, Min(Min(budget, Ops.AvailableSlots(streamed, now)), RequestBatch(t.manifest.chunkSize)));
    }
  }

  // ------------------------------------------------------------- asking and serving

  /** A sender with the same manifest answers a request index for index, and
      nothing of the request is cut off. */
  lemma {:induction false} RequestIsServedInFull(
    rt: Runtime, id: string, now: nat, budget: nat, sender: Runtime, f: File)
    requires Honest(f) && Sound(rt) && id == f.manifest.attachmentId && id in rt.incoming && rt.incoming[id].manifest == f.manifest
    requires id in sender.outgoing && sender.outgoing[id].state == Active
    requires sender.outgoing[id].manifest == f.manifest && sender.outgoing[id].plaintext == f.plaintext
    requires sender.outgoing[id].key == f.key && sender.outgoing[id].prefix == f.prefix
    requires Ops.NextRequest(rt, id, now, budget).1.Some?
    ensures var request := Ops.NextRequest(rt, id, now, budget).1.value;
      && request.attachmentId == id
      && 0 < |request.chunkIndices| <= RequestBatch(f.manifest.chunkSize)
      && |request.chunkIndices| <= budget
      && Increasing(request.chunkIndices)
      && (forall i :: i in request.chunkIndices ==> i < f.manifest.chunkCount && Wanted(rt.incoming[id], i, now))
      && Ops.ServeChunks(sender, request).1 == Ok(FramesFor(f, request.chunkIndices))
  {
    NextRequestEffect(rt, id, now, budget);
    var t := rt.incoming[id];
    var batch := Min(Min(budget, Ops.AvailableSlots(rt, now)), RequestBatch(t.manifest.chunkSize));
    RequestShape(t, now, batch);
    var indices := Ops.NextRequest(rt, id, now, budget).1.value.chunkIndices;
    assert indices[..|indices|] == indices;
    ServedFrames(sender.outgoing[id], id, indices, f);
  }

  /** One frame per index, in the order asked. */
  ghost function FramesFor(f: File, indices: seq<nat>): (r: seq<ChunkFrame>)
    requires Honest(f) && forall i :: i in indices ==> i < f.manifest.chunkCount
    ensures |r| == |indices|
    ensures forall k :: 0 <= k < |r| ==> indices[k] in indices && r[k] == FrameOf(f, indices[k])
  {
    seq(|indices|, k requires 0 <= k < |indices| => assert indices[k] in indices; FrameOf(f, indices[k]))
  }

  ghost function FrameOf(f: File, i: nat): (r: ChunkFrame)
    requires Honest(f) && i < f.manifest.chunkCount
  {
    SliceHasExpectedLength(f.manifest, f.plaintext, i);
    ChunkFrame(f.manifest.attachmentId, i,
               Encoded(Sealed(f.key, f.prefix, i, ChunkSlice(f.plaintext, i, f.manifest.chunkSize).value)))
  }

  lemma {:induction false} ServedFrames(o: Outgoing, id: string, indices: seq<nat>, f: File)
    requires Honest(f) && id == f.manifest.attachmentId
    requires o.plaintext == f.plaintext && o.manifest == f.manifest && o.key == f.key && o.prefix == f.prefix
    requires forall i :: i in indices ==> i < f.manifest.chunkCount
    ensures Ops.Served(o, id, indices).1 == FramesFor(f, indices)
  {
    if indices != [] {
      var front, last := indices[..|indices| - 1], indices[|indices| - 1];
      assert forall i :: i in front ==> i in indices;
      ServedFrames(o, id, front, f);
      assert last in indices;
      SliceHasExpectedLength(f.manifest, f.plaintext, last);
      assert Ops.Served(o, id, indices).1 == Ops.Served(o, id, front).1 + [FrameOf(f, last)];
    }
  }
}
