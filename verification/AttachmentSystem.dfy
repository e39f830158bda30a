/** Any number of devices exchanging files over a network that loses, repeats,
    reorders and invents frames. Every run of every operation of
    mosh-core/src/attachment_runtime is a sequence of the events below. */
module AttachmentSystem {
  import opened Wrappers
  import opened Primitives
  import opened AttachmentTypes
  import opened AttachmentChunks
  import opened AttachmentTransfers
  import Ops = AttachmentOperations

  datatype Operation =
    | Register(manifest: Manifest)
    | Start(id: string)
    | Ingest(frame: ChunkFrame)
    | Cancel(id: string)
    | Fail(id: string)
    | Forget(id: string)
    | Stream(id: string, start: nat, end: nat)
    | Request(id: string, now: nat, budget: nat)
    | Prepare(attachment: Ops.OutgoingAttachment, key: Key, prefix: NoncePrefix)
    | Restore(manifest: Manifest, bytes: Bytes)
    | Resume(id: string)
    | Serve(request: ChunkRequest)

  datatype Device = Device(rt: Runtime, clock: nat)

  datatype Event = On(device: string, operation: Operation) | Inject(frame: ChunkFrame)

  /** The devices, and every frame ever put on the wire. */
  datatype World = World(devices: map<string, Device>, wire: set<ChunkFrame>)

  ghost predicate Sound(rt: Runtime) {
    forall id :: id in rt.incoming ==> WellFormed(rt.incoming[id])
  }

  ghost predicate AllSound(w: World) {
    forall d :: d in w.devices ==> Sound(w.devices[d].rt)
  }

  /** One operation on one device, and the frames it puts on the wire. */
  ghost function Apply(rt: Runtime, op: Operation): (r: (Runtime, set<ChunkFrame>))
    requires Sound(rt)
  {
    match op
    case Register(m) => (Ops.RegisterIncoming(rt, m).0, {})
    case Start(id) => (Ops.StartDownload(rt, id).0, {})
    case Ingest(frame) => (Ops.IngestChunk(rt, frame).0, {})
    case Cancel(id) => (Ops.Cancel(rt, id), {})
    case Fail(id) => (Ops.FailIncoming(rt, id), {})
    case Forget(id) => (Ops.Forget(rt, id), {})
    case Stream(id, start, end) => (Ops.StreamedRange(rt, id, start, end).0, {})
    case Request(id, now, budget) => (Ops.NextRequest(rt, id, now, budget).0, {})
    case Prepare(attachment, key, prefix) => (Ops.PrepareOutgoing(rt, attachment, key, prefix).0, {})
    case Restore(m, bytes) => (Ops.RestoreOutgoing(rt, m, bytes).0, {})
    case Resume(id) => (Ops.ResumeOutgoing(rt, id), {})
    case Serve(request) =>
      var (u, frames) := Ops.ServeChunks(rt, request);
      (u, if frames.Ok? then set f | f in frames.value else {})
  }

  /** Clocks do not run backwards; only frames on the wire arrive. */
  ghost predicate Enabled(w: World, e: Event) {
    match e
    case On(d, op) =>
      && d in w.devices
      && (op.Request? ==> op.now >= w.devices[d].clock)
      && (op.Ingest? ==> op.frame in w.wire)
    case Inject(_) => true
  }

  ghost function Step(w: World, e: Event): (w': World)
    requires AllSound(w) && Enabled(w, e)
    ensures AllSound(w')
  {
    match e
    case On(d, op) =>
      var before := w.devices[d];
      var (rt, sent) := Apply(before.rt, op);
      ApplyKeepsSound(before.rt, op);
      World(w.devices[d := Device(rt, if op.Request? then op.now else before.clock)], w.wire + sent)
    case Inject(frame) => World(w.devices, w.wire + {frame})
  }

  /** A run: the worlds before and after each event, each event enabled in its turn. */
  ghost predicate Trace(ws: seq<World>, events: seq<Event>) {
    && |ws| == |events| + 1
    && forall i {:trigger events[i]} :: 0 <= i < |events| ==>
         Enabled(ws[i], events[i]) && (AllSound(ws[i]) ==> ws[i + 1] == Step(ws[i], events[i]))
  }

  lemma {:induction false} TraceStaysSound(ws: seq<World>, events: seq<Event>, n: nat)
    requires Trace(ws, events) && AllSound(ws[0]) && n < |ws|
    ensures AllSound(ws[n])
  {
    if n > 0 {
      TraceStaysSound(ws, events, n - 1);
      assert Enabled(ws[n - 1], events[n - 1]);
    }
  }

  ghost predicate Follows(ws: seq<World>, events: seq<Event>, j: nat) {
    && j + 1 < |ws| && j < |events| && AllSound(ws[j])
    && Enabled(ws[j], events[j]) && ws[j + 1] == Step(ws[j], events[j])
  }

  /** Every event of a run is a step from one sound world to the next. */
  lemma StepOfTrace(ws: seq<World>, events: seq<Event>, n: nat)
    requires Trace(ws, events) && AllSound(ws[0]) && n + 1 < |ws|
    ensures Follows(ws, events, n)
  {
    TraceStaysSound(ws, events, n);
    var e := events[n];
  }

  ghost function Boot(names: set<string>): (w: World) {
    World(map d | d in names :: Device(Runtime(map[], map[]), 0), {})
  }

  // ------------------------------------------------------------- records stay sound

  lemma {:induction false} ApplyKeepsSound(rt: Runtime, op: Operation)
    requires Sound(rt)
    ensures Sound(Apply(rt, op).0)
  {
    match op
    case Register(m) => RegisterKeepsSound(rt, m);
    case Start(id) => StartKeepsSound(rt, id);
    case Ingest(frame) => IngestKeepsSound(rt, frame);
    case Stream(id, start, end) => StreamKeepsSound(rt, id, start, end);
    case Request(id, now, budget) => RequestKeepsSound(rt, id, now, budget);
    case Cancel(id) => StopsKeepSound(rt, id);
    case Fail(id) => StopsKeepSound(rt, id);
    case Forget(id) => StopsKeepSound(rt, id);
    case _ => SendersLeaveIncoming(rt, op);
  }

  lemma RegisterKeepsSound(rt: Runtime, m: Manifest)
    requires Sound(rt)
    ensures Sound(Ops.RegisterIncoming(rt, m).0)
  {
    if Ops.RegisterIncoming(rt, m).1.Ok? {
      assert 0 < m.chunkCount by { OffsetsFit(m, 0); }
    }
  }

  lemma StartKeepsSound(rt: Runtime, id: string)
    requires Sound(rt)
    ensures Sound(Ops.StartDownload(rt, id).0)
  {
    if id in rt.incoming {
      StartKeepsWellFormed(rt.incoming[id]);
    }
  }

  lemma IngestKeepsSound(rt: Runtime, frame: ChunkFrame)
    requires Sound(rt)
    ensures Sound(Ops.IngestChunk(rt, frame).0)
  {
    if frame.attachmentId in rt.incoming {
      IngestKeepsWellFormed(rt.incoming[frame.attachmentId], frame);
    }
  }

  lemma StreamKeepsSound(rt: Runtime, id: string, start: nat, end: nat)
    requires Sound(rt)
    ensures Sound(Ops.StreamedRange(rt, id, start, end).0)
  {
    if id in rt.incoming {
      StreamKeepsWellFormed(rt.incoming[id], start, end);
    }
  }

  lemma StopsKeepSound(rt: Runtime, id: string)
    requires Sound(rt)
    ensures Sound(Ops.Cancel(rt, id)) && Sound(Ops.FailIncoming(rt, id)) && Sound(Ops.Forget(rt, id))
  {
  }

  /** The transfer a request is made for, before and after. */
  lemma NextRequestEffect(rt: Runtime, id: string, now: nat, budget: nat)
    requires id in rt.incoming
    ensures var t := rt.incoming[id];
      var (rt', request) := Ops.NextRequest(rt, id, now, budget);
      var batch := Min(Min(budget, Ops.AvailableSlots(rt, now)), RequestBatch(t.manifest.chunkSize));
      && rt'.outgoing == rt.outgoing
      && if batch == 0 || !t.downloadStarted || t.state != Active then rt' == rt && request == None
         else
           var (u, indices) := RequestIndices(t, now, batch);
           && rt'.incoming == rt.incoming[id := MarkRequested(u, indices, now)]
           && request == if indices == [] then None else Some(ChunkRequest(id, indices))
  {
    var t := rt.incoming[id];
    var batch := Min(Min(budget, Ops.AvailableSlots(rt, now)), RequestBatch(t.manifest.chunkSize));
    if batch > 0 && t.downloadStarted && t.state == Active {
      var (u, indices) := RequestIndices(t, now, batch);
      assert indices == [] ==> MarkRequested(u, indices, now).requestedAt == u.requestedAt;
    }
  }

  lemma RequestKeepsSound(rt: Runtime, id: string, now: nat, budget: nat)
    requires Sound(rt)
    ensures Sound(Ops.NextRequest(rt, id, now, budget).0)
  {
    if id in rt.incoming {
      var t := rt.incoming[id];
      NextRequestEffect(rt, id, now, budget);
      if t.downloadStarted {
        RequestKeepsWellFormed(t, now, Min(Min(budget, Ops.AvailableSlots(rt, now)), RequestBatch(t.manifest.chunkSize)));
      }
    }
  }

  lemma SendersLeaveIncoming(rt: Runtime, op: Operation)
    requires Sound(rt) && (op.Prepare? || op.Restore? || op.Resume? || op.Serve?)
    ensures Apply(rt, op).0.incoming == rt.incoming
  {
    match op
    case Prepare(_, _, _) =>
    case Restore(_, _) =>
    case Resume(_) =>
    case Serve(_) =>
  }

  lemma StartKeepsWellFormed(t: Incoming)
    requires WellFormed(t)
    ensures WellFormed(Ops.Started(t))
  {
    assert 0 < t.manifest.chunkCount by { OffsetsFit(t.manifest, 0); }
  }

  /** What the receiver stores, when it stores something. */
  ghost predicate Accepts(t: Incoming, frame: ChunkFrame) {
    && t.state == Active && frame.chunkIndex < t.manifest.chunkCount && frame.chunkIndex !in t.chunks
    && frame.ciphertext.Encoded?
    && OpenChunk(t.key, t.prefix, frame.chunkIndex, frame.ciphertext.value).Some?
    && |frame.ciphertext.value.body| == ExpectedLength(t.manifest, frame.chunkIndex)
  }

  /** A frame adds its chunk, or changes at most the state. */
  lemma IngestEffect(t: Incoming, frame: ChunkFrame)
    ensures var u := Ops.Ingested(t, frame).0;
      if Accepts(t, frame) then
        && u == t.(chunks := t.chunks[frame.chunkIndex := frame.ciphertext.value.body], state := u.state)
        && (if |u.chunks| == t.manifest.chunkCount then u.state == Complete || u.state == Failed else u.state == Active)
      else u == t || u == t.(state := Failed)
  {
  }

  lemma {:induction false} IngestKeepsWellFormed(t: Incoming, frame: ChunkFrame)
    requires WellFormed(t)
    ensures WellFormed(Ops.Ingested(t, frame).0)
  {
    IngestEffect(t, frame);
    if Accepts(t, frame) {
      AddedChunkFits(t, frame.chunkIndex, frame.ciphertext.value.body);
    }
  }

  lemma AddedChunkFits(t: Incoming, i: nat, body: Bytes)
    requires WellFormed(t) && i < t.manifest.chunkCount && i !in t.chunks && |t.chunks| < t.manifest.chunkCount
    requires |body| == ExpectedLength(t.manifest, i)
    ensures ChunksFit(t.manifest, t.chunks[i := body])
    ensures CursorCovered(t.chunks[i := body].Keys, t.requestedAt.Keys, t.requestCursor)
    ensures |t.chunks[i := body]| <= t.manifest.chunkCount
  {
    var chunks := t.chunks[i := body];
    forall j | j in chunks ensures HasExpectedLength(t.manifest, j, chunks[j]) {
      assert j != i ==> HasExpectedLength(t.manifest, j, t.chunks[j]);
    }
  }

  lemma {:induction false} StreamKeepsWellFormed(t: Incoming, start: nat, end: nat)
    requires WellFormed(t)
    ensures WellFormed(Ops.Streamed(t, start, end).0)
  {
    var m := t.manifest;
    if start < m.totalSize {
      CoveringFits(m, start, Max(Min(end, m.totalSize), start));
    }
  }

  /** The chunks a range inside the file touches exist, and they span the range. */
  lemma {:induction false} CoveringFits(m: Manifest, start: nat, end: nat)
    requires WellSized(m) && start <= end <= m.totalSize && start < m.totalSize
    ensures var (first, beyond) := Ops.Covering(m.chunkSize, start, end);
      && first < beyond <= m.chunkCount
      && first * m.chunkSize <= start
      && end <= beyond * m.chunkSize
  {
    var c := m.chunkSize;
    var (first, beyond) := Ops.Covering(c, start, end);
    var last := beyond - 1;
    DivisionSpans(start, c);
    if end > start {
      DivisionSpans(end - 1, c);
      if last < first { MulMonotone(last + 1, first, c); }
    }
    OffsetsFit(m, last);
  }

  lemma DivisionSpans(n: nat, d: nat)
    requires d > 0
    ensures (n / d) * d <= n < (n / d + 1) * d
  {
    assert n == d * (n / d) + n % d;
  }
}
