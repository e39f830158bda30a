/** What each operation does to the tables of a device, as functions. The class
    in AttachmentRuntime.dfy performs them in place. */
module AttachmentOperations {
  import opened Wrappers
  import opened Primitives
  import opened AttachmentTypes
  import opened AttachmentChunks
  import opened AttachmentTransfers

  function ManifestKeys(m: Manifest): (r: Result<(Key, NoncePrefix), AttachmentError>) {
    match (Decode(m.keyText), Decode(m.prefixText))
    case (None, _) => Err(ManifestMismatch("key"))
    case (Some(_), None) => Err(ManifestMismatch("nonce prefix"))
    case (Some(key), Some(prefix)) => Ok((key, prefix))
  }

  function FreshIncoming(m: Manifest, key: Key, prefix: NoncePrefix): (r: Incoming) {
    Incoming(m, key, prefix, map[], Active, false, 0, map[], None)
  }

  function RegisterIncoming(rt: Runtime, m: Manifest): (r: (Runtime, Result<(), AttachmentError>)) {
    if m.attachmentId in rt.incoming then (rt, Err(DuplicateTransfer(m.attachmentId)))
    else
      match ManifestKeys(m)
      case Err(error) => (rt, Err(error))
      case Ok((key, prefix)) =>
        if m.totalSize == 0 || m.chunkSize == 0 || m.totalSize > MAX_ATTACHMENT_SIZE
        then (rt, Err(ManifestMismatch("size or chunk_size")))
        else if DivCeil(m.totalSize, m.chunkSize) != m.chunkCount
        then (rt, Err(ManifestMismatch("chunk_count")))
        else (rt.(incoming := rt.incoming[m.attachmentId := FreshIncoming(m, key, prefix)]), Ok(()))
  }

  /** A cancelled transfer keeps its chunks and resumes; a failed one starts over. */
  function Started(t: Incoming): (r: Incoming) {
    if t.state == Cancelled || t.state == Failed then
      t.(chunks := if t.state == Failed then map[] else t.chunks,
         state := Active, requestedAt := map[], requestCursor := 0, priorityChunk := None,
         downloadStarted := true)
    else t.(downloadStarted := true)
  }

  function StartDownload(rt: Runtime, id: string): (r: (Runtime, Result<(), AttachmentError>)) {
    if id !in rt.incoming then (rt, Err(UnknownTransfer(id)))
    else (rt.(incoming := rt.incoming[id := Started(rt.incoming[id])]), Ok(()))
  }

  function IngestChunk(rt: Runtime, frame: ChunkFrame): (r: (Runtime, Result<ChunkOutcome, AttachmentError>)) {
    if frame.attachmentId !in rt.incoming then (rt, Ok(Unknown))
    else
      var (t, outcome) := Ingested(rt.incoming[frame.attachmentId], frame);
      (rt.(incoming := rt.incoming[frame.attachmentId := t]), outcome)
  }

  function Ingested(t: Incoming, frame: ChunkFrame): (r: (Incoming, Result<ChunkOutcome, AttachmentError>)) {
    if t.state != Active then (t, Ok(Duplicate))
    else if frame.chunkIndex >= t.manifest.chunkCount then (t, Ok(Unknown))
    else if frame.chunkIndex in t.chunks then (t, Ok(Duplicate))
    else
      match Decode(frame.ciphertext)
      case None => (t, Err(Codec("chunk base64")))
      case Some(ciphertext) =>
        match OpenChunk(t.key, t.prefix, frame.chunkIndex, ciphertext)
        case None => (t, Err(Crypto))
        case Some(plaintext) =>
          if |plaintext| != ExpectedLength(t.manifest, frame.chunkIndex)
          then (t.(state := Failed), Err(ManifestMismatch("chunk length")))
          else
            var u := t.(chunks := t.chunks[frame.chunkIndex := plaintext]);
            if |u.chunks| != u.manifest.chunkCount
            then (u, Ok(Progress(ProgressOf(u.manifest, |u.chunks|, Active))))
            else Finished(u, frame.attachmentId)
  }

  /** The last chunk is in: check the size, check the hash, hand over the file. */
  function Finished(t: Incoming, id: string): (r: (Incoming, Result<ChunkOutcome, AttachmentError>)) {
    var assembled := Join(t.chunks, 0, t.manifest.chunkCount);
    if |assembled| != t.manifest.totalSize then (t.(state := Failed), Err(ManifestMismatch("size")))
    else if Sha256(assembled) != t.manifest.contentHash
    then (t.(state := Failed), Err(ManifestMismatch("content hash")))
    else (t.(state := Complete), Ok(Completed(id, Sha256(assembled), assembled)))
  }

  function Cancel(rt: Runtime, id: string): (r: Runtime) {
    Runtime(
      if id in rt.outgoing && rt.outgoing[id].state == Active
      then rt.outgoing[id := rt.outgoing[id].(state := Cancelled)] else rt.outgoing,
      if id in rt.incoming && rt.incoming[id].state == Active
      then rt.incoming[id := rt.incoming[id].(state := Cancelled)] else rt.incoming)
  }

  function FailIncoming(rt: Runtime, id: string): (r: Runtime) {
    if id in rt.incoming then rt.(incoming := rt.incoming[id := rt.incoming[id].(state := Failed)]) else rt
  }

  function Forget(rt: Runtime, id: string): (r: Runtime) {
    Runtime(rt.outgoing - {id}, rt.incoming - {id})
  }

  /** Every outstanding request of a started, active transfer. */
  function InFlight(rt: Runtime, now: nat): (r: set<(string, nat)>) {
    set id, i | id in rt.incoming && i in rt.incoming[id].requestedAt
      && rt.incoming[id].downloadStarted && rt.incoming[id].state == Active
      && Outstanding(rt.incoming[id], i, now) :: (id, i)
  }

  function AvailableSlots(rt: Runtime, now: nat): (r: nat) {
    if |InFlight(rt, now)| <= MAX_REQUEST_BATCH then MAX_REQUEST_BATCH - |InFlight(rt, now)| else 0
  }

  function NextRequest(rt: Runtime, id: string, now: nat, budget: nat): (r: (Runtime, Option<ChunkRequest>)) {
    var slots := Min(budget, AvailableSlots(rt, now));
    if id !in rt.incoming then (rt, None)
    else
      var t := rt.incoming[id];
      if slots == 0 || !t.downloadStarted || t.state != Active then (rt, None)
      else
        var (u, indices) := RequestIndices(t, now, Min(slots, RequestBatch(t.manifest.chunkSize)));
        if indices == [] then (rt.(incoming := rt.incoming[id := u]), None)
        else (rt.(incoming := rt.incoming[id := MarkRequested(u, indices, now)]), Some(ChunkRequest(id, indices)))
  }

  /** The first index of lo..hi that is not here. */
  function FirstMissing(t: Incoming, lo: nat, hi: nat): (r: Option<nat>)
    ensures r.Some? ==> lo <= r.value < hi && r.value !in t.chunks && AllReceived(t, lo, r.value)
    ensures r.None? ==> AllReceived(t, lo, hi)
    decreases hi - lo
  {
    if lo >= hi then None
    else if lo !in t.chunks then Some(lo)
    else FirstMissing(t, lo + 1, hi)
  }

  /** The part of s from `from` to `to`, if that is a part of it. */
  function GetRange(s: Bytes, from: int, to: int): (r: Option<Bytes>) {
    if 0 <= from <= to <= |s| then Some(s[from..to]) else None
  }

  /** The chunks a byte range touches, as a half open interval of indices. */
  function Covering(chunkSize: nat, start: nat, end: nat): (r: (nat, nat))
    requires chunkSize > 0
  {
    (start / chunkSize, (if end > start then (end - 1) / chunkSize else start / chunkSize) + 1)
  }

  function StreamedRange(rt: Runtime, id: string, start: nat, end: nat): (r: (Runtime, StreamRange))
    requires forall k :: k in rt.incoming ==> WellFormed(rt.incoming[k])
  {
    if id !in rt.incoming then (rt, NotIncoming)
    else
      var (t, range) := Streamed(rt.incoming[id], start, end);
      (rt.(incoming := rt.incoming[id := t]), range)
  }

  function Streamed(t0: Incoming, start: nat, end0: nat): (r: (Incoming, StreamRange))
    requires WellFormed(t0)
  {
    var t := t0.(downloadStarted := true);
    var m := t.manifest;
    if m.totalSize == 0 || start >= m.totalSize then (t, Ready([], m.totalSize, m.mime))
    else
      var end := Max(Min(end0, m.totalSize), start);
      var (first, beyond) := Covering(m.chunkSize, start, end);
      var missing := FirstMissing(t, first, beyond);
      if missing.Some? then (t.(priorityChunk := missing), Pending(m.totalSize))
      else
        var assembled := Join(t.chunks, first, beyond);
        var offset := start - first * m.chunkSize;
        var slice := GetRange(assembled, offset, Min(offset + end - start, |assembled|));
        (t, Ready(if slice.Some? then slice.value else [], m.totalSize, m.mime))
  }

  datatype OutgoingAttachment = OutgoingAttachment(attachmentId: string, mime: string, bytes: Bytes)

  function FreshManifest(request: OutgoingAttachment, key: Key, prefix: NoncePrefix): (r: Manifest)
    requires |request.bytes| <= MAX_ATTACHMENT_SIZE
  {
    CountFits(|request.bytes|, CHUNK_SIZE);
    Manifest(request.attachmentId, Sha256(request.bytes), request.mime, |request.bytes|, CHUNK_SIZE,
             DivCeil(|request.bytes|, CHUNK_SIZE), Encoded(key), Encoded(prefix))
  }

  lemma CountFits(n: nat, d: nat)
    requires d > 0
    ensures DivCeil(n, d) <= n
  {
    CountBoundsOffsets(n, d, n);
    assert n * d >= n by { MulMonotone(1, d, n); }
  }

  /** The key and the nonce prefix are drawn at random by the source. */
  function PrepareOutgoing(rt: Runtime, request: OutgoingAttachment, key: Key, prefix: NoncePrefix)
    : (r: (Runtime, Result<Manifest, AttachmentError>))
  {
    if request.bytes == [] then (rt, Err(Empty))
    else if |request.bytes| > MAX_ATTACHMENT_SIZE then (rt, Err(TooLarge(|request.bytes|)))
    else if request.attachmentId in rt.outgoing then (rt, Err(DuplicateTransfer(request.attachmentId)))
    else
      var m := FreshManifest(request, key, prefix);
      (rt.(outgoing := rt.outgoing[m.attachmentId := Outgoing(m, request.bytes, key, prefix, map[], Active)]), Ok(m))
  }

  function RestoreOutgoing(rt: Runtime, m: Manifest, bytes: Bytes): (r: (Runtime, Result<(), AttachmentError>)) {
    if m.attachmentId in rt.outgoing then (rt, Err(DuplicateTransfer(m.attachmentId)))
    else if |bytes| != m.totalSize || Sha256(bytes) != m.contentHash || m.chunkSize == 0
            || DivCeil(m.totalSize, m.chunkSize) != m.chunkCount
    then (rt, Err(ManifestMismatch("restored outgoing file")))
    else
      match ManifestKeys(m)
      case Err(error) => (rt, Err(error))
      case Ok((key, prefix)) =>
        (rt.(outgoing := rt.outgoing[m.attachmentId := Outgoing(m, bytes, key, prefix, map[], Active)]), Ok(()))
  }

  function ResumeOutgoing(rt: Runtime, id: string): (r: Runtime) {
    if id in rt.outgoing then rt.(outgoing := rt.outgoing[id := rt.outgoing[id].(state := Active)]) else rt
  }

  /** One more serving of a chunk; the counter is 32 bits wide. */
  function Counted(served: map<nat, u32>, index: nat): (r: map<nat, u32>) {
    served[index := if index in served then (served[index] + 1) % U32_LIMIT else 1]
  }

  /** One frame for each requested chunk the file has. */
  function Served(o: Outgoing, id: string, indices: seq<nat>): (r: (Outgoing, seq<ChunkFrame>)) {
    if indices == [] then (o, [])
    else
      var (u, frames) := Served(o, id, indices[..|indices| - 1]);
      var index := indices[|indices| - 1];
      match ChunkSlice(o.plaintext, index, o.manifest.chunkSize)
      case None => (u, frames)
      case Some(slice) =>
        (u.(servedChunks := Counted(u.servedChunks, index)),
         frames + [ChunkFrame(id, index, Encoded(Sealed(o.key, o.prefix, index, slice)))])
  }

  function ServeChunks(rt: Runtime, request: ChunkRequest): (r: (Runtime, Result<seq<ChunkFrame>, AttachmentError>)) {
    if request.attachmentId !in rt.outgoing then (rt, Err(UnknownTransfer(request.attachmentId)))
    else
      var o := rt.outgoing[request.attachmentId];
      if o.state != Active then (rt, Ok([]))
      else
        var taken := Min(|request.chunkIndices|, RequestBatch(o.manifest.chunkSize));
        var (u, frames) := Served(o, request.attachmentId, request.chunkIndices[..taken]);
        (rt.(outgoing := rt.outgoing[request.attachmentId := u]), Ok(frames))
  }
}
