/** The transfer owner of one device. Source:
    mosh-core/src/attachment_runtime.rs and its incoming, outgoing, requests and
    stream_range modules. */
module AttachmentRuntimes {
  import opened Wrappers
  import opened Primitives
  import opened AttachmentTypes
  import opened AttachmentChunks
  import opened AttachmentTransfers
  import Ops = AttachmentOperations

  class AttachmentRuntime {
    var outgoing: map<string, Outgoing>
    var incoming: map<string, Incoming>

    constructor ()
      ensures State() == Runtime(map[], map[])
    {
      outgoing, incoming := map[], map[];
    }

    ghost function State(): (rt: Runtime)
      reads this
    {
      Runtime(outgoing, incoming)
    }

    ghost predicate Valid()
      reads this
    {
      forall id :: id in incoming ==> WellFormed(incoming[id])
    }

    method RegisterIncoming(m: Manifest) returns (r: Result<(), AttachmentError>)
      modifies this`incoming
      ensures (State(), r) == Ops.RegisterIncoming(old(State()), m)
    {
      if m.attachmentId in incoming {
        return Err(DuplicateTransfer(m.attachmentId));
      }
      var keys := Ops.ManifestKeys(m);
      if keys.Err? {
        return Err(keys.error);
      }
      if m.totalSize == 0 || m.chunkSize == 0 || m.totalSize > MAX_ATTACHMENT_SIZE {
        return Err(ManifestMismatch("size or chunk_size"));
      }
      var expectedCount := DivCeil(m.totalSize, m.chunkSize);
      if expectedCount != m.chunkCount {
        return Err(ManifestMismatch("chunk_count"));
      }
      var (key, prefix) := keys.value;
      incoming := incoming[m.attachmentId := Ops.FreshIncoming(m, key, prefix)];
      return Ok(());
    }

    method StartDownload(id: string) returns (r: Result<(), AttachmentError>)
      modifies this`incoming
      ensures (State(), r) == Ops.StartDownload(old(State()), id)
    {
      if id !in incoming {
        return Err(UnknownTransfer(id));
      }
      var t := incoming[id];
      if t.state == Cancelled || t.state == Failed {
        if t.state == Failed {
          t := t.(chunks := map[]);
        }
        t := t.(state := Active);
        t := t.(requestedAt := map[]);
        t := t.(requestCursor := 0);
        t := t.(priorityChunk := None);
      }
      incoming := incoming[id := t.(downloadStarted := true)];
      return Ok(());
    }

    method IngestChunk(frame: ChunkFrame) returns (r: Result<ChunkOutcome, AttachmentError>)
      requires Valid()
      modifies this`incoming
      ensures (State(), r) == Ops.IngestChunk(old(State()), frame)
    {
      if frame.attachmentId !in incoming {
        return Ok(Unknown);
      }
      var t: Incoming;
      t, r := Ingest(incoming[frame.attachmentId], frame);
      incoming := incoming[frame.attachmentId := t];
    }

    static method Ingest(t: Incoming, frame: ChunkFrame) returns (u: Incoming, r: Result<ChunkOutcome, AttachmentError>)
      requires WellFormed(t)
      ensures (u, r) == Ops.Ingested(t, frame)
    {
      u := t;
      var index := frame.chunkIndex;
      if t.state != Active {
        return u, Ok(Duplicate);
      }
      if index >= t.manifest.chunkCount {
        return u, Ok(Unknown);
      }
      if index in t.chunks {
        return u, Ok(Duplicate);
      }
      var ciphertext := Decode(frame.ciphertext);
      if ciphertext.None? {
        return u, Err(Codec("chunk base64"));
      }
      var plaintext := OpenChunk(t.key, t.prefix, index, ciphertext.value);
      if plaintext.None? {
        return u, Err(Crypto);
      }
      // The subtraction below cannot wrap: the chunk starts inside the file.
      assert 0 < ExpectedLength(t.manifest, index) by { OffsetsFit(t.manifest, index); }
      if |plaintext.value| != ExpectedLength(t.manifest, index) {
        return t.(state := Failed), Err(ManifestMismatch("chunk length"));
      }
      u := t.(chunks := t.chunks[index := plaintext.value]);
      if |u.chunks| != u.manifest.chunkCount {
        return u, Ok(Progress(ProgressOf(u.manifest, |u.chunks|, Active)));
      }
      u, r := Complete(u, frame.attachmentId);
    }

    /** Joins the chunks and checks the result against the manifest. */
    static method Complete(t: Incoming, id: string) returns (u: Incoming, r: Result<ChunkOutcome, AttachmentError>)
      ensures (u, r) == Ops.Finished(t, id)
    {
      var assembled: Bytes := [];
      for i := 0 to t.manifest.chunkCount
        invariant assembled == Join(t.chunks, 0, i)
      {
        if i in t.chunks {
          assembled := assembled + t.chunks[i];
        }
      }
      if |assembled| != t.manifest.totalSize {
        return t.(state := Failed), Err(ManifestMismatch("size"));
      }
      var actual := Sha256(assembled);
      if actual != t.manifest.contentHash {
        return t.(state := Failed), Err(ManifestMismatch("content hash"));
      }
      return t.(state := TransferState.Complete), Ok(Completed(id, actual, assembled));
    }

    method Cancel(id: string)
      modifies this
      ensures State() == Ops.Cancel(old(State()), id)
    {
      if id in outgoing && outgoing[id].state == Active {
        outgoing := outgoing[id := outgoing[id].(state := Cancelled)];
      }
      if id in incoming && incoming[id].state == Active {
        incoming := incoming[id := incoming[id].(state := Cancelled)];
      }
    }

    method FailIncoming(id: string)
      modifies this`incoming
      ensures State() == Ops.FailIncoming(old(State()), id)
    {
      if id in incoming {
        incoming := incoming[id := incoming[id].(state := Failed)];
      }
    }

    method Forget(id: string)
      modifies this
      ensures State() == Ops.Forget(old(State()), id)
    {
      outgoing := outgoing - {id};
      incoming := incoming - {id};
    }

    method NextChunkRequestWithBudgetAt(id: string, now: nat, budget: nat) returns (r: Option<ChunkRequest>)
      modifies this`incoming
      ensures (State(), r) == Ops.NextRequest(old(State()), id, now, budget)
    {
      var slots := Min(budget, Ops.AvailableSlots(Runtime(outgoing, incoming), now));
      if id !in incoming {
        return None;
      }
      var t := incoming[id];
      if slots == 0 || !t.downloadStarted || t.state != Active {
        return None;
      }
      var u, indices := Schedule(t, now, Min(slots, RequestBatch(t.manifest.chunkSize)));
      if indices == [] {
        incoming := incoming[id := u];
        return None;
      }
      var requestedAt := Stamp(u.requestedAt, indices, now);
      incoming := incoming[id := u.(requestedAt := requestedAt)];
      return Some(ChunkRequest(id, indices));
    }

    /** Playback first, then gaps, then the cursor; a priority that is served ends. */
    static method Schedule(t: Incoming, now: nat, batch: nat) returns (u: Incoming, indices: seq<nat>)
      ensures (u, indices) == RequestIndices(t, now, batch)
    {
      u := t;
      if u.priorityChunk.Some? {
        var priority := u.priorityChunk.value;
        indices := FirstWanted(u, priority, u.manifest.chunkCount, now, batch);
        if AllReceived(u, priority, u.manifest.chunkCount) {
          u := u.(priorityChunk := None);
        }
        if indices != [] {
          return;
        }
      }
      indices := FirstWanted(u, 0, u.requestCursor, now, batch);
      if indices != [] {
        return;
      }
      var end := Min(u.requestCursor + batch, u.manifest.chunkCount);
      indices := FirstWanted(u, u.requestCursor, end, now, batch);
      u := u.(requestCursor := Max(end, 0));
    }

    /** Notes the time against every index asked for. */
    static method Stamp(before: map<nat, nat>, indices: seq<nat>, now: nat) returns (requestedAt: map<nat, nat>)
      ensures requestedAt == before + map i | i in indices :: now
    {
      requestedAt := before;
      for k := 0 to |indices|
        invariant requestedAt == before + map i | i in indices[..k] :: now
      {
        requestedAt := requestedAt[indices[k] := now];
        assert indices[..k + 1] == indices[..k] + [indices[k]];
      }
      assert indices[..|indices|] == indices;
    }

    method StreamRange(id: string, start: nat, end: nat) returns (r: StreamRange)
      requires Valid()
      modifies this`incoming
      ensures (State(), r) == Ops.StreamedRange(old(State()), id, start, end)
    {
      if id !in incoming {
        return NotIncoming;
      }
      var t: Incoming;
      t, r := Stream(incoming[id], start, end);
      incoming := incoming[id := t];
    }

    static method Stream(t: Incoming, start: nat, end: nat) returns (u: Incoming, r: StreamRange)
      requires WellFormed(t)
      ensures (u, r) == Ops.Streamed(t, start, end)
    {
      u := t.(downloadStarted := true);
      var total := t.manifest.totalSize;
      if total == 0 || start >= total {
        return u, Ready([], total, t.manifest.mime);
      }
      var stop := Max(Min(end, total), start);
      var (first, beyond) := Ops.Covering(t.manifest.chunkSize, start, stop);
      var missing := Ops.FirstMissing(u, first, beyond);
      if missing.Some? {
        u := u.(priorityChunk := missing);
        return u, Pending(total);
      }
      var assembled := Gather(u.chunks, first, beyond);
      var offset := start - first * t.manifest.chunkSize;
      var slice := Ops.GetRange(assembled, offset, Min(offset + stop - start, |assembled|));
      r := Ready(if slice.Some? then slice.value else [], total, t.manifest.mime);
    }

    /** Joins the chunks from lo up to hi, all of which are here. */
    static method Gather(chunks: map<nat, Bytes>, lo: nat, hi: nat) returns (assembled: Bytes)
      requires forall i :: lo <= i < hi ==> i in chunks
      ensures assembled == Join(chunks, lo, hi)
    {
      assembled := [];
      if lo < hi {
        for index := lo to hi
          invariant assembled == Join(chunks, lo, index)
        {
          assembled := assembled + chunks[index];
        }
      }
    }

    method PrepareOutgoing(request: Ops.OutgoingAttachment, key: Key, prefix: NoncePrefix)
      returns (r: Result<Manifest, AttachmentError>)
      modifies this`outgoing
      ensures (State(), r) == Ops.PrepareOutgoing(old(State()), request, key, prefix)
    {
      if request.bytes == [] {
        return Err(Empty);
      }
      if |request.bytes| > MAX_ATTACHMENT_SIZE {
        return Err(TooLarge(|request.bytes|));
      }
      if request.attachmentId in outgoing {
        return Err(DuplicateTransfer(request.attachmentId));
      }
      var m := Ops.FreshManifest(request, key, prefix);
      outgoing := outgoing[request.attachmentId := Outgoing(m, request.bytes, key, prefix, map[], Active)];
      return Ok(m);
    }

    method ServeChunks(request: ChunkRequest) returns (r: Result<seq<ChunkFrame>, AttachmentError>)
      modifies this`outgoing
      ensures (State(), r) == Ops.ServeChunks(old(State()), request)
    {
      var id, indices := request.attachmentId, request.chunkIndices;
      if id !in outgoing {
        return Err(UnknownTransfer(id));
      }
      var o := outgoing[id];
      if o.state != Active {
        return Ok([]);
      }
      var frames: seq<ChunkFrame> := [];
      var served := o.servedChunks;
      var taken: nat := Min(|indices|, RequestBatch(o.manifest.chunkSize));
      for k := 0 to taken
        invariant (o.(servedChunks := served), frames) == Ops.Served(o, id, indices[..k])
      {
        assert indices[..k + 1][..k] == indices[..k];
        var slice := ChunkSlice(o.plaintext, indices[k], o.manifest.chunkSize);
        if slice.Some? {
          served := Ops.Counted(served, indices[k]);
          frames := frames + [ChunkFrame(id, indices[k], Encoded(Sealed(o.key, o.prefix, indices[k], slice.value)))];
        }
      }
      outgoing := outgoing[id := o.(servedChunks := served)];
      return Ok(frames);
    }

    method RestoreOutgoing(m: Manifest, bytes: Bytes) returns (r: Result<(), AttachmentError>)
      modifies this`outgoing
      ensures (State(), r) == Ops.RestoreOutgoing(old(State()), m, bytes)
    {
      if m.attachmentId in outgoing {
        return Err(DuplicateTransfer(m.attachmentId));
      }
      if |bytes| != m.totalSize || Sha256(bytes) != m.contentHash || m.chunkSize == 0 {
        return Err(ManifestMismatch("restored outgoing file"));
      }
      if DivCeil(m.totalSize, m.chunkSize) != m.chunkCount {
        return Err(ManifestMismatch("restored outgoing file"));
      }
      var keys := Ops.ManifestKeys(m);
      if keys.Err? {
        return Err(keys.error);
      }
      var (key, prefix) := keys.value;
      outgoing := outgoing[m.attachmentId := Outgoing(m, bytes, key, prefix, map[], Active)];
      return Ok(());
    }

    method ResumeOutgoing(id: string)
      modifies this`outgoing
      ensures State() == Ops.ResumeOutgoing(old(State()), id)
    {
      if id in outgoing {
        outgoing := outgoing[id := outgoing[id].(state := Active)];
      }
    }
  }
}
