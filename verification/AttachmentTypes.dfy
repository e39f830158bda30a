/** The transfers a device holds, and what crosses between devices.
    Source: mosh-core/src/attachment_runtime.rs. */
module AttachmentTypes {
  import opened Wrappers
  import opened Primitives

  const CHUNK_SIZE: nat := 4 * 1024
  const MAX_ATTACHMENT_SIZE: nat := 50 * 1024 * 1024
  const REQUEST_WINDOW_BYTES: nat := 2 * 1024 * 1024
  const MAX_REQUEST_BATCH: nat := 256
  /** Ten seconds, in nanoseconds. */
  const CHUNK_REQUEST_TIMEOUT: nat := 10_000_000_000

  datatype AttachmentError =
    | TooLarge(size: nat)
    | Empty
    | Crypto
    | UnknownTransfer(id: string)
    | DuplicateTransfer(id: string)
    | ManifestMismatch(detail: string)
    | Codec(detail: string)

  datatype Manifest = Manifest(
    attachmentId: string,
    contentHash: Digest,
    mime: string,
    totalSize: u64,
    chunkSize: u32,
    chunkCount: u64,
    keyText: Text<Key>,
    prefixText: Text<NoncePrefix>)

  datatype ChunkRequest = ChunkRequest(attachmentId: string, chunkIndices: seq<nat>)

  datatype ChunkFrame = ChunkFrame(attachmentId: string, chunkIndex: nat, ciphertext: Text<Ciphertext>)

  datatype TransferState = Active | Complete | Cancelled | Failed

  datatype TransferProgress = TransferProgress(
    attachmentId: string,
    totalSize: nat,
    chunkCount: nat,
    completedChunks: nat,
    state: TransferState)

  datatype ChunkOutcome =
    | Progress(progress: TransferProgress)
    | Completed(attachmentId: string, contentHash: Digest, bytes: Bytes)
    | Duplicate
    | Unknown

  datatype StreamRange =
    | Ready(bytes: Bytes, totalSize: nat, mime: string)
    | Pending(totalSize: nat)
    | NotIncoming

  datatype Outgoing = Outgoing(
    manifest: Manifest,
    plaintext: Bytes,
    key: Key,
    prefix: NoncePrefix,
    servedChunks: map<nat, u32>,
    state: TransferState)

  datatype Incoming = Incoming(
    manifest: Manifest,
    key: Key,
    prefix: NoncePrefix,
    chunks: map<nat, Bytes>,
    state: TransferState,
    downloadStarted: bool,
    requestCursor: nat,
    requestedAt: map<nat, nat>,
    priorityChunk: Option<nat>)

  /** The two tables of one device. */
  datatype Runtime = Runtime(outgoing: map<string, Outgoing>, incoming: map<string, Incoming>)

  /** How many chunks one request may name: a window of bytes, at least one
      chunk and at most the peer's queue. */
  function RequestBatch(chunkSize: nat): (r: nat)
    ensures 1 <= r <= MAX_REQUEST_BATCH
    ensures r > 1 ==> r * chunkSize <= REQUEST_WINDOW_BYTES
    ensures r < MAX_REQUEST_BATCH ==> (r + 1) * chunkSize > REQUEST_WINDOW_BYTES
  {
    Max(1, Min(REQUEST_WINDOW_BYTES / Max(chunkSize, 1), MAX_REQUEST_BATCH))
  }

  function ProgressOf(m: Manifest, completed: nat, state: TransferState): (r: TransferProgress) {
    TransferProgress(m.attachmentId, m.totalSize, m.chunkCount, completed, state)
  }

  /** The size and count checks a manifest must pass to be registered. */
  predicate WellSized(m: Manifest) {
    && 0 < m.totalSize <= MAX_ATTACHMENT_SIZE
    && 0 < m.chunkSize
    && m.chunkCount == DivCeil(m.totalSize, m.chunkSize)
  }

  function DivCeil(n: nat, d: nat): (r: nat)
    requires d > 0
  {
    n / d + if n % d > 0 then 1 else 0
  }
}
