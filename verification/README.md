# Core protocols of the messenger, modelled and proved in Dafny

The project models the parts of the messenger core whose correctness is a property
of whole runs: the attachment transfer protocol, the replicated chat names, the
outbound path with its message log and crash recovery, the commit sequencer of
private groups, frame routing and the bounded memories, the evaluator that decides
which Rust code is test-only, and the signed organisation envelope.

`dafny verify dfyconfig.toml` checks everything.

## How it is organised

Each component has the source's own shape: a class where the source keeps state, a
method with a loop where the source loops. Every such method is proved equal to a
function on values, and the theorems are about those functions, over runs.

| component | operations | theorems |
|---|---|---|
| Attachments | `AttachmentTypes`, `AttachmentChunks`, `AttachmentTransfers`, `AttachmentOperations`, `AttachmentRuntime` | `AttachmentSystem` (devices and the wire), `AttachmentDelivery`, `AttachmentWindow`, `AttachmentPull`, `AttachmentLoss`, `AttachmentHandOver`, `AttachmentLifecycle`, `AttachmentStops` |
| Chat names | `ChatNamesTypes`, `ChatNamesRegister`, `ChatNames`, `Order`, `Utf8` | `ChatNamesJoin`, `ChatNamesPaging`, `ChatNamesNetwork`, `ChatNamesExchange` |
| Message log, outbox, history | `Messages`, `MessageLog`, `Outbox`, `HistoryStore`, `History` | `MessageErasure`, `OutboxRuns`, `HistoryReplay`, `HistoryRuns` |
| Commit sequencer | `CommitSequencer` | `CommitSequencerRuns`, `CommitSequencerSilence`, `CommitSequencerExactness` |
| Inbox and memories | `Inbox`, `BoundedMemory` | `InboxRuns`, `BoundedMemoryRuns` |
| Test-only code | `CfgPolicy`, `Delimiters` | `CfgMeaning`, `CfgPolarity`, `Delimiters` |
| Envelope | `OrgEnvelope` | `OrgEnvelope` |

`Wrappers` and `Primitives` hold what all share.

## What is assumed

- Cryptography is ideal. A SHA-256 digest, a sealed chunk and a signature are the
  terms that made them, so hashing is injective and nothing opens or verifies under
  a key it was not made with. Base64 and JSON text is the encoding of a value, or
  text that does not decode.
- For the delivery theorems nobody but the sender knows the file's key: outsiders
  put nothing sealed under it on the wire, a random draw does not repeat it for
  another file, and who registers or restores under the file's id or keys has the
  sender's manifest.
- A call that holds a lock is one step. A store transaction is kept, refused, or
  refused although it is durable; a listing returns each row once, in any order.
- Clocks and random draws are parameters. The clock of one device does not run
  backwards between requests.
- In the commit runs the group accepts only the genuine commit of its epoch, and
  the store may refuse any of them; its epoch may also move on without the sequencer.
  In the cache runs the check of a signature depends on key, signature and input
  alone, and that of a certificate on its bytes.

## Findings

- `Outbox::requeue` is documented to bring the message back to `Queued`; the code
  marks the message `Pending` and only the attempt `Queued`
  (mosh-core/src/conversation/outbound.rs:151-181). The model follows the code.
  `OutboxRuns.StatusesDifferOnlyAfterRequeue` says exactly when the two differ,
  `OutboxRuns.RequeuedMessageShowsPending` gives the run, and
  `HistoryReplay.RestartLeavesNothingPending` that a restart brings them together.
- The remembered keys of mosh-core/src/conversation/dedup.rs are the last 4096 new
  ones: a repeat does not make a key younger.
- The request window counts a chunk only while its download runs
  (mosh-core/src/attachment_runtime/requests.rs:17-30), and starting a stopped
  download clears what it had asked for
  (mosh-core/src/attachment_runtime/incoming.rs:46-65). So a download that is
  cancelled and started again asks for a second window while the first may still be
  on its way to a queue of 256 frames (mosh-core/src/attachment_runtime.rs:24):
  `AttachmentStops.RestartAsksTwice` is the input, and
  `AttachmentStops.CountedExactlyUntilStopped` says when a request counts.
- A gap is judged by the least buffered epoch (mosh-core/src/commit_sequencer.rs:102-107),
  and an entry that is not accepted stays buffered
  (mosh-core/src/private_group_runtime/sequencing.rs:37-47). So forged commits never
  apply, but one of them, buffered for an epoch the member then reaches, hides every
  gap, and no resync is asked for until the genuine commit of that epoch arrives by
  other means: `CommitSequencerSilence.OneForgerySilences` is the input,
  `CommitSequencerSilence.DeliverySilencesIff` and
  `CommitSequencerSilence.SilenceLastsUntilRescued` say exactly when it begins and
  ends. If the group passes such an epoch by itself, the silence never ends
  (`CommitSequencerSilence.SteppingOverSilences`). The trust note at
  mosh-core/src/commit_sequencer.rs:9-16 calls forgeries harmless to correctness,
  which holds of what is applied, not of what is asked for.
- The evaluator of scripts/rust-test-policy.py treats two occurrences of a flag as
  unrelated. It never accepts wrongly; it can refuse a cfg that is off in every real
  build without tests, as `any(test, all(q, not(q)))`
  (`CfgMeaning.ContradictionIsNotSeen`), and refuses none where no unknown part occurs
  both plainly and under a `not` (`CfgPolarity.AcceptedExactlyOneWay`).
- The bound of 64 in the commit buffer is where out-of-order delivery stops being
  harmless: `CommitSequencerExactness.StalledOnlyByOverflow` and
  `CommitSequencerExactness.OneMoreThanTheBufferStalls`. A replay of the chain still
  gets a stalled member to the end (`CommitSequencerRuns.NeverBehindTheSimpleList`),
  and without forgeries it asks for one whenever it holds a later commit
  (`CommitSequencerExactness.HonestGapIsReported`).
- A log whose erased id is no longer held takes content back through an upsert, and
  one whose tombstone was never remembered takes it back through a push.
  `MessageErasure.NeverRestoredIffSealed` gives the condition;
  `MessageErasure.TimelinesAreHonest` shows the logs the program builds meet it
  while ids are unique.

## Model

| member | source | states |
|---|---|---|
| AttachmentDelivery.DeliveryIsFaithful | mosh-core/src/attachment_runtime/incoming.rs:67-142 | After any run of any devices (frames lost, repeated, reordered, invented; cancel, fail, forget, restart, streaming), every chunk stored under an honest manifest is the sender's slice, an Active download misses a chunk, a Complete one joins to the sender's bytes, and any frame off the wire gets the one answer it is due (next row): the length, size and hash failures are unreachable |
| AttachmentDelivery.IngestIsFaithful | mosh-core/src/attachment_runtime/incoming.rs:67-141 | Duplicate exactly for a chunk held or a transfer not Active; Unknown exactly past the last index; an error exactly for a missing chunk whose text does not decode or open; otherwise the sender's chunk is in: the answer is the file, its bytes and its hash, exactly if no other chunk is missing, else the progress with one chunk more |
| AttachmentDelivery.StreamIsFaithful | mosh-core/src/attachment_runtime/stream_range.rs:12-47 | A range is Ready exactly if the chunk of each of its bytes is here (of its first byte, when it is empty), and is then exactly plaintext[start..min(end,total)]; Pending names the first such chunk that is missing as the priority |
| AttachmentDelivery.CutFromJoin | mosh-core/src/attachment_runtime/stream_range.rs:37-42 | Neither fallback of the slice is taken: the range always lies inside the joined covering chunks |
| AttachmentDelivery.PendingChunkIsAskedFirst | mosh-core/src/attachment_runtime/requests.rs:85-98 | After a Pending answer the next request begins at that missing chunk, unless that chunk is already in flight |
| AttachmentDelivery.RequestIsServedInFull | mosh-core/src/attachment_runtime/outgoing.rs:75-90 | A request is non-empty, strictly increasing, in range, wanted and within the batch, so an Active sender of the same manifest answers it with one frame per index, none cut off |
| AttachmentDelivery.TraceStaysGenuine | mosh-core/src/attachment_runtime/outgoing.rs:62-91 | No run of trusted events puts a frame under the file's key on the wire that is not the file's chunk at its index |
| AttachmentHandOver.PreparedFileArrives | mosh-core/src/attachment_runtime/outgoing.rs:11-60 | Every file of 1 byte to 50 MiB that is prepared, registered, started and polled for is Complete once two polls per chunk were answered, whatever was lost in between; it equals the bytes sent, and exactly one answer of the whole pull hands it over, under its hash |
| AttachmentHandOver.HandedOverOnce | mosh-core/src/attachment_runtime/incoming.rs:67-142 | Whatever is lost, and however often the device polls: the answers hand the sender's file over exactly once if the download completed, and never before |
| AttachmentHandOver.EachPollBringsAWindow | mosh-core/src/attachment_runtime/requests.rs:17-56 | On a quiet device k polls bring exactly the first k MiB of a prepared file, no more and no less; the download is Complete exactly if k MiB cover it |
| AttachmentLifecycle.CompletedIsVerified | mosh-core/src/attachment_runtime/incoming.rs:115-142 | Whatever the manifest and the frames: a file handed over has the declared size and digest, and a full set of chunks with another digest fails for good |
| AttachmentLifecycle.StatesMoveAsDrawn | mosh-core/src/attachment_runtime.rs:241-266 | The states of a download under every operation: only a running one is cancelled, any is failed, a stopped one starts again, the last chunk completes or fails it, and nothing else moves it |
| AttachmentLifecycle.CancelStops | mosh-core/src/attachment_runtime.rs:241-255 | A cancelled download takes in nothing, asks for nothing and frees its part of the window; a cancelled upload serves nothing; a finished one is not cancelled; nothing but the state changes, and no other transfer |
| AttachmentLifecycle.StartUndoesCancel | mosh-core/src/attachment_runtime/incoming.rs:46-65 | Starting again after a cancel keeps every chunk and begins the schedule anew with nothing asked for |
| AttachmentLifecycle.CancelledDownloadStillArrives | mosh-core/src/attachment_runtime/incoming.rs:46-65 | A download cancelled in the middle and started again still ends in the sender's file, after one poll per missing chunk and cursor step |
| AttachmentLifecycle.StartAfterFailStartsOver | mosh-core/src/attachment_runtime/incoming.rs:46-65 | A failed download starts over exactly as if it had just been offered |
| AttachmentLifecycle.StartLeavesTheRest | mosh-core/src/attachment_runtime/incoming.rs:46-65 | Starting a running or finished download only notes that it was started; an unknown one is refused |
| AttachmentLifecycle.ResumeUndoesCancel | mosh-core/src/attachment_runtime/outgoing.rs:5-9 | A resumed upload is as it was before the cancel and serves the same frames |
| AttachmentLifecycle.ForgetFreesTheId | mosh-core/src/attachment_runtime.rs:263-266 | A forgotten id is unknown to frames, requests and starts, and can be registered and prepared anew; no other transfer is touched |
| AttachmentLifecycle.RegisteredExactly | mosh-core/src/attachment_runtime/incoming.rs:5-44 | A manifest is registered exactly if its id is new, its keys decode, it declares 1 byte to 50 MiB in chunks of some size, and its count is the number of offsets inside the file; which error is given otherwise, and a refusal changes nothing |
| AttachmentLifecycle.PreparedExactly | mosh-core/src/attachment_runtime/outgoing.rs:11-60 | Preparing fails exactly for an empty file, one above 50 MiB or a known id, in that order; otherwise the sender holds the file under an honest manifest of 4 KiB chunks |
| AttachmentLifecycle.RestoredExactly | mosh-core/src/attachment_runtime/outgoing.rs:93-125 | An honest manifest is restored exactly with the sender's own bytes under a free id, and the sender then holds the file as before |
| AttachmentLifecycle.RestoreChecks | mosh-core/src/attachment_runtime/outgoing.rs:93-125 | Any manifest is restored exactly if it describes the bytes (length, digest, chunks) and its keys decode |
| AttachmentLifecycle.AnyRequestIsServed | mosh-core/src/attachment_runtime/outgoing.rs:62-91 | Whatever is asked of an Active sender: the first batch of indices is answered by the file's own chunks, those it does not have by nothing, and each serving is counted modulo 2^32 |
| AttachmentStops.CountedExactlyUntilStopped | mosh-core/src/attachment_runtime/requests.rs:17-30 | Over every run: within ten seconds of the last request for a chunk that has not come, it counts against the window exactly if its download was not stopped since |
| AttachmentStops.RestartAsksTwice | mosh-core/src/attachment_runtime/incoming.rs:46-65 | So after cancel and start the same 256 chunks are asked for twice at once |
| AttachmentLoss.PullDeliversDespiteLoss | mosh-core/src/attachment_runtime/requests.rs:17-56 | Whatever parts of whatever answers are lost, and whatever requests are out at the start: once as many polls were answered in full as chunks are missing plus cursor distance, each at least ten seconds after the last loss, the download is Complete with the sender's file |
| AttachmentLoss.LossyRoundKeeps | mosh-core/src/attachment_runtime/requests.rs:32-56 | A poll whose answer is lost, wholly or in part, undoes nothing: what arrived is kept, the rest is asked for again, and the measure does not grow |
| AttachmentPull.PullDelivers | mosh-core/src/attachment_runtime/requests.rs:32-56 | Started quiet (no request of the device outstanding) and with every poll answered in full, polling a sender that holds the file, at any nondecreasing times, ends in Complete with the sender's file after at most (missing chunks + cursor distance) polls, whatever was already held and whatever playback asked for |
| AttachmentPull.RoundAdvances | mosh-core/src/attachment_runtime/requests.rs:85-112 | Each poll with nothing outstanding either finishes the file or strictly lowers missing chunks plus cursor distance, and leaves nothing outstanding again |
| AttachmentTransfers.RequestMakesProgress | mosh-core/src/attachment_runtime/requests.rs:85-112 | With nothing outstanding, a call on an Active transfer names missing chunks or advances the cursor, priority chunk or not |
| AttachmentTransfers.RequestShape | mosh-core/src/attachment_runtime/requests.rs:85-112 | Every request is strictly increasing, in range, wanted and at most the batch; only cursor and priority change, and the cursor never goes back |
| AttachmentTransfers.RequestKeepsWellFormed | mosh-core/src/attachment_runtime/requests.rs:43-50 | Every index below the cursor is received or has a recorded request, so no gap is forgotten |
| AttachmentTransfers.FirstWantedIsExact | mosh-core/src/attachment_runtime/requests.rs:87-90 | The filtered and cut iteration yields exactly the first wanted indices of the interval |
| AttachmentTransfers.PriorityLeads | mosh-core/src/attachment_runtime/requests.rs:86-97 | A wanted priority chunk heads the request |
| AttachmentTransfers.CountMeansAll | mosh-core/src/attachment_runtime/incoming.rs:102-110 | As many chunks as the manifest counts means no index is missing |
| AttachmentWindow.WindowIsGlobal | mosh-core/src/attachment_runtime/requests.rs:17-56 | In every reachable state of any run with a nondecreasing clock, and at any later time, at most 256 chunks that running downloads of a device asked for in the last ten seconds have not come |
| AttachmentWindow.OthersOnlyShrink | mosh-core/src/attachment_runtime/incoming.rs:46-65 | No operation but a request puts a request in flight: start, restart, ingest, stream, cancel, fail, forget and register only shrink the set |
| AttachmentWindow.RequestFillsFreeSlots | mosh-core/src/attachment_runtime/requests.rs:38-50 | A request adds exactly what it asks for to what is in flight, and stays within 256 |
| AttachmentWindow.RequestUsesItsRoom | mosh-core/src/attachment_runtime/requests.rs:32-50 | A running download asks for what the policy makes of all the room that the budget, the window and the batch leave |
| AttachmentTransfers.RequestFollowsPolicy | mosh-core/src/attachment_runtime/requests.rs:85-112 | The policy: the first wanted chunks from the playback chunk on, if any is wanted; else the first gaps behind the cursor; else every wanted chunk of the next batch at the cursor, which moves past it; playback ends when all from it on is here |
| AttachmentWindow.TimeoutClears | mosh-core/src/attachment_runtime/requests.rs:23-26 | Ten seconds after the last request nothing is outstanding |
| AttachmentSystem.ApplyKeepsSound | mosh-core/src/attachment_runtime.rs:180-266 | Every operation keeps every transfer record well formed: sizes, chunk lengths, cursor cover, state against chunk count |
| AttachmentSystem.IngestEffect | mosh-core/src/attachment_runtime/incoming.rs:67-112 | A frame adds exactly its chunk, or changes at most the state |
| AttachmentSystem.CoveringFits | mosh-core/src/attachment_runtime/stream_range.rs:20-26 | The chunks a range touches exist and span the range |
| AttachmentSystem.NextRequestEffect | mosh-core/src/attachment_runtime/requests.rs:32-56 | A request call changes one transfer only, and records exactly the indices it returns |
| AttachmentChunks.SlicesJoin | mosh-core/src/attachment_runtime.rs:310-317 | The sender's slices from one index to another join to that stretch of the file |
| AttachmentChunks.CountBoundsOffsets | mosh-core/src/attachment_runtime/incoming.rs:23-28 | An index is below the rounded-up count exactly if its offset lies inside the file |
| AttachmentChunks.SliceHasExpectedLength | mosh-core/src/attachment_runtime/incoming.rs:91-94 | A slice of an honest file has exactly the length the receiver demands, so the subtraction there cannot wrap |
| AttachmentTypes.RequestBatch | mosh-core/src/attachment_runtime.rs:27-30 | The batch is the largest number of chunks up to 256 that fits two MiB, and at least one |
| AttachmentRuntimes.AttachmentRuntime.RegisterIncoming | mosh-core/src/attachment_runtime/incoming.rs:5-44 | Refines the register function: duplicate, key, size and count checks in the source's order |
| AttachmentRuntimes.AttachmentRuntime.StartDownload | mosh-core/src/attachment_runtime/incoming.rs:46-65 | Refines the start function: a cancelled transfer keeps its chunks, a failed one starts over |
| AttachmentRuntimes.AttachmentRuntime.IngestChunk | mosh-core/src/attachment_runtime/incoming.rs:67-111 | Refines the ingest function, answer and state, whose every answer the delivery theorems determine |
| AttachmentRuntimes.AttachmentRuntime.Complete | mosh-core/src/attachment_runtime/incoming.rs:115-142 | The joining loop equals the join of the chunks in index order, its two checks, and hands that join over |
| AttachmentRuntimes.AttachmentRuntime.NextChunkRequestWithBudgetAt | mosh-core/src/attachment_runtime/requests.rs:32-56 | Refines the request function the window and pull theorems are about |
| AttachmentRuntimes.AttachmentRuntime.Schedule | mosh-core/src/attachment_runtime/requests.rs:85-112 | Refines the scheduling function: priority, then gaps, then cursor |
| AttachmentRuntimes.AttachmentRuntime.StreamRange | mosh-core/src/attachment_runtime/stream_range.rs:5-48 | Refines the streaming function the streaming theorems are about |
| AttachmentRuntimes.AttachmentRuntime.ServeChunks | mosh-core/src/attachment_runtime/outgoing.rs:62-91 | The serving loop equals one frame per existing chunk of the cut request, with the 32-bit counters |
| AttachmentRuntimes.AttachmentRuntime.PrepareOutgoing | mosh-core/src/attachment_runtime/outgoing.rs:11-60 | Refines the preparing function: empty, too large, duplicate, else a fresh manifest |
| AttachmentRuntimes.AttachmentRuntime.RestoreOutgoing | mosh-core/src/attachment_runtime/outgoing.rs:93-125 | Refines the restoring function: size, hash and count against the manifest |
| AttachmentRuntimes.AttachmentRuntime.ResumeOutgoing | mosh-core/src/attachment_runtime/outgoing.rs:5-9 | The sender's transfer becomes Active again and nothing else changes |
| AttachmentRuntimes.AttachmentRuntime.Cancel | mosh-core/src/attachment_runtime.rs:241-255 | Only Active transfers of the id are cancelled, on both sides |
| AttachmentRuntimes.AttachmentRuntime.FailIncoming | mosh-core/src/attachment_runtime.rs:257-261 | Marks only the incoming transfer failed |
| AttachmentRuntimes.AttachmentRuntime.Forget | mosh-core/src/attachment_runtime.rs:263-266 | Removes the id on both sides and nothing else |
| ChatNamesNetwork.VersionsAreGloballyUnique | mosh-core/src/chat_names/mod.rs:32-51 | Over every run of distinct devices (renames, pages in flight, refused stores, refused stores that saved all the same, restarts from disk) no two different records share a version, a page is never refused for a conflict, every disk reopens, and an acknowledged write is what the device reads |
| ChatNamesNetwork.PagesNeverConflict | mosh-core/src/chat_names/mod.rs:124-129 | The same-version conflict branch is never taken for records off the wire; only the store can refuse them |
| ChatNamesNetwork.DevicesConverge | mosh-core/src/chat_names/mod.rs:116-144 | Over every run, devices that absorbed the same records hold the same entries and the same clock |
| ChatNamesNetwork.RestartKeepsInv | mosh-core/src/chat_names/mod.rs:32-51 | A restart always finds a readable register and keeps the whole account consistent, also after a write that was refused yet saved |
| ChatNamesNetwork.MergeSettles | mosh-core/src/chat_names/mod.rs:116-144 | A merge leaves memory and disk the joins of what each absorbed; the disk never lags behind memory |
| ChatNamesNetwork.FreshWriteIsUnique | mosh-core/src/chat_names/mod.rs:96-111 | A new version is shared with nothing known anywhere |
| ChatNamesExchange.MutualPullConverges | mosh-core/src/device_link/runtime/names.rs:184-272 | Anywhere in any run, after one device pulled all pages of another and the other all of its, both hold the same entries and clock: key by key the newer of the two |
| ChatNamesExchange.PullAbsorbsPages | mosh-core/src/chat_names/mod.rs:116-154 | Asking with the last returned key and saving each page is a run that absorbs exactly the register of the other device and changes no third one |
| ChatNamesJoin.SameRecordsConverge | mosh-core/src/chat_names/mod.rs:124-135 | Replicas that start empty and absorb the same records in any order, batching or repetition hold equal entries and clocks |
| ChatNamesJoin.MergeIsMaximum | mosh-core/src/chat_names/mod.rs:116-144 | Merging a register's entries, in any order, gives the newer entry key by key |
| ChatNamesJoin.MaximumIsIdempotent | mosh-core/src/chat_names/mod.rs:116-144 | Merging a register with itself changes nothing |
| ChatNamesJoin.MaximumIsCommutative | mosh-core/src/chat_names/mod.rs:116-144 | Merge does not depend on who merges into whom |
| ChatNamesJoin.MaximumIsAssociative | mosh-core/src/chat_names/mod.rs:116-144 | Merge does not depend on grouping |
| ChatNamesJoin.JoinIsUnique | mosh-core/src/chat_names/mod.rs:116-144 | A set of records has one join, and one clock |
| ChatNamesPaging.PagesCoverTheRegister | mosh-core/src/chat_names/mod.rs:146-154 | Paging with the last returned key ends and yields every entry once, in key order |
| ChatNamesPaging.PullIsMerge | mosh-core/src/chat_names/mod.rs:146-154 | Merging the pages one after another gives the same entries as merging the whole register |
| ChatNamesPaging.PageByPage | mosh-core/src/chat_names/mod.rs:116-144 | Absorbing batches one by one equals absorbing their concatenation, refusals included |
| ChatNamesRegister.AssignedNameIsRead | mosh-core/src/chat_names/mod.rs:91-113 | A successful set is what `name` reads, was on disk first and touches no other key; anything else leaves memory alone |
| ChatNamesRegister.RenameOnlyFailsForCause | mosh-core/src/chat_names/mod.rs:83-113 | A rename is invalid exactly if what was typed is no proper name with white space around it, the key is none, or it would change something and the clock is exhausted or the writer id invalid |
| ChatNamesRegister.RenamedReadsAsTyped | mosh-core/src/chat_names/mod.rs:83-113 | An accepted rename reads as the typed name to the letter, and was on disk first; a refusal leaves memory alone |
| ChatNamesRegister.TieGoesToTheGreaterWriter | mosh-core/src/chat_names/types.rs:72-77 | At equal counters every replica keeps the record of the writer whose id is greater byte by byte, in whatever order they arrive |
| ChatNamesRegister.MergeReports | mosh-core/src/chat_names/mod.rs:116-144 | A merge answers true exactly if the register changed, the sync flag included; what changed was on disk first; each kind of refusal by its cause |
| ChatNamesTypes.AcceptedExactly | mosh-core/src/chat_names/types.rs:86-98 | A value is accepted as a name exactly if it is that name between white space, the name being 1 to 64 characters, no white space at its ends, no control character and no separator; nothing is cut off |
| ChatNamesTypes.ValidKeysExactly | mosh-core/src/chat_names/types.rs:100-109 | A key is valid exactly if it is `dm:` or `channel:` followed by 1 to 256 bytes of UTF-8 without controls |
| ChatNamesTypes.WhitespaceIsUnicode | mosh-core/src/chat_names/types.rs:88 | What is trimmed are the 25 white space characters of Unicode |
| Utf8.OrderOfBytes | mosh-core/src/chat_names/types.rs:73-77 | Comparing scalar values, as the model does, is comparing the UTF-8 bytes, as the derived order does |
| Utf8.ScalarIsReadBack | mosh-core/src/chat_names/types.rs:103 | The encoding whose bytes are counted is read back from whatever follows it |
| ChatNamesTypes.ByteLengthIsUtf8 | mosh-core/src/chat_names/types.rs:103 | The length that is limited is that of the UTF-8 form |
| ChatNamesPaging.PagesAreFull | mosh-core/src/chat_names/mod.rs:146-154 | Every page but the last holds sixteen records, the last one fewer |
| ChatNamesRegister.AbsorbAdvances | mosh-core/src/chat_names/mod.rs:124-135 | No entry goes back to an older version |
| ChatNamesRegister.AbsorbAllKeepsConsistent | mosh-core/src/chat_names/mod.rs:39-44 | What a merge leaves passes the checks of the next open |
| ChatNamesTypes.OlderIsTotalOrder | mosh-core/src/chat_names/types.rs:72-77 | Counter then writer is a strict total order |
| ChatNamesTypes.AcceptedNamesAreStable | mosh-core/src/chat_names/types.rs:87-98 | An accepted name is accepted again unchanged, so what rename writes passes every replica's check |
| ChatNames.ChatNames.Open | mosh-core/src/chat_names/mod.rs:32-51 | Opens exactly the stored register if it is readable and consistent, else the source's error |
| ChatNames.ChatNames.Rename | mosh-core/src/chat_names/mod.rs:83-85 | Refines the rename function, memory and store |
| ChatNames.ChatNames.Reset | mosh-core/src/chat_names/mod.rs:87-89 | Refines a set to no name |
| ChatNames.ChatNames.Set | mosh-core/src/chat_names/mod.rs:91-113 | Refines the set function: no write without a change, checked clock |
| ChatNames.ChatNames.Merge | mosh-core/src/chat_names/mod.rs:116-144 | Persists before it adopts: memory and store are the merge function's, for every outcome of the store |
| ChatNames.ChatNames.AbsorbBatch | mosh-core/src/chat_names/mod.rs:121-135 | The loop equals the fold over the batch; it reports a change exactly if the register changed |
| MessageErasure.NeverRestoredIffSealed | mosh-core/src/conversation/message_log.rs:120-156 | No run of push, upsert and delivery marks restores content for an id exactly if the id is remembered as erased, held, and held only as tombstones; both ways it can fail are exhibited |
| MessageErasure.SealedIsForGood | mosh-core/src/conversation/message_log.rs:120-156 | For a sealed id the same tombstones stay through every run and nothing else appears under it |
| MessageErasure.ErasedStaysErased | mosh-core/src/conversation/message_log.rs:138-170 | Once a log with unique ids holds an erased id, no later run restores it |
| MessageErasure.TimelinesAreHonest | mosh-core/src/conversation/message_log.rs:158-170 | In every log reached from empty by pushes, upserts, marks and in-place erasures, each remembered erasure is still held as a tombstone |
| MessageErasure.HiddenIsNeverVisible | mosh-core/src/conversation/message_log.rs:172-183 | A message erased for this device never shows again |
| MessageErasure.ErasingSeals | mosh-core/src/conversation/message_log.rs:120-170 | A tombstone that enters a log holding its message at most once, appended, upserted or put in place, seals the id |
| MessageErasure.ShownInOrder | mosh-core/src/conversation/message_log.rs:172-183 | The app shows every message once and in its place, except exactly those erased for this device |
| MessageErasure.RevisionCountsEdits | mosh-core/src/conversation/message_log.rs:120-170 | The revision counts every edit, modulo 2^64, also one that is turned away |
| MessageErasure.ArrivalsAreKeptAsTheyCame | mosh-core/src/private_group_runtime/data.rs:41-45 | What is kept of the arrivals is kept to the letter and in order |
| MessageErasure.CopiesExactly | mosh-core/src/conversation/message_log.rs:195-208 | Messages of different authors are never copies; with ids on both sides exactly if the ids agree; else exactly if time and text do |
| MessageErasure.ArrivalsAreKeptOnce | mosh-core/src/private_group_runtime/data.rs:41-45 | A log that starts empty and receives any arrivals keeps no two copies, and of each arrival keeps a copy or has its id erased |
| MessageLogs.ReceiveMessage | mosh-core/src/private_group_runtime/data.rs:41-45 | A received message is appended unless the log holds a copy of it |
| MessageLogs.MessageLog.HoldsCopyOf | mosh-core/src/conversation/message_log.rs:195-208 | The search finds a copy exactly if the log holds one, by id where both sides have one, else by sender, time and text |
| MessageLogs.MessageLog.Push | mosh-core/src/conversation/message_log.rs:120-130 | Appends, unless the id was erased; remembers an erasure; the revision wraps at 64 bits |
| MessageLogs.MessageLog.Upsert | mosh-core/src/conversation/message_log.rs:139-156 | Replaces the first message of the id unless it is a tombstone, else appends |
| MessageLogs.MessageLog.Replace | mosh-core/src/conversation/message_log.rs:158-162 | Replaces in place and remembers an erasure |
| MessageLogs.MessageLog.MarkDelivery | mosh-core/src/conversation/message_log.rs:212-224 | Sets the delivery state of the first message with the id, or reports it missing |
| MessageLogs.MessageLog.VisibleMessages | mosh-core/src/conversation/message_log.rs:172-183 | The loop yields exactly the messages not erased for this device, in order |
| MessageLogs.Visible | mosh-core/src/conversation/message_log.rs:172-183 | A message is visible exactly if it is held and not erased for this device |
| MessageLogs.NextRevision | mosh-core/src/conversation/message_log.rs:121 | Each change moves the revision, also at the 64-bit wrap |
| Messages.DeliveryMeta | mosh-core/src/conversation/message_log.rs:241-252 | A send is retryable exactly if it failed |
| MessageLogs.IndexOf | mosh-core/src/conversation/message_log.rs:186-189 | The first message with the id, or none |
| OutboxRuns.LogAndAttemptsAgree | mosh-core/src/conversation/outbound.rs:104-284 | Over every run of open, queue, reopen, requeue, activate, settle and receive on freshly stamped messages: an attempt exists exactly while its send is open, and is then to the field what was filed (bytes, size, time, conversation) with the re-sends counted up to the 32-bit limit, the last status and error, whether and when it was published; its message is in the log as filed, with that state, and its JSON decodes to that entry |
| OutboxRuns.ReopenReturnsTheFiledBytes | mosh-core/src/conversation/outbound.rs:147-184 | A re-send of an existing attempt always succeeds with the bytes, size and time first filed and one more retry; without one it reports the message missing |
| OutboxRuns.SettleReports | mosh-core/src/conversation/outbound.rs:188-243 | Settling answers exactly what the transport said, and the message then shows that status and that error, with or without an attempt; it fails exactly if the log has no such message |
| OutboxRuns.EveryOperationAnswers | mosh-core/src/conversation/outbound.rs:75-284 | At every moment of every run each operation answers by the account of the send it names: first sends with what was filed, re-sends with the same bytes, settlements with what the transport said, and a missing message as missing |
| OutboxRuns.HiddenKeepsWhatWasSent | mosh-core/src/conversation/outbound.rs:264-284 | After a message was erased for this device, no operation but the final settlement changes what a send that may have reached the peer replays |
| OutboxRuns.UnsentIsErasedToo | mosh-core/src/conversation/outbound.rs:264-284 | A send that never reached the peer takes over the tombstone with the next operation on it |
| OutboxRuns.UnreadablePayloadIsCounted | mosh-core/src/conversation/outbound.rs:162-175 | An attempt whose bytes cannot be read is not sent, but the try is counted and the message left alone |
| OutboxRuns.UnstampedIsNotFiled | mosh-core/src/conversation/outbound.rs:112-115 | A message without an id is shown, but not filed for sending |
| OutboxRuns.StatusesDifferOnlyAfterRequeue | mosh-core/src/conversation/outbound.rs:151-184 | Attempt and message show different statuses exactly if the last operation was a requeue; then the attempt is Queued and the message Pending |
| OutboxRuns.RequeuedMessageShowsPending | mosh-core/src/conversation/outbound.rs:151-181 | For every message queued and then queued again, a run in which its attempt is Queued and the message Pending |
| OutboxRuns.PublishedStaysPublished | mosh-core/src/conversation/outbound.rs:210-217 | `ever_published` never falls from true while the attempt exists |
| Outboxes.Outbox.Open | mosh-core/src/conversation/outbound.rs:75-89 | Files Pending with the payload |
| Outboxes.Outbox.Queue | mosh-core/src/conversation/outbound.rs:94-102 | Files Queued without payload |
| Outboxes.Outbox.File | mosh-core/src/conversation/outbound.rs:104-141 | Upserts, marks, and files the attempt with the message as marked; fails without an attempt if the id is not found |
| Outboxes.Outbox.Reopen | mosh-core/src/conversation/outbound.rs:147-149 | Refines the re-send function with status Pending |
| Outboxes.Outbox.Requeue | mosh-core/src/conversation/outbound.rs:153-155 | Refines the re-send function with status Queued |
| Outboxes.Outbox.ReopenAs | mosh-core/src/conversation/outbound.rs:157-184 | The attempt is counted before the payload is decoded, the message marked before the JSON is synced, as the source orders its failures |
| Outboxes.Outbox.Settle | mosh-core/src/conversation/outbound.rs:188-243 | On success marks before touching the attempt, on failure after, with the failures in that order |
| Outboxes.Outbox.ActivateQueue | mosh-core/src/conversation/outbound.rs:246-260 | Queues again without counting a retry |
| Outboxes.Outbox.SyncMessageJson | mosh-core/src/conversation/outbound.rs:264-284 | Copies the current JSON, except for a message erased for this device whose attempt may have been published |
| HistoryRuns.NothingCoveredIsLost | mosh-core/src/conversation/history.rs:107-226 | At any moment of any life of a conversation, with tail and send writes failing at any row or failing yet durable, a restart brings back every message below the counter exactly once, under its id or the id made for it from its position and time |
| HistoryRuns.WhatWasWrittenComesBack | mosh-core/src/conversation/history.rs:107-268 | What a restart returns under an id has the author, text, tombstone and state of the message the log had when its row was last written, or the disk had from the start; or is rebuilt from its attempt if there is one; failed if its send died |
| HistoryRuns.RowsHaveASource | mosh-core/src/conversation/history.rs:195-267 | Every row on disk is one the disk began with, or is, to the letter, a message of the log of the moment a tail or send write put it there, under the message's own id and time, else under the made id and the time of that write |
| HistoryRuns.TailStoresEachMessage | mosh-core/src/conversation/history.rs:195-225 | Every message the counter passes got its row under its own or its made id and its own time or that of the write: its own content to the letter, or that of a message with the same key, unless a tombstone was there |
| HistoryRuns.TailStopsAtTheFirstRefusal | mosh-core/src/conversation/history.rs:195-226 | A tail write ends at the first refusal and says so; everything counted was saved; without a refusal the whole log is counted |
| HistoryRuns.SendAnswers | mosh-core/src/conversation/history.rs:232-268 | A send write answers false exactly if the message is not in the log, true only if saved, an error only if the store refused; a plain refusal leaves the disk alone |
| HistoryRuns.SavedSendLeavesItsAttempt | mosh-core/src/persistence/outbound_guard.rs:4-59 | After a saved write the attempt is on disk exactly if there is one and its row is no tombstone for everyone, nor one for this device of a send never published |
| HistoryRuns.RestartIsConsistent | mosh-core/src/conversation/history.rs:107-175 | After that restart the ids in the log are exactly those with rows on disk, an attempt is back exactly if its row is readable, each attempt's message shows its status, and no attempt and no unerased message is pending |
| HistoryRuns.SavedSendSurvives | mosh-core/src/conversation/history.rs:232-268 | A send that was saved, through any later events but its own next write, comes back from a restart with the same bytes |
| HistoryRuns.RestartCountsOnlyRowsIffBacked | mosh-core/src/conversation/history.rs:171-174 | The counter set by a restart covers only ids with rows exactly if every readable attempt on disk has a row |
| HistoryRuns.NewProcessStartsSound | mosh-core/src/conversation/history.rs:74-79 | An empty memory starts such a life on any disk whose rows and attempts sit under their ids and whose readable attempts each have a row, the empty disk included |
| HistoryRuns.RunsKeepInv | mosh-core/src/conversation/history.rs:180-292 | Every event keeps: rows and attempts under the ids they name, every attempt row backed by a message row, every message below the counter on disk |
| HistoryRuns.TailKeepsDisk | mosh-core/src/conversation/history.rs:195-225 | A tail write, stopped at any row, advances the counter only over rows that are on disk |
| Histories.GeneratedIdsDiffer | mosh-core/src/conversation/history.rs:197-200 | The ids made for messages without one are equal only for the same time and position |
| HistoryReplay.RestartReturnsTheDiskIds | mosh-core/src/conversation/history.rs:118-174 | A replay into an empty conversation, for any listing order, returns each id of the disk once and no other |
| HistoryReplay.RestartReturnsTheAttempt | mosh-core/src/conversation/history.rs:145-168 | A readable attempt returns whole, Pending turned into Failed with the interruption as its error; its message returns with the author, text and tombstone of the attempt's JSON and with how the attempt stands, unless the row is erased |
| HistoryReplay.RestartReturnsTheRow | mosh-core/src/conversation/history.rs:118-143 | A message with one row and no attempt returns with the author, text, tombstone and state it was stored with, its own id and time or those of the row; only a Pending one becomes Failed, for good |
| HistoryReplay.RestartReturnsSomeRow | mosh-core/src/conversation/history.rs:118-174 | Each id with rows returns with the content of one of them, as stored, or rebuilt from its attempt unless that row is erased |
| HistoryReplay.RowsKeepTheirOrder | mosh-core/src/conversation/history.rs:118-143 | Messages come back in the order in which their first rows are listed |
| HistoryReplay.UnlistedIsEmpty | mosh-core/src/conversation/history.rs:118-146 | A table the store cannot list is replayed as an empty one |
| Histories.GeneratedIdReads | mosh-core/src/conversation/history.rs:197-200 | A made id is the time in decimal, a dash, and the position in decimal with zeros in front up to six places |
| HistoryReplay.RestartLeavesNothingPending | mosh-core/src/conversation/history.rs:145-174 | Nothing that died with the process is left pending |
| HistoryReplay.SettlingGet | mosh-core/src/conversation/history.rs:354-375 | Settling orphans changes exactly the Pending messages without attempt |
| Histories.History.Replay | mosh-core/src/conversation/history.rs:107-175 | Refines the replay function; the counter becomes the length of the log |
| Histories.History.ReplayRows | mosh-core/src/conversation/history.rs:118-143 | The row loop equals the fold of upserts over the readable rows |
| Histories.History.ReplayAttempts | mosh-core/src/conversation/history.rs:145-169 | The attempt loop equals the fold over the readable attempts |
| Histories.History.SettleOrphanedSends | mosh-core/src/conversation/history.rs:354-375 | The two loops equal marking the listed orphans |
| Histories.History.WriteTail | mosh-core/src/conversation/history.rs:180-226 | The loop equals the tail function, counter included; other conversations' counters are untouched; true exactly if there was something to write |
| Histories.History.WriteSend | mosh-core/src/conversation/history.rs:232-268 | Message row and attempt row in one transaction, the attempt removed if there is none; false exactly if the log lacks the message |
| Histories.History.Acknowledge | mosh-core/src/conversation/history.rs:283-285 | Sets one counter |
| Histories.History.Forget | mosh-core/src/conversation/history.rs:290-292 | The next tail write starts from the beginning |
| HistoryStores.HistoryStore.CommitSend | mosh-core/src/persistence/outbound.rs:70-85 | Both rows or neither; an erased row keeps its tombstone and cancels the attempt |
| HistoryStores.HistoryStore.AppendMessage | mosh-core/src/persistence/history_erasure.rs:5-36 | A late write cannot put content back into an erased row |
| CommitSequencerRuns.AppliedIsTheGenuineChain | mosh-core/src/private_group_runtime/sequencing.rs:19-56 | Over every run of deliveries (any order, duplicates, forgeries, unreadable text, store refusals), notices, rearms and epochs the group passes by itself, the commits it stands on are the genuine chain from the first epoch to the current one, nothing else was confirmed, and the buffer holds at most 64 commits, each under its epoch |
| CommitSequencerRuns.ConfirmedExactly | mosh-core/src/commit_sequencer.rs:77-81 | Confirmed are exactly the commits that deliveries took the member past, not those of epochs it passed by itself |
| CommitSequencerRuns.OffersAreClassified | mosh-core/src/commit_sequencer.rs:50-75 | At any moment of any run an offer is answered by its epoch alone; one ahead is kept exactly if its epoch has none yet and fewer than 64 are kept |
| CommitSequencerRuns.ConfirmedIsSeen | mosh-core/src/commit_sequencer.rs:50-53 | A confirmed commit offered again, at whatever epoch, is seen and changes nothing |
| CommitSequencerRuns.NeverBehindTheSimpleList | mosh-core/src/private_group_runtime/sequencing.rs:73-96 | No garbage ever costs a genuine commit that arrives in its turn: the epoch is never below what a plain in-order list reaches, so a replay of the chain that reaches it always brings a member to its end (whether it asks for one is the matter of the silence rows below) |
| CommitSequencerRuns.FirstWriterIsKept | mosh-core/src/commit_sequencer.rs:65-72 | What was buffered for an epoch stays, unchanged, until that epoch is passed |
| CommitSequencerSilence.GapMeansHeldBack | mosh-core/src/commit_sequencer.rs:102-107 | A gap is reported exactly if something is buffered and no buffered epoch has been reached; a delivery that ends well leaves nothing ready and is Gapped exactly if something is buffered and no entry was stale |
| CommitSequencerSilence.DeliverySilencesIff | mosh-core/src/private_group_runtime/sequencing.rs:31-55 | At any moment of any run, a delivery leaves a member holding commits back and asking for nothing exactly if an entry was stale before, or the drain stops at an entry that is not accepted; in the second case the delivery is an error |
| CommitSequencerSilence.SilenceLastsUntilRescued | mosh-core/src/private_group_runtime/sequencing.rs:37-47 | Once an entry that is not the genuine commit of its epoch is reached, or its epoch is passed elsewhere, it stays and the member stays silent through every further event, until exactly that epoch's genuine commit is delivered and accepted while the epoch is current |
| CommitSequencerSilence.BlockedDeliveryFails | mosh-core/src/private_group_runtime/sequencing.rs:37-47 | Behind a blocking entry of the current epoch exactly the accepted genuine commit of that epoch gets through; every other delivery is an error that moves nothing |
| CommitSequencerSilence.OneForgerySilences | mosh-core/src/private_group_runtime/sequencing.rs:37-47 | One forged commit for the next epoch, then the genuine one for this: the member stands behind the forgery, reports no gap and asks for nothing |
| CommitSequencerSilence.SteppingOverSilences | mosh-core/src/commit_sequencer.rs:102-107 | An entry the group steps over by its own commits hides every later gap for good |
| CommitSequencerExactness.HonestGapIsReported | mosh-core/src/commit_sequencer.rs:102-107 | Without forgeries, refusals and epochs passed elsewhere, a gap is reported exactly if something is buffered |
| CommitSequencerRuns.OneRequestPerStuckEpoch | mosh-core/src/commit_sequencer.rs:112-124 | A notice sends a request exactly if there is a gap, the network takes it, and none went out for this epoch since the last rearm; the epochs asked for strictly increase |
| CommitSequencerExactness.EpochIsTheLeastMissing | mosh-core/src/commit_sequencer.rs:50-93 | Without forgeries, refusals and epochs passed elsewhere, and while at most 64 delivered epochs wait, the current epoch is exactly the least epoch not delivered and the buffer holds exactly the delivered epochs above it |
| CommitSequencerExactness.StalledOnlyByOverflow | mosh-core/src/commit_sequencer.rs:65-72 | Without that bound the epoch is never above the least missing one, and equals it exactly if its own commit was not delivered; otherwise each delivery of that commit found 64 others buffered |
| CommitSequencerExactness.OneMoreThanTheBufferStalls | mosh-core/src/commit_sequencer.rs:69-71 | The bound is exact: with 65 epochs waiting the last is lost, and the member does not pass it although all were delivered |
| CommitSequencerExactness.BenignDrain | mosh-core/src/commit_sequencer.rs:89-93 | The drain runs to the first epoch not buffered and leaves exactly the later ones |
| CommitSequencers.SequenceCommit | mosh-core/src/private_group_runtime/sequencing.rs:19-56 | Refines the sequencing function: classify, apply, confirm after success, drain, report the gap |
| CommitSequencers.DrainInto | mosh-core/src/private_group_runtime/sequencing.rs:37-47 | The drain loop; a commit that is not accepted stays buffered |
| CommitSequencers.Group.Advance | mosh-core/src/private_group_runtime/history/own_transition.rs:52 | The group state moves on by itself; the sequencer is not told |
| CommitSequencers.RequestResyncIfGapped | mosh-core/src/private_group_runtime/commits.rs:81-100 | Refines the notice: a failed publish gives the reservation back |
| CommitSequencers.CommitSequencer.Offer | mosh-core/src/commit_sequencer.rs:50-75 | Applied or stale is dropped, current is applied, future is buffered first writer first up to 64 |
| CommitSequencers.CommitSequencer.Confirm | mosh-core/src/commit_sequencer.rs:79-81 | Adds to the applied set only |
| CommitSequencers.CommitSequencer.DrainReady | mosh-core/src/commit_sequencer.rs:91-93 | Removes and returns the entry of the epoch |
| CommitSequencers.CommitSequencer.Gap | mosh-core/src/commit_sequencer.rs:102-107 | Looking at the least buffered epoch only, answers whether something is buffered and everything buffered is ahead of the current epoch |
| CommitSequencers.CommitSequencer.ShouldRequest | mosh-core/src/commit_sequencer.rs:112-118 | Fires unless the last request was for this epoch, and reserves it |
| CommitSequencers.CommitSequencer.Rearm | mosh-core/src/commit_sequencer.rs:122-124 | Drops the reservation |
| InboxRuns.QueuesHoldTheirOwn | mosh-core/src/inbox.rs:67-139 | In any interleaving of registrations, deliveries and drains each queue holds exactly the frames whose first claimer is its owner and that are within its limits, since its last drain, in order of arrival; the last `capacity` of them for a bounded owner, the last 256 for the tail |
| InboxRuns.EachFrameReachesOneDrain | mosh-core/src/inbox.rs:93-139 | No delivery reaches two owners, and none reaches its owner twice |
| InboxRuns.HeldIsWhatArrivedSince | mosh-core/src/inbox.rs:125-130 | What an owner is given is exactly its deliveries that no drain of it followed |
| InboxRuns.ResetGivesEveryoneTheirs | mosh-core/src/inbox.rs:132-139 | A reset gives out exactly what each owner was still to get, owner by owner |
| Inboxes.FirstClaimer | mosh-core/src/inbox.rs:97-101 | The owner is the first that claims the channel, or the tail if none does |
| Inboxes.Slots.Register | mosh-core/src/inbox.rs:67-75 | Appends an unbounded owner |
| Inboxes.Slots.RegisterBounded | mosh-core/src/inbox.rs:78-91 | Appends a bounded owner |
| Inboxes.Slots.Deliver | mosh-core/src/inbox.rs:95-123 | The search loop and the push equal the delivery function: oversized frames dropped, a full queue loses its oldest |
| Inboxes.Slots.Drain | mosh-core/src/inbox.rs:127-129 | Takes one queue whole and leaves the others |
| Inboxes.Slots.DrainAll | mosh-core/src/inbox.rs:134-139 | Takes every queue, slot by slot |
| BoundedMemoryRuns.MemoryIsTheLastNewKeys | mosh-core/src/conversation/dedup.rs:32-44 | A key was seen before exactly if it is among the last 4096 new keys; set and queue hold the same distinct keys |
| BoundedMemoryRuns.NewFrameIsSpotted | mosh-core/src/conversation/dedup.rs:1-11 | A frame recorded as new is spotted for the rest of 4096 offers, whatever they are |
| BoundedMemoryRuns.FramesAreSpotted | mosh-core/src/conversation/dedup.rs:32-48 | A frame is answered as seen exactly if it, channel and bytes, is among the last 4096 frames that were new when they came |
| BoundedMemoryRuns.CachedAnswersAreTheCheck | mosh-core/src/signature_verification.rs:75-128 | With calls interleaved, evictions and duplicate misses, every answer about a signature (key, signature, input) or a certificate is what checking that very statement says; at most 4096 facts are kept, all of them passed |
| BoundedMemories.FactsTellApart | mosh-core/src/signature_verification.rs:106-117 | Key, signature and input run together under one digest still tell any two statements apart |
| BoundedMemories.SeenFrames.SeenBefore | mosh-core/src/conversation/dedup.rs:32-44 | Refines the recording function on the frame's key and answers whether it was held, which by FramesAreSpotted is about the frame itself |
| BoundedMemories.VerifiedFacts.Remember | mosh-core/src/signature_verification.rs:26-36 | Refines the recording function |
| BoundedMemories.VerifiedFacts.LookUp | mosh-core/src/signature_verification.rs:79-81 | A hit is answered at once, and as the check would answer |
| BoundedMemories.VerifiedFacts.Conclude | mosh-core/src/signature_verification.rs:83-85 | Answers as the check did and remembers only a check that passed, so the memory never holds a fact that fails |
| CfgMeaning.EvaluatorIsExact | scripts/rust-test-policy.py:63-92 | On the tokens of any well-formed predicate the evaluator consumes exactly its tokens, and its set holds exactly the values the predicate takes when every occurrence of an unknown part may answer for itself |
| CfgMeaning.TestOnlyMeansTestOnly | scripts/rust-test-policy.py:99-104 | A cfg is accepted exactly if it mentions `test`, is false without tests and can be true with them, however the occurrences of the unknown parts answer |
| CfgMeaning.AcceptedCfgIsOffWithoutTests | scripts/rust-test-policy.py:95-105 | With one value for each unknown flag, an accepted cfg is false in every build without tests |
| CfgPolarity.AcceptedExactlyOneWay | scripts/rust-test-policy.py:99-104 | For every predicate in which no unknown part occurs both as it is and under a `not`: accepted exactly if it mentions `test`, is false in every real build without tests and true in some real build with them |
| CfgPolarity.EvaluatorIsExactOneWay | scripts/rust-test-policy.py:63-92 | For those predicates the computed values are exactly the ones taken over all real builds, each unknown part having one value |
| CfgPolarity.OnceIsOneWay | scripts/rust-test-policy.py:80-92 | Predicates whose unknown parts are pairwise different are among them |
| CfgMeaning.ContradictionIsNotSeen | scripts/rust-test-policy.py:82-91 | For every q, `any(test, all(q, not(q)))` is off in every real build without tests, and is accepted exactly if q has one value only |
| CfgMeaning.ReadsPredicate | scripts/rust-test-policy.py:63-73 | The recursive descent reads a printed predicate wherever it stands, up to the comma, parenthesis or end after it |
| CfgMeaning.EveryBuildIsCovered | scripts/rust-test-policy.py:80-92 | The value in every build is among the computed ones |
| CfgMeaning.EveryValueIsTaken | scripts/rust-test-policy.py:80-92 | Each computed value is taken by some assignment to the occurrences of the unknown parts |
| CfgPolicies.EvaluateCfg | scripts/rust-test-policy.py:63-92 | The recursion with its loop refines the evaluation function on every token list, malformed ones included |
| CfgPolicies.TestAttribute | scripts/rust-test-policy.py:95-105 | True exactly if some attribute is a test marker or an accepted cfg |
| Delimiters.ScanEndsWithTheGroup | scripts/rust-test-policy.py:49-60 | The scan ends exactly where the bracketed group that follows ends, in the grammar in which each kind of bracket closes its own; without such a group it ends with the code |
| Delimiters.ClosingDelimiter | scripts/rust-test-policy.py:49-60 | The stack loop refines the scan function |
| OrgEnvelopes.SigningInputIsDecodable | mosh-core/src/org_envelope.rs:39-55 | A decoder recovers context and payload from what is signed |
| OrgEnvelopes.SigningInputIsInjective | mosh-core/src/org_envelope.rs:39-55 | Two inputs are signed as the same bytes exactly if context and payload are equal |
| OrgEnvelopes.EnvelopeIsBoundToItsContext | mosh-core/src/org_envelope.rs:57-78 | A signature made for one context verifies exactly for the same signer, payload and context |
| OrgEnvelopes.RejectedExactly | mosh-core/src/org_envelope.rs:57-78 | BadPeerId exactly for an id that is no key; a pass exactly for a sound key that signed this payload for this context |
| OrgEnvelopes.BuildSigningInput | mosh-core/src/org_envelope.rs:39-55 | The loop builds the domain followed by the four length-prefixed fields |

## Left out

- Transfer metadata that no branch reads: file name, thumbnail, voice, origin and execution fields; the progress getters; `pending_chunk_indices`; `update_origin`.
- Aliasing of records: a record inside a map is a value here, as each is owned by its map in the source.
- The transport, the roster and the request ids of the device link; the pages of the names are modelled, the frames around them are not. `digest` and `snapshot` of the names are left out as plain projections.
- The 64-bit wrap of epochs and the text of the commit log. A device's own commit, a Welcome and a recovery are one event that moves the epoch past the sequencer; that a Welcome starts a chain elsewhere is not modelled, and `mark_seen` has no caller.
- Ids made by `stamp`: the outbox runs take each filed id as new to the log, which is what the counter and the random suffix are for.
- OutboxRuns.LogAndAttemptsAgree: is stated without a message erased for this device, because the source then deliberately leaves a published attempt's JSON as it is; `OutboxRuns.HiddenKeepsWhatWasSent` and `OutboxRuns.UnsentIsErasedToo` are about that case.
- Delivery acknowledgements, automatic re-sends and the choice of transport, which belong to the private-message runtime.
- Attachments, previews, history evidence and background rows that a replay restores beside the message; deletion records kept in their own table; `delete_conversation`; the conversation record itself.
- HistoryRuns.RunsKeepInv: takes an acknowledged count as one the store really holds, since the transaction behind it is not modelled.
- Encryption at rest and rows that do not decrypt; rows that do not parse are modelled as unreadable.
- CfgMeaning.TestOnlyMeansTestOnly: treats occurrences of an unknown part as unrelated, as the evaluator does; `CfgPolarity.AcceptedExactlyOneWay` is about real builds.
- CfgMeaning.EvaluatorIsExact: as above; `CfgPolarity.EvaluatorIsExactOneWay` is about real builds.
- CfgPolarity.AcceptedExactlyOneWay: says nothing where a part occurs both plainly and negated; acceptance is still safe there (`CfgMeaning.AcceptedCfgIsOffWithoutTests`), and some such predicates are decided exactly all the same.
- HistoryStores.HistoryStore.CommitSend: without the deletion records kept in their own table, which erase a row as it is written, and without the history evidence a row keeps.
- HistoryStores.HistoryStore.AppendMessage: without those deletion records and that evidence.
- The lexer of scripts/rust-test-policy.py, its regular expressions, and the item and region boundaries around `closing_delimiter`; the model starts from tokens and blanked code.
- Hex decoding of peer ids and signatures, and the weak-key test inside Ed25519, which are one flag each.
- Poisoned locks, the process-wide lifetime of the inbox, and the timing of registration against the network.
