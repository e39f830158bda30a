/** What every transfer record keeps true, and the scheduler that asks for
    chunks. Source: IncomingTransfer in
    mosh-core/src/attachment_runtime/requests.rs. */
module AttachmentTransfers {
  import opened Wrappers
  import opened Primitives
  import opened AttachmentTypes
  import opened AttachmentChunks

  /** Time since `sent`, zero when the clock reads earlier. */
  function Elapsed(now: nat, sent: nat): (r: nat) {
    if now >= sent then now - sent else 0
  }

  /** A request for chunk i was sent and neither answered nor timed out. */
  predicate Outstanding(t: Incoming, i: nat, now: nat) {
    i in t.requestedAt && i !in t.chunks && Elapsed(now, t.requestedAt[i]) < CHUNK_REQUEST_TIMEOUT
  }

  /** Worth asking for: not here, and not outstanding. */
  predicate Wanted(t: Incoming, i: nat, now: nat) {
    i !in t.chunks && (i in t.requestedAt ==> Elapsed(now, t.requestedAt[i]) >= CHUNK_REQUEST_TIMEOUT)
  }

  /** Stored chunks are chunks of the manifest, of the length it demands. */
  ghost predicate ChunksFit(m: Manifest, chunks: map<nat, Bytes>) {
    && (forall i :: i in chunks ==> i < m.chunkCount)
    && (forall i {:trigger HasExpectedLength(m, i, chunks[i])} :: i in chunks ==> HasExpectedLength(m, i, chunks[i]))
  }

  predicate HasExpectedLength(m: Manifest, i: nat, body: Bytes) {
    |body| == ExpectedLength(m, i)
  }

  /** Every index the cursor passed is received or was asked for. */
  ghost predicate CursorCovered(received: set<nat>, asked: set<nat>, cursor: nat) {
    forall i :: 0 <= i < cursor ==> i in received || i in asked
  }

  /** What holds of every incoming record in every reachable state. */
  ghost predicate WellFormed(t: Incoming) {
    && WellSized(t.manifest)
    && ChunksFit(t.manifest, t.chunks)
    && (forall i :: i in t.requestedAt ==> i < t.manifest.chunkCount)
    && t.requestCursor <= t.manifest.chunkCount
    && CursorCovered(t.chunks.Keys, t.requestedAt.Keys, t.requestCursor)
    && (t.priorityChunk.Some? ==> t.priorityChunk.value < t.manifest.chunkCount)
    && (t.requestedAt != map[] ==> t.downloadStarted)
    && (t.state == Complete ==> |t.chunks| == t.manifest.chunkCount)
    && (t.state == Active || t.state == Cancelled ==> |t.chunks| < t.manifest.chunkCount)
  }

  /** The first `batch` wanted indices of lo..hi. */
  function FirstWanted(t: Incoming, lo: nat, hi: nat, now: nat, batch: nat): (r: seq<nat>)
    decreases hi - lo
  {
    if lo >= hi || batch == 0 then []
    else if Wanted(t, lo, now) then [lo] + FirstWanted(t, lo + 1, hi, now, batch - 1)
    else FirstWanted(t, lo + 1, hi, now, batch)
  }

  predicate AllReceived(t: Incoming, lo: nat, hi: nat) {
    forall i :: lo <= i < hi ==> i in t.chunks
  }

  /** Playback first, then timed out gaps, then new chunks at the cursor. */
  function RequestIndices(t: Incoming, now: nat, batch: nat): (r: (Incoming, seq<nat>)) {
    if t.priorityChunk.None? then SequentialIndices(t, now, batch)
    else
      var p := t.priorityChunk.value;
      var indices := FirstWanted(t, p, t.manifest.chunkCount, now, batch);
      var kept := if AllReceived(t, p, t.manifest.chunkCount) then t.(priorityChunk := None) else t;
      if indices != [] then (kept, indices) else SequentialIndices(kept, now, batch)
  }

  function SequentialIndices(t: Incoming, now: nat, batch: nat): (r: (Incoming, seq<nat>)) {
    var gaps := FirstWanted(t, 0, t.requestCursor, now, batch);
    if gaps != [] then (t, gaps)
    else
      var end := Min(t.requestCursor + batch, t.manifest.chunkCount);
      (t.(requestCursor := Max(end, 0)), FirstWanted(t, t.requestCursor, end, now, batch))
  }

  /** Records that the indices were asked for at `now`. */
  function MarkRequested(t: Incoming, indices: seq<nat>, now: nat): (r: Incoming) {
    t.(requestedAt := t.requestedAt + map i | i in indices :: now)
  }

  ghost predicate Increasing(s: seq<nat>) {
    forall i, j :: 0 <= i < j < |s| ==> s[i] < s[j]
  }

  /** FirstWanted yields wanted indices of the interval in increasing order, at
      most `batch`, skipping none; it stops short of `batch` only when it has
      them all. */
  lemma {:induction false} FirstWantedIsExact(t: Incoming, lo: nat, hi: nat, now: nat, batch: nat)
    ensures ExactlyFirst(t, lo, hi, now, batch, FirstWanted(t, lo, hi, now, batch))
    decreases hi - lo
  {
    if lo >= hi || batch == 0 {
    } else if Wanted(t, lo, now) {
      FirstWantedIsExact(t, lo + 1, hi, now, batch - 1);
      LedBy(t, lo, hi, now, batch, FirstWanted(t, lo + 1, hi, now, batch - 1));
    } else {
      FirstWantedIsExact(t, lo + 1, hi, now, batch);
    }
  }

  ghost predicate ExactlyFirst(t: Incoming, lo: nat, hi: nat, now: nat, batch: nat, r: seq<nat>) {
    && |r| <= batch
    && Increasing(r)
    && (forall i :: i in r ==> lo <= i < hi && Wanted(t, i, now))
    && (forall i :: lo <= i < hi && Wanted(t, i, now) && i !in r ==> |r| == batch && forall j :: j in r ==> j < i)
  }

  lemma LedBy(t: Incoming, lo: nat, hi: nat, now: nat, batch: nat, rest: seq<nat>)
    requires lo < hi && batch > 0 && Wanted(t, lo, now) && ExactlyFirst(t, lo + 1, hi, now, batch - 1, rest)
    ensures ExactlyFirst(t, lo, hi, now, batch, [lo] + rest)
  {
    var r := [lo] + rest;
    assert forall k :: 0 <= k < |rest| ==> rest[k] in rest;
    assert forall i :: i in r <==> i == lo || i in rest;
  }

  /** With batch at least one, nothing comes back only if nothing is wanted. */
  lemma NoneWanted(t: Incoming, lo: nat, hi: nat, now: nat, batch: nat)
    requires batch > 0 && FirstWanted(t, lo, hi, now, batch) == []
    ensures forall i :: lo <= i < hi ==> !Wanted(t, i, now)
  {
    FirstWantedIsExact(t, lo, hi, now, batch);
  }

  /** The first wanted index leads the answer. */
  lemma {:induction false} WantedStartLeads(t: Incoming, lo: nat, hi: nat, now: nat, batch: nat)
    requires lo < hi && batch > 0 && Wanted(t, lo, now)
    ensures FirstWanted(t, lo, hi, now, batch) != [] && FirstWanted(t, lo, hi, now, batch)[0] == lo
  {
  }

  ghost predicate SomeWanted(t: Incoming, lo: nat, hi: nat, now: nat) {
    exists i :: lo <= i < hi && Wanted(t, i, now)
  }

  /** Whom a request serves: playback, if anything from the priority chunk on is wanted;
      else the gaps behind the cursor, if there are any; else the chunks at the cursor,
      which moves past them. Each time the first that are wanted, as many as may be. */
  ghost predicate Policy(t: Incoming, now: nat, batch: nat, u: Incoming, indices: seq<nat>) {
    var count := t.manifest.chunkCount;
    && (if t.priorityChunk.Some? && SomeWanted(t, t.priorityChunk.value, count, now) then
          ExactlyFirst(t, t.priorityChunk.value, count, now, batch, indices) && u.requestCursor == t.requestCursor
        else if SomeWanted(t, 0, t.requestCursor, now) then
          ExactlyFirst(t, 0, t.requestCursor, now, batch, indices) && u.requestCursor == t.requestCursor
        else
          && u.requestCursor == Min(t.requestCursor + batch, count)
          && Increasing(indices)
          && forall i :: i in indices <==> t.requestCursor <= i < u.requestCursor && Wanted(t, i, now))
    && u.priorityChunk == (if t.priorityChunk.Some? && AllReceived(t, t.priorityChunk.value, count) then None
                           else t.priorityChunk)
  }

  lemma {:induction false} RequestFollowsPolicy(t: Incoming, now: nat, batch: nat)
    requires WellFormed(t) && batch > 0
    ensures var (u, indices) := RequestIndices(t, now, batch); Policy(t, now, batch, u, indices)
  {
    SequentialPolicy(t, now, batch);
    if t.priorityChunk.Some? {
      var p, count := t.priorityChunk.value, t.manifest.chunkCount;
      FirstOrNone(t, p, count, now, batch);
      SequentialPolicy(t.(priorityChunk := None), now, batch);
      SameWants(t, t.(priorityChunk := None), 0, t.requestCursor, now);
    }
  }

  /** What is wanted does not depend on the priority. */
  lemma SameWants(t: Incoming, u: Incoming, lo: nat, hi: nat, now: nat)
    requires u == t.(priorityChunk := None)
    ensures forall i: nat :: Wanted(t, i, now) <==> Wanted(u, i, now)
    ensures SomeWanted(t, lo, hi, now) <==> SomeWanted(u, lo, hi, now)
  {
    if SomeWanted(t, lo, hi, now) {
      var i :| lo <= i < hi && Wanted(t, i, now);
      assert Wanted(u, i, now);
    }
    if SomeWanted(u, lo, hi, now) {
      var i :| lo <= i < hi && Wanted(u, i, now);
      assert Wanted(t, i, now);
    }
  }

  lemma {:induction false} FirstOrNone(t: Incoming, lo: nat, hi: nat, now: nat, batch: nat)
    requires batch > 0
    ensures var r := FirstWanted(t, lo, hi, now, batch);
      ExactlyFirst(t, lo, hi, now, batch, r) && (r != [] <==> SomeWanted(t, lo, hi, now))
  {
    FirstWantedIsExact(t, lo, hi, now, batch);
    var r := FirstWanted(t, lo, hi, now, batch);
    assert r == [] || r[0] in r;
  }

  lemma {:induction false} SequentialPolicy(t: Incoming, now: nat, batch: nat)
    requires t.requestCursor <= t.manifest.chunkCount && batch > 0
    ensures var (u, indices) := SequentialIndices(t, now, batch);
      if SomeWanted(t, 0, t.requestCursor, now) then
        u == t && ExactlyFirst(t, 0, t.requestCursor, now, batch, indices)
      else
        && u == t.(requestCursor := Min(t.requestCursor + batch, t.manifest.chunkCount))
        && Increasing(indices)
        && forall i :: i in indices <==> t.requestCursor <= i < u.requestCursor && Wanted(t, i, now)
  {
    FirstOrNone(t, 0, t.requestCursor, now, batch);
    var end := Min(t.requestCursor + batch, t.manifest.chunkCount);
    var asked := FirstWanted(t, t.requestCursor, end, now, batch);
    FirstWantedIsExact(t, t.requestCursor, end, now, batch);
    forall i | t.requestCursor <= i < end && Wanted(t, i, now) ensures i in asked {
      if i !in asked {
        BatchCoversInterval(asked, t.requestCursor, i);
      }
    }
  }

  /** The shape of every request: strictly increasing, in range, wanted, and no
      longer than the batch; only the cursor and the priority change. */
  lemma {:induction false} RequestShape(t: Incoming, now: nat, batch: nat)
    requires WellFormed(t)
    ensures var (u, indices) := RequestIndices(t, now, batch);
      && |indices| <= batch
      && Increasing(indices)
      && (forall i :: i in indices ==> i < t.manifest.chunkCount && Wanted(t, i, now))
      && u == t.(requestCursor := u.requestCursor, priorityChunk := u.priorityChunk)
      && t.requestCursor <= u.requestCursor <= t.manifest.chunkCount
      && (u.priorityChunk == t.priorityChunk || u.priorityChunk == None)
  {
    if t.priorityChunk.Some? {
      FirstWantedIsExact(t, t.priorityChunk.value, t.manifest.chunkCount, now, batch);
      SequentialShape(t.(priorityChunk := None), now, batch);
    }
    SequentialShape(t, now, batch);
  }

  lemma {:induction false} SequentialShape(t: Incoming, now: nat, batch: nat)
    requires WellFormed(t)
    ensures var (u, indices) := SequentialIndices(t, now, batch);
      && |indices| <= batch
      && Increasing(indices)
      && (forall i :: i in indices ==> i < t.manifest.chunkCount && Wanted(t, i, now))
      && u == t.(requestCursor := u.requestCursor)
      && t.requestCursor <= u.requestCursor <= t.manifest.chunkCount
  {
    FirstWantedIsExact(t, 0, t.requestCursor, now, batch);
    FirstWantedIsExact(t, t.requestCursor, Min(t.requestCursor + batch, t.manifest.chunkCount), now, batch);
  }

  /** No gap is forgotten: the cursor passes an index only if it is received or
      its request is recorded, before or by this very request. */
  lemma {:induction false} RequestKeepsWellFormed(t: Incoming, now: nat, batch: nat)
    requires WellFormed(t) && t.downloadStarted
    ensures var (u, indices) := RequestIndices(t, now, batch);
      WellFormed(MarkRequested(u, indices, now))
  {
    RequestShape(t, now, batch);
    var (u, indices) := RequestIndices(t, now, batch);
    var v := MarkRequested(u, indices, now);
    assert CursorCovered(v.chunks.Keys, v.requestedAt.Keys, v.requestCursor) by {
      RequestCovers(t, now, batch);
    }
  }

  lemma RequestCovers(t: Incoming, now: nat, batch: nat)
    requires WellFormed(t)
    ensures var (u, indices) := RequestIndices(t, now, batch);
      forall i :: t.requestCursor <= i < u.requestCursor ==> i in t.chunks || i in t.requestedAt || i in indices
  {
    SequentialCovers(t, now, batch);
    SequentialCovers(t.(priorityChunk := None), now, batch);
  }

  lemma {:induction false} SequentialCovers(t: Incoming, now: nat, batch: nat)
    requires WellFormed(t)
    ensures var (u, indices) := SequentialIndices(t, now, batch);
      forall i :: t.requestCursor <= i < u.requestCursor ==> i in t.chunks || i in t.requestedAt || i in indices
  {
    var end := Min(t.requestCursor + batch, t.manifest.chunkCount);
    var asked := FirstWanted(t, t.requestCursor, end, now, batch);
    FirstWantedIsExact(t, t.requestCursor, end, now, batch);
    forall i | t.requestCursor <= i < end ensures i in t.chunks || i in t.requestedAt || i in asked {
      if Wanted(t, i, now) && i !in asked {
        BatchCoversInterval(asked, t.requestCursor, i);
      }
    }
  }

  /** Increasing indices of lo..i number at most i - lo. */
  lemma {:induction false} BatchCoversInterval(s: seq<nat>, lo: nat, i: nat)
    requires Increasing(s) && lo <= i && forall j :: j in s ==> lo <= j < i
    ensures |s| <= i - lo
  {
    if s != [] {
      var last := s[|s| - 1];
      assert last in s;
      var front := s[..|s| - 1];
      forall j | j in front ensures lo <= j < last {
        var k :| 0 <= k < |front| && front[k] == j;
        assert s[k] in s;
      }
      BatchCoversInterval(front, lo, last);
    }
  }

  /** When no request is outstanding, a call on an unfinished transfer either
      names a missing chunk or moves the cursor, priority chunk or not. */
  lemma {:induction false} RequestMakesProgress(t: Incoming, now: nat, batch: nat)
    requires WellFormed(t) && t.state == Active && batch > 0
    requires forall i :: !Outstanding(t, i, now)
    ensures var (u, indices) := RequestIndices(t, now, batch);
      || (indices != [] && forall i :: i in indices ==> i < t.manifest.chunkCount && i !in t.chunks)
      || (indices == [] && u.requestCursor > t.requestCursor)
  {
    RequestShape(t, now, batch);
    var (u, indices) := RequestIndices(t, now, batch);
    if indices == [] && u.requestCursor == t.requestCursor {
      var kept := t.(priorityChunk := u.priorityChunk);
      NoneWanted(kept, 0, t.requestCursor, now, batch);
      assert t.requestCursor == t.manifest.chunkCount;
      forall i | 0 <= i < t.manifest.chunkCount ensures i in t.chunks {
        assert !Wanted(kept, i, now) && !Outstanding(t, i, now);
      }
      FullMapCounts(t.chunks, t.manifest.chunkCount);
      assert false;
    }
  }

  /** A map holding every index below n holds at least n entries. */
  lemma FullMapCounts(chunks: map<nat, Bytes>, n: nat)
    requires forall i :: 0 <= i < n ==> i in chunks
    ensures |chunks| >= n
  {
    SubsetCounts(Range(0, n), chunks.Keys);
  }

  lemma {:induction false} SubsetCounts<T>(a: set<T>, b: set<T>)
    requires a <= b
    ensures |a| <= |b|
    ensures |a| == |b| ==> a == b
  {
    if a != {} {
      var x :| x in a;
      SubsetCounts(a - {x}, b - {x});
    } else if |b| == 0 {
      assert b == {};
    }
  }

  /** As many chunks as the manifest counts, all below the count: none is missing. */
  lemma {:induction false} CountMeansAll(t: Incoming)
    requires forall i :: i in t.chunks ==> i < t.manifest.chunkCount
    requires |t.chunks| == t.manifest.chunkCount
    ensures forall i :: 0 <= i < t.manifest.chunkCount ==> i in t.chunks
  {
    assert t.chunks.Keys <= Range(0, t.manifest.chunkCount);
    SubsetCounts(t.chunks.Keys, Range(0, t.manifest.chunkCount));
  }

  /** A priority chunk that is wanted heads the next request. */
  lemma {:induction false} PriorityLeads(t: Incoming, now: nat, batch: nat)
    requires WellFormed(t) && batch > 0
    requires t.priorityChunk.Some? && Wanted(t, t.priorityChunk.value, now)
    ensures var (u, indices) := RequestIndices(t, now, batch);
      indices != [] && indices[0] == t.priorityChunk.value
  {
    WantedStartLeads(t, t.priorityChunk.value, t.manifest.chunkCount, now, batch);
  }
}
