/** How a file is cut into chunks, and that the pieces fit back together.
    Source: chunk_slice in mosh-core/src/attachment_runtime.rs, the length rule
    and `complete` in mosh-core/src/attachment_runtime/incoming.rs. */
module AttachmentChunks {
  import opened Wrappers
  import opened Primitives
  import opened AttachmentTypes

  /** The sender's cut: None past the end of the file, or when the offset does
      not fit 64 bits. */
  function ChunkSlice(plaintext: Bytes, index: nat, chunkSize: nat): (r: Option<Bytes>) {
    if index * chunkSize >= U64_LIMIT then None
    else if index * chunkSize >= |plaintext| then None
    else Some(plaintext[index * chunkSize..Min(index * chunkSize + chunkSize, |plaintext|)])
  }

  /** The length the receiver demands of chunk `index`. */
  function ExpectedLength(m: Manifest, index: nat): (r: int) {
    Min(m.chunkSize, m.totalSize - index * m.chunkSize)
  }

  /** The stored chunks from lo up to hi, joined in index order. */
  function Join(chunks: map<nat, Bytes>, lo: nat, hi: nat): (r: Bytes)
    decreases hi
  {
    if hi <= lo then []
    else Join(chunks, lo, hi - 1) + (if hi - 1 in chunks then chunks[hi - 1] else [])
  }

  /** The indices from lo up to hi. */
  function Range(lo: nat, hi: nat): (r: set<nat>)
    ensures forall i :: i in r <==> lo <= i < hi
    ensures |r| == if lo <= hi then hi - lo else 0
    decreases hi - lo
  {
    if lo >= hi then {} else
      assert lo !in Range(lo + 1, hi);
      {lo} + Range(lo + 1, hi)
  }

  /** An index below the chunk count is exactly one whose offset lies in the file. */
  lemma {:induction false} CountBoundsOffsets(n: nat, d: nat, i: nat)
    requires d > 0
    ensures i < DivCeil(n, d) <==> i * d < n
  {
    var q, r := n / d, n % d;
    assert n == d * q + r;
    if i < q {
      assert (i + 1) * d <= q * d by { MulMonotone(i + 1, q, d); }
    } else if i > q {
      assert (q + 1) * d <= i * d by { MulMonotone(q + 1, i, d); }
    }
  }

  lemma MulMonotone(a: nat, b: nat, d: nat)
    requires a <= b
    ensures a * d <= b * d
  {
    assert b * d == a * d + (b - a) * d;
    assert (b - a) * d >= 0;
  }

  /** Every chunk of a well sized manifest starts inside the file and has a
      positive expected length; the last one ends exactly at the end. */
  lemma {:induction false} OffsetsFit(m: Manifest, i: nat)
    requires WellSized(m)
    ensures i < m.chunkCount <==> i * m.chunkSize < m.totalSize
    ensures i < m.chunkCount ==> 0 < ExpectedLength(m, i) <= m.chunkSize
    ensures m.totalSize <= m.chunkCount * m.chunkSize
  {
    CountBoundsOffsets(m.totalSize, m.chunkSize, i);
    CountBoundsOffsets(m.totalSize, m.chunkSize, m.chunkCount);
  }

  /** Chunks of the demanded lengths join to a file of the declared size. */
  lemma {:induction false} JoinedLength(m: Manifest, chunks: map<nat, Bytes>, n: nat)
    requires WellSized(m) && n <= m.chunkCount
    requires forall i :: 0 <= i < n ==> i in chunks && |chunks[i]| == ExpectedLength(m, i)
    ensures |Join(chunks, 0, n)| == Min(n * m.chunkSize, m.totalSize)
  {
    if n > 0 {
      JoinedLength(m, chunks, n - 1);
      OffsetsFit(m, n - 1);
      assert n * m.chunkSize == (n - 1) * m.chunkSize + m.chunkSize;
    }
  }

  /** Chunk i is here and is the sender's. */
  ghost predicate HoldsSlice(plaintext: Bytes, chunkSize: nat, chunks: map<nat, Bytes>, i: nat) {
    i in chunks && ChunkSlice(plaintext, i, chunkSize) == Some(chunks[i])
  }

  /** Where chunk i starts, or the end of the file. */
  function Offset(plaintext: Bytes, chunkSize: nat, i: nat): (r: nat) {
    Min(i * chunkSize, |plaintext|)
  }

  lemma OffsetsGrow(plaintext: Bytes, chunkSize: nat, lo: nat, hi: nat)
    requires lo <= hi
    ensures Offset(plaintext, chunkSize, lo) <= Offset(plaintext, chunkSize, hi) <= |plaintext|
  {
    MulMonotone(lo, hi, chunkSize);
  }

  lemma {:induction false} SliceSpansOffsets(plaintext: Bytes, chunkSize: nat, chunks: map<nat, Bytes>, i: nat)
    requires HoldsSlice(plaintext, chunkSize, chunks, i)
    ensures Offset(plaintext, chunkSize, i) <= Offset(plaintext, chunkSize, i + 1)
    ensures chunks[i] == plaintext[Offset(plaintext, chunkSize, i)..Offset(plaintext, chunkSize, i + 1)]
  {
    assert (i + 1) * chunkSize == i * chunkSize + chunkSize;
  }

  /** The sender's slices join to the stretch of the sender's file they cover. */
  lemma {:induction false} SlicesJoin(plaintext: Bytes, chunkSize: nat, chunks: map<nat, Bytes>, lo: nat, hi: nat)
    requires lo <= hi
    requires forall i :: lo <= i < hi ==> HoldsSlice(plaintext, chunkSize, chunks, i)
    ensures Offset(plaintext, chunkSize, lo) <= Offset(plaintext, chunkSize, hi)
    ensures Join(chunks, lo, hi) == plaintext[Offset(plaintext, chunkSize, lo)..Offset(plaintext, chunkSize, hi)]
    decreases hi
  {
    OffsetsGrow(plaintext, chunkSize, lo, hi);
    if lo < hi {
      SlicesJoin(plaintext, chunkSize, chunks, lo, hi - 1);
      SliceSpansOffsets(plaintext, chunkSize, chunks, hi - 1);
      OffsetsGrow(plaintext, chunkSize, lo, hi - 1);
      Adjoin(plaintext, Offset(plaintext, chunkSize, lo), Offset(plaintext, chunkSize, hi - 1), Offset(plaintext, chunkSize, hi));
    }
  }

  lemma Adjoin(s: Bytes, a: nat, b: nat, c: nat)
    requires a <= b <= c <= |s|
    ensures s[a..b] + s[b..c] == s[a..c]
  {
  }

  /** A chunk of an honest file has the length the receiver demands. */
  lemma {:induction false} SliceHasExpectedLength(m: Manifest, plaintext: Bytes, i: nat)
    requires WellSized(m) && m.totalSize == |plaintext| && i < m.chunkCount
    ensures ChunkSlice(plaintext, i, m.chunkSize).Some?
    ensures |ChunkSlice(plaintext, i, m.chunkSize).value| == ExpectedLength(m, i)
  {
    OffsetsFit(m, i);
  }
}
