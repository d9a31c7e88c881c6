/** Chunk arithmetic of the content cache. */
module Chunks {
  import opened Base

  /** Bounds of `chunk_range(offset, end, chunk_size)`, an inclusive range. */
  function FirstChunk(offset: nat, cs: nat): nat requires cs > 0 { offset / cs }
  function LastChunk(end: nat, cs: nat): nat requires cs > 0 && end > 0 { (end - 1) / cs }

  /** End of a read: `offset.saturating_add(size).min(file_size)`. */
  function ReadEnd(offset: U64, size: U32, fileSize: nat): nat { Min(offset + size, fileSize) }

  /** Saturating the sum makes no difference, because it is clipped to a 64-bit file size anyway. */
  lemma SaturationInvisible(offset: U64, size: U32, fileSize: U64)
    ensures Min(Min(offset + size, U64_LIMIT - 1), fileSize) == ReadEnd(offset, size, fileSize)
  {
  }

  /** Chunk `c` of a file. */
  function ChunkSlice(file: Bytes, cs: nat, c: nat): Bytes
    requires c * cs <= |file|
  {
    file[c * cs..Min(c * cs + cs, |file|)]
  }

  /** The object is chunk `k` of `file`. */
  ghost predicate IsChunk(stored: Bytes, file: Bytes, cs: nat, k: nat) {
    k * cs <= |file| && stored == ChunkSlice(file, cs, k)
  }

  /** The slice a read of `file` is entitled to. */
  function Slice(file: Bytes, offset: nat, size: nat): Bytes {
    if size == 0 || offset >= |file| then [] else file[offset..Min(offset + size, |file|)]
  }

  /** Where the requested range enters and leaves chunk `c`, relative to the chunk. */
  function PieceLow(offset: nat, cs: nat, c: nat): int { Max(offset, c * cs) - c * cs }
  function PieceHigh(end: nat, cs: nat, c: nat): int { Min(end, c * cs + cs) - c * cs }

  /** `read_object`: what is left of `[low, high)` in an object that may be short. */
  function Piece(stored: Bytes, low: nat, high: nat): Bytes
    requires low <= high
  {
    stored[Min(low, |stored|)..Min(high, |stored|)]
  }

  // ---- Division --------------------------------------------------------------

  lemma MulMonotone(a: nat, b: nat, cs: nat)
    requires a <= b
    ensures a * cs <= b * cs
  {
  }

  lemma Division(x: nat, cs: nat)
    requires cs > 0
    ensures (x / cs) * cs <= x < (x / cs) * cs + cs
  {
    assert x == cs * (x / cs) + x % cs;
  }

  lemma NextChunk(c: nat, cs: nat)
    ensures (c + 1) * cs == c * cs + cs
  {
  }

  /** A chunk is in the range exactly when it overlaps `[offset, end)`. */
  lemma InRange(offset: nat, end: nat, cs: nat, c: nat)
    requires cs > 0 && offset < end
    ensures FirstChunk(offset, cs) <= LastChunk(end, cs)
    ensures FirstChunk(offset, cs) <= c <= LastChunk(end, cs) <==> c * cs < end && offset < c * cs + cs
  {
    var first, last := FirstChunk(offset, cs), LastChunk(end, cs);
    Division(offset, cs);
    Division(end - 1, cs);
    NextChunk(c, cs);
    NextChunk(first, cs);
    NextChunk(last, cs);
    if last < first { MulMonotone(last + 1, first, cs); }
    if c <= last { MulMonotone(c, last, cs); } else { MulMonotone(last + 1, c, cs); }
    if first <= c { MulMonotone(first, c, cs); } else { MulMonotone(c + 1, first, cs); }
  }

  // ---- Tiling ----------------------------------------------------------------

  /** Every chunk of the range holds exactly the file's bytes. */
  ghost predicate HoldsFile(objects: map<nat, Bytes>, file: Bytes, cs: nat, first: nat, last: nat) {
    forall c :: first <= c <= last ==> c in objects && IsChunk(objects[c], file, cs, c)
  }

  /** What `read_cached_range` has appended after the chunks `first .. upto`, upto exclusive. */
  function Gathered(objects: map<nat, Bytes>, cs: nat, offset: nat, end: nat, first: nat, upto: nat): Bytes
    requires cs > 0 && offset < end
    requires first == FirstChunk(offset, cs) && first <= upto <= LastChunk(end, cs) + 1
    requires forall c :: first <= c < upto ==> c in objects
  {
    if upto == first then []
    else
      InRange(offset, end, cs, upto - 1);
      Gathered(objects, cs, offset, end, first, upto - 1)
      + Piece(objects[upto - 1], PieceLow(offset, cs, upto - 1), PieceHigh(end, cs, upto - 1))
  }

  /** A piece of `file[start..start + cs]` is the part of the file where the range meets it. */
  lemma PieceAt(file: Bytes, start: nat, cs: nat, offset: nat, end: nat)
    requires cs > 0 && start < end <= |file| && offset < start + cs && offset < end
    ensures var low, high := Max(offset, start) - start, Min(end, start + cs) - start;
      && 0 <= low < high <= cs
      && Piece(file[start..Min(start + cs, |file|)], low, high) == file[Max(offset, start)..Min(end, start + cs)]
  {
    assert Min(end, start + cs) - start <= |file[start..Min(start + cs, |file|)]|;
  }

  /** One chunk contributes exactly the part of the file where the range meets it. */
  lemma PieceOfChunk(file: Bytes, cs: nat, offset: nat, end: nat, c: nat)
    requires cs > 0 && offset < end <= |file|
    requires FirstChunk(offset, cs) <= c <= LastChunk(end, cs)
    ensures c * cs < end && offset < c * cs + cs
    ensures 0 <= PieceLow(offset, cs, c) < PieceHigh(end, cs, c) <= cs
    ensures Piece(ChunkSlice(file, cs, c), PieceLow(offset, cs, c), PieceHigh(end, cs, c))
         == file[Max(offset, c * cs)..Min(end, c * cs + cs)]
  {
    hide Piece;
    InRange(offset, end, cs, c);
    PieceAt(file, c * cs, cs, offset, end);
  }

  lemma Adjacent(file: Bytes, a: nat, b: nat, c: nat)
    requires a <= b <= c <= |file|
    ensures file[a..b] + file[b..c] == file[a..c]
  {
  }

  /** The pieces gathered so far are the front of the requested range, with no gap and no overlap. */
  lemma {:induction false} GatheredIsFront(objects: map<nat, Bytes>, file: Bytes, cs: nat, offset: nat, end: nat,
                                           upto: nat)
    requires cs > 0 && offset < end <= |file|
    requires FirstChunk(offset, cs) < upto <= LastChunk(end, cs) + 1
    requires HoldsFile(objects, file, cs, FirstChunk(offset, cs), LastChunk(end, cs))
    ensures offset < Min(end, upto * cs)
    ensures Gathered(objects, cs, offset, end, FirstChunk(offset, cs), upto) == file[offset..Min(end, upto * cs)]
    decreases upto
  {
    hide Piece, ChunkSlice, PieceLow, PieceHigh;
    var first, c := FirstChunk(offset, cs), upto - 1;
    NextChunk(c, cs);
    PieceOfChunk(file, cs, offset, end, c);
    assert IsChunk(objects[c], file, cs, c);
    if c == first {
      Division(offset, cs);
      assert [] + file[offset..Min(end, upto * cs)] == file[offset..Min(end, upto * cs)];
    } else {
      GatheredIsFront(objects, file, cs, offset, end, c);
      Adjacent(file, offset, c * cs, Min(end, upto * cs));
    }
  }

  /** Reading the range chunk by chunk yields the exact slice of the file. */
  lemma RangeExact(objects: map<nat, Bytes>, file: Bytes, cs: nat, offset: nat, end: nat)
    requires cs > 0 && offset < end <= |file|
    requires HoldsFile(objects, file, cs, FirstChunk(offset, cs), LastChunk(end, cs))
    ensures FirstChunk(offset, cs) <= LastChunk(end, cs)
    ensures Gathered(objects, cs, offset, end, FirstChunk(offset, cs), LastChunk(end, cs) + 1) == file[offset..end]
  {
    var last := LastChunk(end, cs);
    InRange(offset, end, cs, last);
    GatheredIsFront(objects, file, cs, offset, end, last + 1);
    NextChunk(last, cs);
    Division(end - 1, cs);
  }

  // ---- Machine integers ------------------------------------------------------

  /** The values of the read path stay inside their machine types: no subtraction underflows, no cast truncates. */
  lemma RangeFits(offset: U64, size: U32, fileSize: U64, cs: nat, c: nat)
    requires cs > 0 && size > 0 && offset < fileSize
    requires FirstChunk(offset, cs) <= c <= LastChunk(ReadEnd(offset, size, fileSize), cs)
    ensures offset < ReadEnd(offset, size, fileSize) <= fileSize
    ensures ReadEnd(offset, size, fileSize) - offset <= size
    ensures 0 <= c * cs < fileSize
    ensures 0 <= PieceLow(offset, cs, c) < PieceHigh(ReadEnd(offset, size, fileSize), cs, c) < U64_LIMIT
    ensures PieceHigh(ReadEnd(offset, size, fileSize), cs, c) - PieceLow(offset, cs, c) < U32_LIMIT
    ensures Min(Min(offset + size, U64_LIMIT - 1), fileSize) == ReadEnd(offset, size, fileSize)
  {
    SaturationInvisible(offset, size, fileSize);
    InRange(offset, ReadEnd(offset, size, fileSize), cs, c);
  }

  ghost predicate NoWrap(first: nat, last: nat, cs: nat) {
    forall k :: first <= k <= last ==> k * cs + cs < U64_LIMIT
  }

  /**
   The one addition that can wrap is `chunk_start + chunk_size`. It fits for a whole range if and
   only if it fits for the last chunk, and file size plus chunk size at most 2^64 is enough.
   */
  lemma WrapsOnlyAtTheEnd(offset: nat, end: nat, fileSize: nat, cs: nat)
    requires cs > 0 && offset < end <= fileSize
    ensures NoWrap(FirstChunk(offset, cs), LastChunk(end, cs), cs) <==> LastChunk(end, cs) * cs + cs < U64_LIMIT
    ensures fileSize + cs <= U64_LIMIT ==> NoWrap(FirstChunk(offset, cs), LastChunk(end, cs), cs)
  {
    var first, last := FirstChunk(offset, cs), LastChunk(end, cs);
    InRange(offset, end, cs, last);
    forall k | first <= k <= last
      ensures k * cs <= last * cs
    {
      MulMonotone(k, last, cs);
    }
  }

  /** Length of chunk `c` in a file of `fileSize` bytes, as the download computes it. */
  function ChunkLength(fileSize: nat, cs: nat, c: nat): nat
    requires c * cs <= fileSize
  {
    Min(fileSize - c * cs, cs)
  }

  lemma ChunkLengthExact(file: Bytes, cs: nat, c: nat)
    requires c * cs <= |file|
    ensures |ChunkSlice(file, cs, c)| == ChunkLength(|file|, cs, c)
    ensures ChunkSlice(file, cs, c) == file[c * cs..c * cs + ChunkLength(|file|, cs, c)]
  {
  }
}
