/**
 Reads that trust a size the file does not have. When the remote could not be asked, a read goes by remembered
 attributes; if downloads succeed all the same, it returns what reading the file cut off at the remembered size would.
 */
module CacheShort {
  import opened Base
  import opened Chunks
  import opened CacheIndex
  import opened CacheModel
  import opened CacheReads

  /** The file cut off at `n` bytes. */
  function Clip(file: Bytes, n: nat): Bytes { file[..Min(n, |file|)] }

  /** The bytes from `a` to `b`, as far as the file has them. */
  function Window(file: Bytes, a: nat, b: nat): Bytes
    requires a <= b
  {
    file[Min(a, |file|)..Min(b, |file|)]
  }

  lemma Windows(file: Bytes, a: nat, b: nat, c: nat)
    requires a <= b <= c
    ensures Window(file, a, b) + Window(file, b, c) == Window(file, a, c)
  {
  }

  /** A read of the cut-off file is a prefix of a read of the file, and the whole of it unless the cut falls inside. */
  lemma ClippedSlice(file: Bytes, n: nat, offset: nat, size: nat)
    ensures Slice(Clip(file, n), offset, size) <= Slice(file, offset, size)
    ensures Slice(Clip(file, n), offset, size) == Slice(file, offset, size)
      <==> !(size > 0 && offset < |file| && n < Min(offset + size, |file|))
  {
    var clipped, whole := Slice(Clip(file, n), offset, size), Slice(file, offset, size);
    if size > 0 && offset < |file| && n < Min(offset + size, |file|) {
      assert |clipped| < |whole|;
    }
  }

  // ---- Downloads -------------------------------------------------------------

  /** An answer about bytes below `n` is an answer about the cut-off file. */
  lemma HonestClip(file: Bytes, n: nat, e: ReadEvent)
    requires Honest(file, e) && e.offset + e.want <= n
    ensures Honest(Clip(file, n), e)
  {
  }

  /** A download that ends well holds what the file has of its range, even if the file ends inside or before it. */
  lemma {:induction false} DownloadShort(p: Path, start: nat, len: nat, data: Bytes, script: Script, file: Bytes)
    requires |data| <= len && data == Window(file, start, start + |data|) && (data != [] ==> start + |data| <= |file|)
    requires AllHonest(file, Download(p, start, len, data, script).events)
    ensures Download(p, start, len, data, script).outcome.Ok? ==>
      Download(p, start, len, data, script).outcome.value == Window(file, start, start + len)
    decreases len - |data|
  {
    hide Download;
    DownloadStep(p, start, len, data, script);
    var d := Download(p, start, len, data, script);
    if |data| < len {
      assert d.events[0] in d.events && Honest(file, d.events[0]);
      var reply := NextReply(script);
      if reply.Ok? {
        ShortStep(file, start, len, data, d.events[0]);
        if reply.value != [] {
          var d' := Download(p, start, len, data + reply.value, RestOf(script));
          assert forall e :: e in d'.events ==> e in d.events;
          DownloadShort(p, start, len, data + reply.value, RestOf(script), file);
        }
      }
    }
  }

  /** One honest answer extends the download by what comes next, or shows that nothing does. */
  lemma ShortStep(file: Bytes, start: nat, len: nat, data: Bytes, e: ReadEvent)
    requires |data| < len && data == Window(file, start, start + |data|) && (data != [] ==> start + |data| <= |file|)
    requires Honest(file, e) && e.reply.Ok? && e.offset == start + |data| && 0 < e.want <= len - |data|
    ensures var more := data + e.reply.value;
      if e.reply.value == [] then data == Window(file, start, start + len)
      else |more| <= len && more == Window(file, start, start + |more|) && start + |more| <= |file|
  {
    var more := data + e.reply.value;
    if e.reply.value != [] {
      assert e.reply.value == file[e.offset..e.offset + |e.reply.value|];
      Windows(file, start, start + |data|, start + |more|);
    }
  }

  lemma FetchBounds(c: Cache, p: Path, attrs: FileAttributes, chunk: nat, script: Script)
    requires chunk * c.chunkSize <= attrs.size
    ensures forall e :: e in c.FetchChunk(p, attrs, chunk, script).events ==> e.offset + e.want <= attrs.size
  {
    hide Download;
    DownloadEvents(p, chunk * c.chunkSize, ChunkLength(attrs.size, c.chunkSize, chunk), [], script);
  }

  lemma {:induction false} HydrateBounds(c: Cache, p: Path, attrs: FileAttributes, i: nat, last: nat, script: Script)
    requires i <= last ==> last * c.chunkSize <= attrs.size
    ensures forall e :: e in c.Hydrate(p, attrs, i, last, script).events ==> e.offset + e.want <= attrs.size
    decreases last + 1 - i
  {
    hide Cache.FetchChunk;
    if i > last {
    } else if c.Has(p, VersionOf(attrs), i) {
      HydrateBounds(c, p, attrs, i + 1, last, script);
    } else {
      HydrateFetches(c, p, attrs, i, last, script);
      FetchBounds(c, p, attrs, i, script);
      var f := c.FetchChunk(p, attrs, i, script);
      if f.outcome.Ok? { HydrateBounds(f.cache, p, attrs, i + 1, last, f.rest); }
    }
  }

  /** A read asks for nothing past the size it goes by. */
  lemma ReadClips(c: Cache, p: Path, attrs: FileAttributes, offset: U64, size: U32, script: Script, file: Bytes)
    requires AllHonest(file, c.Read(p, attrs, offset, size, script).events)
    ensures AllHonest(Clip(file, attrs.size), c.Read(p, attrs, offset, size, script).events)
  {
    hide Cache.Hydrate, Honest, Cache.ReadRange;
    if size > 0 && offset < attrs.size {
      var cs, end := c.chunkSize, ReadEnd(offset, size, attrs.size);
      InRange(offset, end, cs, LastChunk(end, cs));
      HydrateBounds(c, p, attrs, FirstChunk(offset, cs), LastChunk(end, cs), script);
    }
    forall e | e in c.Read(p, attrs, offset, size, script).events
      ensures Honest(Clip(file, attrs.size), e)
    {
      HonestClip(file, attrs.size, e);
    }
  }

  // ---- Chunks of a file that may end early -------------------------------------

  /** Every recorded chunk is what the file has of it. */
  ghost predicate ShortTrue(content: ContentRef, disk: map<ObjectId, Bytes>, file: Bytes) {
    forall k :: k in content.chunks ==>
      && content.chunks[k] in disk
      && disk[content.chunks[k]] == Window(file, k * content.chunkSize, k * content.chunkSize + content.chunkSize)
  }

  ghost predicate PathShort(c: Cache, p: Path, v: Version, file: Bytes) {
    Content(c.index, p).Some? && Content(c.index, p).value.version == v ==>
      ShortTrue(Content(c.index, p).value, c.disk, file)
  }

  lemma RecordShort(c: Cache, p: Path, attrs: FileAttributes, chunk: nat, data: Bytes, file: Bytes)
    requires CacheOk(c) && PathShort(c, p, VersionOf(attrs), file)
    requires data == Window(file, chunk * c.chunkSize, chunk * c.chunkSize + c.chunkSize)
    ensures PathShort(c.Record(p, attrs, chunk, data), p, VersionOf(attrs), file)
  {
    hide Cache.Record, CacheOk, Window;
    forall k { RecordedChunks(c, p, attrs, chunk, data, k); }
  }

  lemma FetchShort(c: Cache, p: Path, attrs: FileAttributes, chunk: nat, script: Script, file: Bytes)
    requires CacheOk(c) && |file| <= attrs.size && chunk * c.chunkSize <= attrs.size
    requires PathShort(c, p, VersionOf(attrs), file)
    requires AllHonest(file, c.FetchChunk(p, attrs, chunk, script).events)
    ensures PathShort(c.FetchChunk(p, attrs, chunk, script).cache, p, VersionOf(attrs), file)
  {
    hide Download, Cache.Record, CacheOk;
    var start, len := chunk * c.chunkSize, ChunkLength(attrs.size, c.chunkSize, chunk);
    var d := Download(p, start, len, [], script);
    DownloadShort(p, start, len, [], script, file);
    assert Window(file, start, start + len) == Window(file, start, start + c.chunkSize);
    if d.outcome.Ok? { RecordShort(c, p, attrs, chunk, d.outcome.value, file); }
  }

  lemma {:induction false} HydrateShort(c: Cache, p: Path, attrs: FileAttributes, i: nat, last: nat, script: Script,
                                        file: Bytes)
    requires CacheOk(c) && |file| <= attrs.size && (i <= last ==> last * c.chunkSize <= attrs.size)
    requires PathShort(c, p, VersionOf(attrs), file)
    requires AllHonest(file, c.Hydrate(p, attrs, i, last, script).events)
    ensures PathShort(c.Hydrate(p, attrs, i, last, script).cache, p, VersionOf(attrs), file)
    decreases last + 1 - i
  {
    hide Cache.FetchChunk, PathShort, CacheOk, Honest;
    if i > last {
    } else if c.Has(p, VersionOf(attrs), i) {
      HydrateShort(c, p, attrs, i + 1, last, script, file);
    } else {
      HydrateFetches(c, p, attrs, i, last, script);
      var f, h := c.FetchChunk(p, attrs, i, script), c.Hydrate(p, attrs, i, last, script);
      assert forall e :: e in f.events ==> e in h.events;
      FetchShort(c, p, attrs, i, script, file);
      if f.outcome.Ok? {
        FetchChunkOk(c, p, attrs, i, script);
        var h' := f.cache.Hydrate(p, attrs, i + 1, last, f.rest);
        assert forall e :: e in h'.events ==> e in h.events;
        HydrateShort(f.cache, p, attrs, i + 1, last, f.rest, file);
      }
    }
  }

  // ---- Collecting ------------------------------------------------------------

  /** A short chunk contributes what the file has of the part of the range that meets it. */
  lemma ShortPiece(file: Bytes, start: nat, cs: nat, offset: nat, end: nat)
    requires start < end && offset < start + cs && offset < end
    ensures var low, high := Max(offset, start) - start, Min(end, start + cs) - start;
      && 0 <= low <= high
      && Piece(Window(file, start, start + cs), low, high) == Window(file, Max(offset, start), Min(end, start + cs))
  {
  }

  lemma {:induction false} CollectShort(c: Cache, content: ContentRef, file: Bytes, offset: nat, end: nat, upto: nat)
    requires offset < end && content.chunkSize == c.chunkSize && ShortTrue(content, c.disk, file)
    requires FirstChunk(offset, c.chunkSize) <= upto <= LastChunk(end, c.chunkSize) + 1
    ensures var r := c.Collect(content.chunks, offset, end, upto);
      r.Ok? ==> r.value == Window(file, offset, Reached(offset, end, c.chunkSize, upto))
    decreases upto
  {
    hide Window, Piece, PieceLow, PieceHigh;
    var cs, first := c.chunkSize, FirstChunk(offset, c.chunkSize);
    Division(offset, cs);
    if upto == first {
      EmptyWindow(file, offset);
    } else {
      var k := upto - 1;
      CollectShort(c, content, file, offset, end, k);
      var front := c.Collect(content.chunks, offset, end, k);
      if front.Ok? && k in content.chunks {
        InRange(offset, end, cs, k);
        PieceBounds(offset, end, cs, k);
        ShortPiece(file, k * cs, cs, offset, end);
        NextChunk(k, cs);
        Windows(file, offset, Reached(offset, end, cs, k), Reached(offset, end, cs, upto));
      }
    }
  }

  lemma EmptyWindow(file: Bytes, a: nat)
    ensures Window(file, a, a) == []
  {
  }

  lemma PieceBounds(offset: nat, end: nat, cs: nat, k: nat)
    ensures PieceLow(offset, cs, k) == Max(offset, k * cs) - k * cs
    ensures PieceHigh(end, cs, k) == Min(end, k * cs + cs) - k * cs
  {
  }

  /** The needed chunks are cached after a hydration that met no failure, and they hold what the file has of them. */
  lemma HydratedShort(c: Cache, p: Path, attrs: FileAttributes, offset: U64, size: U32, script: Script, file: Bytes)
    returns (c': Cache, content: ContentRef)
    requires size > 0 && offset < attrs.size
    requires CacheOk(c) && |file| <= attrs.size && PathShort(c, p, VersionOf(attrs), file)
    requires AllHonest(file, c.Read(p, attrs, offset, size, script).events)
    requires c.Read(p, attrs, offset, size, script).outcome.Ok?
    ensures c'.chunkSize == c.chunkSize && content.chunkSize == c.chunkSize && ShortTrue(content, c'.disk, file)
    ensures var cs, end := c.chunkSize, ReadEnd(offset, size, attrs.size);
      && FirstChunk(offset, cs) <= LastChunk(end, cs)
      && c.Read(p, attrs, offset, size, script).outcome
         == c'.Collect(content.chunks, offset, end, LastChunk(end, cs) + 1)
  {
    hide CacheOk, ShortTrue, Cache.Hydrate, Cache.Collect, Honest;
    var cs, end := c.chunkSize, ReadEnd(offset, size, attrs.size);
    var first, last := FirstChunk(offset, cs), LastChunk(end, cs);
    InRange(offset, end, cs, last);
    HydrateShort(c, p, attrs, first, last, script, file);
    HydrateMinimal(c, p, attrs, first, last, script);
    var h := c.Hydrate(p, attrs, first, last, script);
    assert h.cache.Has(p, VersionOf(attrs), last);
    c', content := h.cache, Content(h.cache.index, p).value;
  }

  /**
   A read that goes by a size not below the file's returns what the file has of the range, over content that records
   what the file has of each chunk.
   */
  lemma ReadShort(c: Cache, p: Path, attrs: FileAttributes, offset: U64, size: U32, script: Script, file: Bytes)
    requires CacheOk(c) && |file| <= attrs.size && PathShort(c, p, VersionOf(attrs), file)
    requires AllHonest(file, c.Read(p, attrs, offset, size, script).events)
    requires c.Read(p, attrs, offset, size, script).outcome.Ok?
    ensures c.Read(p, attrs, offset, size, script).outcome.value == Slice(file, offset, size)
  {
    if size > 0 && offset < attrs.size {
      hide CacheOk, ShortTrue, Cache.Read, Cache.Collect, AllHonest, PathShort, Window, Slice, FirstChunk, LastChunk;
      var cs, end := c.chunkSize, ReadEnd(offset, size, attrs.size);
      var c', content := HydratedShort(c, p, attrs, offset, size, script, file);
      CollectShort(c', content, file, offset, end, LastChunk(end, cs) + 1);
      ReachedEnd(offset, end, cs);
      WindowSlice(file, attrs.size, offset, size);
    }
  }

  lemma ReachedEnd(offset: nat, end: nat, cs: nat)
    requires offset < end && cs > 0
    ensures Reached(offset, end, cs, LastChunk(end, cs) + 1) == end
  {
    Division(end - 1, cs);
    NextChunk(LastChunk(end, cs), cs);
  }

  lemma WindowSlice(file: Bytes, n: nat, offset: nat, size: nat)
    requires |file| <= n && offset < n
    ensures Slice(file, offset, size) == Window(file, offset, Min(offset + size, n))
  {
  }

  /** A read under a version that is not cached returns what reading the file cut off at its size would. */
  lemma ReadOfOther(c: Cache, p: Path, attrs: FileAttributes, offset: U64, size: U32, script: Script, file: Bytes)
    requires CacheOk(c) && (Content(c.index, p).Some? ==> Content(c.index, p).value.version != VersionOf(attrs))
    requires AllHonest(file, c.Read(p, attrs, offset, size, script).events)
    requires c.Read(p, attrs, offset, size, script).outcome.Ok?
    ensures c.Read(p, attrs, offset, size, script).outcome.value == Slice(Clip(file, attrs.size), offset, size)
  {
    hide CacheOk, Cache.Read, Honest;
    ReadClips(c, p, attrs, offset, size, script, file);
    ReadShort(c, p, attrs, offset, size, script, Clip(file, attrs.size));
  }
}
