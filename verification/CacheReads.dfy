/** What a sequential `Store::read` guarantees: the exact bytes, and no more remote traffic than needed. */
module CacheReads {
  import opened Base
  import opened Chunks
  import opened CacheIndex
  import opened CacheModel

  // ---- True content ----------------------------------------------------------

  /** Every chunk recorded in `content` is that chunk of `file`. */
  ghost predicate ChunksTrue(content: ContentRef, disk: map<ObjectId, Bytes>, file: Bytes) {
    forall k :: k in content.chunks ==>
      content.chunks[k] in disk && IsChunk(disk[content.chunks[k]], file, content.chunkSize, k)
  }

  /** Content of `p` labelled `v` is content of `file`. */
  ghost predicate PathTrue(c: Cache, p: Path, v: Version, file: Bytes) {
    Content(c.index, p).Some? && Content(c.index, p).value.version == v ==>
      ChunksTrue(Content(c.index, p).value, c.disk, file)
  }

  lemma RecordHas(c: Cache, p: Path, attrs: FileAttributes, chunk: nat, data: Bytes, k: nat)
    ensures c.Record(p, attrs, chunk, data).Has(p, VersionOf(attrs), k) <==> k == chunk || c.Has(p, VersionOf(attrs), k)
  {
  }

  /** What a path holds after a chunk was recorded: that chunk, and what it held of its version before. */
  lemma RecordedChunks(c: Cache, p: Path, attrs: FileAttributes, chunk: nat, data: Bytes, k: nat)
    requires CacheOk(c)
    ensures var content, before := Content(c.Record(p, attrs, chunk, data).index, p), Content(c.index, p);
      && content.Some?
      && content.value.chunkSize == c.chunkSize
      && (k in content.value.chunks ==>
            && content.value.chunks[k] in c.Record(p, attrs, chunk, data).disk
            && var bytes := c.Record(p, attrs, chunk, data).disk[content.value.chunks[k]];
              if k == chunk then bytes == data
              else
                && before.Some? && before.value.version == VersionOf(attrs) && before.value.chunkSize == c.chunkSize
                && k in before.value.chunks && before.value.chunks[k] in c.disk
                && bytes == c.disk[before.value.chunks[k]])
  {
    var obj := c.index.nextObject;
    var bumped := c.index.(nextObject := obj + 1);
    SameContents(c.index, bumped);
    var (ix', replaced) := Commit(bumped, p, attrs, c.chunkSize, chunk, obj);
    CommitOwned(bumped, p, attrs, c.chunkSize, chunk, obj);
    CommitHeld(bumped, p, attrs, c.chunkSize, chunk, obj);
    var content := Content(ix', p).value;
    if k in content.chunks {
      assert obj !in replaced;
      if k != chunk {
        var o := content.chunks[k];
        var prior := Content(c.index, p).value;
        assert prior.chunks[k] == o && o in Objects(prior);
        assert o in Held(ix', p) && o !in replaced;
      }
    }
  }

  lemma RecordTrue(c: Cache, p: Path, attrs: FileAttributes, chunk: nat, data: Bytes, file: Bytes)
    requires CacheOk(c) && PathTrue(c, p, VersionOf(attrs), file)
    requires IsChunk(data, file, c.chunkSize, chunk)
    ensures PathTrue(c.Record(p, attrs, chunk, data), p, VersionOf(attrs), file)
  {
    hide Cache.Record, CacheOk, IsChunk;
    forall k { RecordedChunks(c, p, attrs, chunk, data, k); }
  }

  // ---- Hydration -------------------------------------------------------------

  lemma {:induction false} HydrateOk(c: Cache, p: Path, attrs: FileAttributes, i: nat, last: nat, script: Script)
    requires CacheOk(c) && (i <= last ==> last * c.chunkSize <= attrs.size)
    ensures CacheOk(c.Hydrate(p, attrs, i, last, script).cache)
    decreases last + 1 - i
  {
    hide CacheOk, Cache.FetchChunk;
    if i > last {
    } else if c.Has(p, VersionOf(attrs), i) {
      HydrateOk(c, p, attrs, i + 1, last, script);
    } else {
      HydrateFetches(c, p, attrs, i, last, script);
      FetchChunkOk(c, p, attrs, i, script);
      var f := c.FetchChunk(p, attrs, i, script);
      if f.outcome.Ok? { HydrateOk(f.cache, p, attrs, i + 1, last, f.rest); }
    }
  }

  lemma FetchTrue(c: Cache, p: Path, attrs: FileAttributes, chunk: nat, script: Script, file: Bytes)
    requires CacheOk(c) && |file| == attrs.size && chunk * c.chunkSize <= attrs.size
    requires PathTrue(c, p, VersionOf(attrs), file)
    requires AllHonest(file, c.FetchChunk(p, attrs, chunk, script).events)
    ensures PathTrue(c.FetchChunk(p, attrs, chunk, script).cache, p, VersionOf(attrs), file)
  {
    var len := ChunkLength(attrs.size, c.chunkSize, chunk);
    var d := Download(p, chunk * c.chunkSize, len, [], script);
    DownloadExact(p, chunk * c.chunkSize, len, [], script, file);
    ChunkLengthExact(file, c.chunkSize, chunk);
    if d.outcome.Ok? { RecordTrue(c, p, attrs, chunk, d.outcome.value, file); }
  }

  /** Hydrating from an honest remote keeps the content true. */
  lemma {:induction false} HydrateTrue(c: Cache, p: Path, attrs: FileAttributes, i: nat, last: nat, script: Script,
                                       file: Bytes)
    requires CacheOk(c) && |file| == attrs.size
    requires i <= last ==> last * c.chunkSize <= attrs.size
    requires PathTrue(c, p, VersionOf(attrs), file)
    requires AllHonest(file, c.Hydrate(p, attrs, i, last, script).events)
    ensures PathTrue(c.Hydrate(p, attrs, i, last, script).cache, p, VersionOf(attrs), file)
    decreases last + 1 - i
  {
    hide Download, Commit, Owned;
    if i > last {
    } else if c.Has(p, VersionOf(attrs), i) {
      HydrateTrue(c, p, attrs, i + 1, last, script, file);
    } else {
      HydrateFetches(c, p, attrs, i, last, script);
      var f, h := c.FetchChunk(p, attrs, i, script), c.Hydrate(p, attrs, i, last, script);
      assert forall e :: e in f.events ==> e in h.events;
      FetchTrue(c, p, attrs, i, script, file);
      if f.outcome.Ok? {
        FetchChunkOk(c, p, attrs, i, script);
        var h' := f.cache.Hydrate(p, attrs, i + 1, last, f.rest);
        assert forall e :: e in h'.events ==> e in h.events;
        HydrateTrue(f.cache, p, attrs, i + 1, last, f.rest, file);
      }
    }
  }

  /** One turn of the hydration loop that downloads. */
  lemma HydrateFetches(c: Cache, p: Path, attrs: FileAttributes, i: nat, last: nat, script: Script)
    requires i <= last && last * c.chunkSize <= attrs.size && !c.Has(p, VersionOf(attrs), i)
    ensures i * c.chunkSize <= attrs.size
    ensures var f, h := c.FetchChunk(p, attrs, i, script), c.Hydrate(p, attrs, i, last, script);
      && f.cache.chunkSize == c.chunkSize
      && (f.outcome.Err? ==> h == Hydrated(f.cache, Some(f.outcome.error), f.events, f.rest))
      && (f.outcome.Ok? ==>
            var h' := f.cache.Hydrate(p, attrs, i + 1, last, f.rest);
            h == h'.(events := f.events + h'.events))
  {
    MulMonotone(i, last, c.chunkSize);
  }

  /** The other turns of the hydration loop. */
  lemma HydrateSkips(c: Cache, p: Path, attrs: FileAttributes, i: nat, last: nat, script: Script)
    requires i <= last ==> last * c.chunkSize <= attrs.size
    ensures i > last ==> c.Hydrate(p, attrs, i, last, script) == Hydrated(c, None, [], script)
    ensures i <= last && c.Has(p, VersionOf(attrs), i) ==>
      c.Hydrate(p, attrs, i, last, script) == c.Hydrate(p, attrs, i + 1, last, script)
  {
  }

  /** The call asks for bytes of chunk `k` and of no other chunk. */
  ghost predicate AsksFor(e: ReadEvent, p: Path, cs: nat, k: nat) {
    e.path == p && 0 < e.want && k * cs <= e.offset && e.offset + e.want <= k * cs + cs
  }

  /** Some call of `events` asks for chunk `k`. */
  ghost predicate AskedFor(events: seq<ReadEvent>, p: Path, cs: nat, k: nat) {
    exists e :: e in events && AsksFor(e, p, cs, k)
  }

  /** Every call asks for one of the chunks `i ..= last` that `c` did not have under version `v`. */
  ghost predicate OnlyMissing(c: Cache, events: seq<ReadEvent>, p: Path, v: Version, i: nat, last: nat) {
    forall e :: e in events ==> exists k :: i <= k <= last && !c.Has(p, v, k) && AsksFor(e, p, c.chunkSize, k)
  }

  lemma FetchEvents(c: Cache, p: Path, attrs: FileAttributes, chunk: nat, script: Script)
    requires chunk * c.chunkSize <= attrs.size
    ensures forall e :: e in c.FetchChunk(p, attrs, chunk, script).events ==> AsksFor(e, p, c.chunkSize, chunk)
    ensures chunk * c.chunkSize < attrs.size ==>
      AskedFor(c.FetchChunk(p, attrs, chunk, script).events, p, c.chunkSize, chunk)
  {
    var events := c.FetchChunk(p, attrs, chunk, script).events;
    DownloadEvents(p, chunk * c.chunkSize, ChunkLength(attrs.size, c.chunkSize, chunk), [], script);
    if chunk * c.chunkSize < attrs.size {
      assert events[0] in events && AsksFor(events[0], p, c.chunkSize, chunk);
    }
  }

  /**
   The effect of a hydration from `c` to `c'`: it asked for exactly the missing chunks, and if it succeeded none is
   missing.
   */
  ghost predicate Minimal(c: Cache, c': Cache, done: bool, events: seq<ReadEvent>, p: Path, v: Version, i: nat,
                          last: nat) {
    && c'.chunkSize == c.chunkSize
    && OnlyMissing(c, events, p, v, i, last)
    && (forall k :: c.Has(p, v, k) ==> c'.Has(p, v, k))
    && (done ==> forall k :: i <= k <= last ==>
          c'.Has(p, v, k) && (!c.Has(p, v, k) ==> AskedFor(events, p, c.chunkSize, k)))
  }

  lemma FetchEffect(c: Cache, p: Path, attrs: FileAttributes, chunk: nat, script: Script)
    requires chunk * c.chunkSize <= attrs.size
    ensures var f, v := c.FetchChunk(p, attrs, chunk, script), VersionOf(attrs);
      && f.cache.chunkSize == c.chunkSize
      && (f.outcome.Ok? ==> forall k :: f.cache.Has(p, v, k) <==> k == chunk || c.Has(p, v, k))
      && (f.outcome.Err? ==> forall k :: f.cache.Has(p, v, k) <==> c.Has(p, v, k))
  {
    var d := Download(p, chunk * c.chunkSize, ChunkLength(attrs.size, c.chunkSize, chunk), [], script);
    if d.outcome.Ok? {
      forall k { RecordHas(c, p, attrs, chunk, d.outcome.value, k); }
    }
  }

  /** Fetching one missing chunk and then hydrating the rest is minimal if the rest is. */
  lemma MinimalStep(c: Cache, c1: Cache, c2: Cache, done: bool, first: seq<ReadEvent>, rest: seq<ReadEvent>,
                    p: Path, v: Version, i: nat, last: nat)
    requires i <= last && !c.Has(p, v, i) && c1.chunkSize == c.chunkSize
    requires forall k :: c1.Has(p, v, k) <==> k == i || c.Has(p, v, k)
    requires forall e :: e in first ==> AsksFor(e, p, c.chunkSize, i)
    requires AskedFor(first, p, c.chunkSize, i)
    requires Minimal(c1, c2, done, rest, p, v, i + 1, last)
    ensures Minimal(c, c2, done, first + rest, p, v, i, last)
  {
    forall e | e in first + rest
      ensures exists k :: i <= k <= last && !c.Has(p, v, k) && AsksFor(e, p, c.chunkSize, k)
    {
      if e in first { assert AsksFor(e, p, c.chunkSize, i); }
      else {
        var k :| i + 1 <= k <= last && !c1.Has(p, v, k) && AsksFor(e, p, c1.chunkSize, k);
        assert !c.Has(p, v, k);
      }
    }
    forall k
      ensures AskedFor(first, p, c.chunkSize, k) || AskedFor(rest, p, c.chunkSize, k) ==>
        AskedFor(first + rest, p, c.chunkSize, k)
    {
      AskedForConcat(first, rest, p, c.chunkSize, k);
    }
  }

  lemma AskedForConcat(first: seq<ReadEvent>, rest: seq<ReadEvent>, p: Path, cs: nat, k: nat)
    ensures AskedFor(first, p, cs, k) || AskedFor(rest, p, cs, k) ==> AskedFor(first + rest, p, cs, k)
  {
    if e :| e in first && AsksFor(e, p, cs, k) { assert e in first + rest; }
    if e :| e in rest && AsksFor(e, p, cs, k) { assert e in first + rest; }
  }

  /** Hydration asks for exactly the missing chunks, and when it succeeds none is missing any more. */
  lemma {:induction false} HydrateMinimal(c: Cache, p: Path, attrs: FileAttributes, i: nat, last: nat, script: Script)
    requires (i <= last ==> last * c.chunkSize < attrs.size)
    ensures var h := c.Hydrate(p, attrs, i, last, script);
      Minimal(c, h.cache, h.failure.None?, h.events, p, VersionOf(attrs), i, last)
    decreases last + 1 - i
  {
    var v := VersionOf(attrs);
    if i <= last {
      if c.Has(p, v, i) {
        HydrateMinimal(c, p, attrs, i + 1, last, script);
      } else {
        MulMonotone(i, last, c.chunkSize);
        FetchEvents(c, p, attrs, i, script);
        FetchEffect(c, p, attrs, i, script);
        var f := c.FetchChunk(p, attrs, i, script);
        if f.outcome.Ok? {
          HydrateMinimal(f.cache, p, attrs, i + 1, last, f.rest);
          var h := f.cache.Hydrate(p, attrs, i + 1, last, f.rest);
          MinimalStep(c, f.cache, h.cache, h.failure.None?, f.events, h.events, p, v, i, last);
        }
      }
    }
  }

  // ---- Reading ---------------------------------------------------------------

  /** How much of the range is read after the chunks below `upto`. */
  function Reached(offset: nat, end: nat, cs: nat, upto: nat): nat { Max(offset, Min(end, upto * cs)) }

  /** Reading only true chunks gives the exact slice, and every chunk that is there can be read. */
  lemma {:induction false} CollectExact(c: Cache, content: ContentRef, file: Bytes, offset: nat, end: nat, upto: nat)
    requires offset < end <= |file| && content.chunkSize == c.chunkSize
    requires FirstChunk(offset, c.chunkSize) <= upto <= LastChunk(end, c.chunkSize) + 1
    requires ChunksTrue(content, c.disk, file)
    ensures var r := c.Collect(content.chunks, offset, end, upto);
      && (r.Ok? <==> forall k :: FirstChunk(offset, c.chunkSize) <= k < upto ==> k in content.chunks)
      && (r.Err? ==> r.error == Unavailable)
      && (r.Ok? ==> r.value == file[offset..Reached(offset, end, c.chunkSize, upto)])
    decreases upto
  {
    hide ChunkSlice, Piece, PieceLow, PieceHigh;
    var cs, first := c.chunkSize, FirstChunk(offset, c.chunkSize);
    Division(offset, cs);
    if upto > first {
      var k := upto - 1;
      CollectExact(c, content, file, offset, end, k);
      var front := c.Collect(content.chunks, offset, end, k);
      if front.Ok? && k in content.chunks {
        PieceOfChunk(file, cs, offset, end, k);
        NextChunk(k, cs);
        Adjacent(file, offset, Reached(offset, end, cs, k), Reached(offset, end, cs, upto));
      }
    }
  }

  /** Collecting a whole range of true chunks, all present. */
  lemma CollectWhole(c: Cache, content: ContentRef, file: Bytes, offset: nat, end: nat)
    requires offset < end <= |file| && content.chunkSize == c.chunkSize
    requires ChunksTrue(content, c.disk, file)
    requires forall k :: FirstChunk(offset, c.chunkSize) <= k <= LastChunk(end, c.chunkSize) ==> k in content.chunks
    ensures FirstChunk(offset, c.chunkSize) <= LastChunk(end, c.chunkSize)
    ensures c.Collect(content.chunks, offset, end, LastChunk(end, c.chunkSize) + 1) == Ok(file[offset..end])
  {
    hide ChunkSlice, Piece, Cache.Collect;
    var cs, last := c.chunkSize, LastChunk(end, c.chunkSize);
    InRange(offset, end, cs, last);
    CollectExact(c, content, file, offset, end, last + 1);
    Division(end - 1, cs);
    NextChunk(last, cs);
  }

  /**
   A successful read through a true cache and an honest remote is exactly the requested slice of the
   remote file, clipped at its end, whatever was cached before and however short the remote's answers were.
   */
  lemma ReadExact(c: Cache, p: Path, attrs: FileAttributes, offset: U64, size: U32, script: Script, file: Bytes)
    requires CacheOk(c) && |file| == attrs.size && PathTrue(c, p, VersionOf(attrs), file)
    requires AllHonest(file, c.Read(p, attrs, offset, size, script).events)
    ensures var s := c.Read(p, attrs, offset, size, script);
      && CacheOk(s.cache) && PathTrue(s.cache, p, VersionOf(attrs), file)
      && (s.outcome.Ok? ==> s.outcome.value == Slice(file, offset, size))
  {
    hide Download, Owned, ChunksTrue, Cache.Hydrate, Cache.Collect;
    if size > 0 && offset < attrs.size {
      var cs, end := c.chunkSize, ReadEnd(offset, size, attrs.size);
      var first, last := FirstChunk(offset, cs), LastChunk(end, cs);
      InRange(offset, end, cs, last);
      HydrateOk(c, p, attrs, first, last, script);
      HydrateTrue(c, p, attrs, first, last, script, file);
      HydrateMinimal(c, p, attrs, first, last, script);
      var h := c.Hydrate(p, attrs, first, last, script);
      if h.failure.None? {
        assert h.cache.Has(p, VersionOf(attrs), last);
        var content := Content(h.cache.index, p).value;
        forall k | first <= k <= last ensures k in content.chunks { assert h.cache.Has(p, VersionOf(attrs), k); }
        assert ChunksTrue(content, h.cache.disk, file);
        CollectWhole(h.cache, content, file, offset, end);
      }
    }
  }

  /** The chunks a read needs. */
  ghost predicate Needs(c: Cache, attrs: FileAttributes, offset: U64, size: U32, k: nat)
  {
    && size > 0 && offset < attrs.size
    && FirstChunk(offset, c.chunkSize) <= k <= LastChunk(ReadEnd(offset, size, attrs.size), c.chunkSize)
  }

  /**
   Minimal hydration: every remote call asks for a needed chunk that was missing under the current
   version, a successful read has asked for all of those, and afterwards every needed chunk is cached,
   also when the content began under another version or another chunk size.
   */
  lemma ReadMinimal(c: Cache, p: Path, attrs: FileAttributes, offset: U64, size: U32, script: Script)
    ensures var s, v := c.Read(p, attrs, offset, size, script), VersionOf(attrs);
      && s.cache.chunkSize == c.chunkSize
      && (forall e :: e in s.events ==>
            exists k :: Needs(c, attrs, offset, size, k) && !c.Has(p, v, k) && AsksFor(e, p, c.chunkSize, k))
      && (s.outcome.Ok? ==> forall k :: Needs(c, attrs, offset, size, k) ==>
            s.cache.Has(p, v, k) && (!c.Has(p, v, k) ==> AskedFor(s.events, p, c.chunkSize, k)))
  {
    hide Cache.Hydrate, Cache.Collect;
    if size > 0 && offset < attrs.size {
      var cs, end := c.chunkSize, ReadEnd(offset, size, attrs.size);
      var first, last := FirstChunk(offset, cs), LastChunk(end, cs);
      InRange(offset, end, cs, last);
      HydrateMinimal(c, p, attrs, first, last, script);
      var s := c.Read(p, attrs, offset, size, script);
      forall e | e in s.events
        ensures exists k :: Needs(c, attrs, offset, size, k) && !c.Has(p, VersionOf(attrs), k) && AsksFor(e, p, cs, k)
      {
        var k :| first <= k <= last && !c.Has(p, VersionOf(attrs), k) && AsksFor(e, p, cs, k);
        assert Needs(c, attrs, offset, size, k);
      }
    }
  }

  /** After a successful read, reading any part of its range again asks the remote for nothing and changes nothing. */
  lemma RereadIsFree(c: Cache, p: Path, attrs: FileAttributes, offset: U64, size: U32, script: Script,
                     offset': U64, size': U32, script': Script)
    requires c.Read(p, attrs, offset, size, script).outcome.Ok?
    requires offset < attrs.size && size > 0
    requires offset <= offset' && offset' + size' <= offset + size
    ensures var c1 := c.Read(p, attrs, offset, size, script).cache;
      c1.Read(p, attrs, offset', size', script').cache == c1
      && c1.Read(p, attrs, offset', size', script').events == []
  {
    var c1 := c.Read(p, attrs, offset, size, script).cache;
    ReadMinimal(c, p, attrs, offset, size, script);
    if size' > 0 && offset' < attrs.size {
      var cs, end, end' := c.chunkSize, ReadEnd(offset, size, attrs.size), ReadEnd(offset', size', attrs.size);
      var first', last' := FirstChunk(offset', cs), LastChunk(end', cs);
      InRange(offset', end', cs, last');
      forall k | first' <= k <= last'
        ensures c1.Has(p, VersionOf(attrs), k)
      {
        InRange(offset', end', cs, k);
        InRange(offset, end, cs, k);
        assert Needs(c, attrs, offset, size, k);
      }
      HydrateNothing(c1, p, attrs, first', last', script');
    }
  }

  lemma {:induction false} HydrateNothing(c: Cache, p: Path, attrs: FileAttributes, i: nat, last: nat, script: Script)
    requires i <= last ==> last * c.chunkSize <= attrs.size
    requires forall k :: i <= k <= last ==> c.Has(p, VersionOf(attrs), k)
    ensures c.Hydrate(p, attrs, i, last, script) == Hydrated(c, None, [], script)
    decreases last + 1 - i
  {
    if i <= last { HydrateNothing(c, p, attrs, i + 1, last, script); }
  }

  /**
   What one session hydrated, the next one serves without a remote: after a successful read, reopening the
   directory with the same chunk size and reading the same range from the cache alone gives the same bytes.
   */
  lemma ReopenedReadExact(c: Cache, p: Path, attrs: FileAttributes, offset: U64, size: U32, file: Bytes)
    requires CacheOk(c) && |file| == attrs.size
    requires Content(c.saved, p).Some? && Content(c.saved, p).value.version == VersionOf(attrs)
    requires Content(c.saved, p).value.chunkSize == c.chunkSize
    requires ChunksTrue(Content(c.saved, p).value, c.disk, file)
    requires forall k :: Needs(c, attrs, offset, size, k) ==> k in Content(c.saved, p).value.chunks
    ensures c.Reopen(c.chunkSize).ReadCached(p, offset, size)
      == Ok(Slice(file, offset, size))
  {
    if size > 0 && offset < attrs.size {
      var cs, end := c.chunkSize, ReadEnd(offset, size, attrs.size);
      assert forall k :: FirstChunk(offset, cs) <= k <= LastChunk(end, cs) ==> Needs(c, attrs, offset, size, k);
      CollectWhole(c.Reopen(cs), Content(c.saved, p).value, file, offset, end);
    }
  }
}
