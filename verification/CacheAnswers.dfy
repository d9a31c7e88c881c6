/** When a read succeeds and what it answers when it does not: it fails only with an answer of the remote. */
module CacheAnswers {
  import opened Base
  import opened Chunks
  import opened CacheIndex
  import opened CacheModel
  import opened CacheReads

  /** No call failed, or exactly the last one did, with this error. */
  ghost predicate Tells(failure: Option<Error>, events: seq<ReadEvent>) {
    match failure
    case None => forall e :: e in events ==> e.reply.Ok?
    case Some(error) =>
      && events != [] && events[|events| - 1].reply == Err(error)
      && forall i :: 0 <= i < |events| - 1 ==> events[i].reply.Ok?
  }

  function FailureOf<T>(r: Result<T>): Option<Error> { if r.Ok? then None else Some(r.error) }

  /** What earlier calls, none of which failed, add. */
  lemma TellsAfter(failure: Option<Error>, first: seq<ReadEvent>, rest: seq<ReadEvent>)
    requires Tells(None, first) && Tells(failure, rest)
    ensures Tells(failure, first + rest)
  {
    var events := first + rest;
    if failure.Some? {
      assert events[|events| - 1] == rest[|rest| - 1];
      forall i | 0 <= i < |events| - 1
        ensures events[i].reply.Ok?
      {
        if i < |first| { assert first[i] in first; } else { assert events[i] == rest[i - |first|]; }
      }
    }
  }

  lemma {:induction false} DownloadTells(p: Path, start: nat, len: nat, data: Bytes, script: Script)
    ensures var d := Download(p, start, len, data, script); Tells(FailureOf(d.outcome), d.events)
    decreases if |data| < len then len - |data| else 0
  {
    hide Download;
    DownloadStep(p, start, len, data, script);
    var reply := NextReply(script);
    if |data| < len && reply.Ok? && reply.value != [] {
      var d := Download(p, start, len, data, script);
      var d' := Download(p, start, len, data + reply.value, RestOf(script));
      DownloadTells(p, start, len, data + reply.value, RestOf(script));
      TellsAfter(FailureOf(d'.outcome), [d.events[0]], d'.events);
      assert d.events == [d.events[0]] + d'.events;
    }
  }

  lemma FetchTells(c: Cache, p: Path, attrs: FileAttributes, chunk: nat, script: Script)
    requires chunk * c.chunkSize <= attrs.size
    ensures var f := c.FetchChunk(p, attrs, chunk, script); Tells(FailureOf(f.outcome), f.events)
  {
    hide Download, Tells;
    DownloadTells(p, chunk * c.chunkSize, ChunkLength(attrs.size, c.chunkSize, chunk), [], script);
  }

  lemma {:induction false} HydrateTells(c: Cache, p: Path, attrs: FileAttributes, i: nat, last: nat, script: Script)
    requires i <= last ==> last * c.chunkSize <= attrs.size
    ensures var h := c.Hydrate(p, attrs, i, last, script); Tells(h.failure, h.events)
    decreases last + 1 - i
  {
    hide Cache.FetchChunk;
    if i > last {
    } else if c.Has(p, VersionOf(attrs), i) {
      HydrateTells(c, p, attrs, i + 1, last, script);
    } else {
      HydrateFetches(c, p, attrs, i, last, script);
      FetchTells(c, p, attrs, i, script);
      var f := c.FetchChunk(p, attrs, i, script);
      if f.outcome.Ok? {
        HydrateTells(f.cache, p, attrs, i + 1, last, f.rest);
        var h' := f.cache.Hydrate(p, attrs, i + 1, last, f.rest);
        TellsAfter(h'.failure, f.events, h'.events);
      }
    }
  }

  /** Chunks whose objects are all there are collected. */
  lemma {:induction false} CollectSucceeds(c: Cache, chunks: map<nat, ObjectId>, offset: nat, end: nat, upto: nat)
    requires offset < end && FirstChunk(offset, c.chunkSize) <= upto <= LastChunk(end, c.chunkSize) + 1
    requires forall k :: k in chunks ==> chunks[k] in c.disk
    ensures c.Collect(chunks, offset, end, upto).Ok? <==>
      forall k :: FirstChunk(offset, c.chunkSize) <= k < upto ==> k in chunks
    ensures c.Collect(chunks, offset, end, upto).Err? ==> c.Collect(chunks, offset, end, upto).error == Unavailable
    decreases upto
  {
    hide Piece, PieceLow, PieceHigh, FirstChunk, LastChunk;
    if upto > FirstChunk(offset, c.chunkSize) { CollectSucceeds(c, chunks, offset, end, upto - 1); }
  }

  lemma ObjectsThere(c: Cache, p: Path)
    requires CacheOk(c) && Content(c.index, p).Some?
    ensures var chunks := Content(c.index, p).value.chunks; forall k :: k in chunks ==> chunks[k] in c.disk
  {
    forall k | k in Content(c.index, p).value.chunks
      ensures Content(c.index, p).value.chunks[k] in c.disk
    {
      assert Content(c.index, p).value.chunks[k] in Held(c.index, p);
      assert Content(c.index, p).value.chunks[k] in Owned(c.index);
    }
  }

  /** A cached range can be read if and only if content of the chunk size in use has every chunk of it. */
  lemma RangeSucceeds(c: Cache, p: Path, offset: nat, end: nat)
    requires CacheOk(c) && offset < end
    ensures var r, content := c.ReadRange(p, offset, end), Content(c.index, p);
      && (r.Ok? <==>
            && content.Some? && content.value.chunkSize == c.chunkSize
            && forall k :: FirstChunk(offset, c.chunkSize) <= k <= LastChunk(end, c.chunkSize) ==>
                 k in content.value.chunks)
      && (r.Err? ==> r.error == Unavailable)
  {
    hide Cache.Collect, CacheOk;
    InRange(offset, end, c.chunkSize, 0);
    if Content(c.index, p).Some? {
      ObjectsThere(c, p);
      if Content(c.index, p).value.chunkSize == c.chunkSize {
        CollectSucceeds(c, Content(c.index, p).value.chunks, offset, end, LastChunk(end, c.chunkSize) + 1);
      }
    }
  }

  /** The first chunk that cannot be read decides the error: unavailable if it is not cached, else a backend error. */
  lemma {:induction false} CollectFails(c: Cache, chunks: map<nat, ObjectId>, offset: nat, end: nat, upto: nat, k: nat)
    requires offset < end && FirstChunk(offset, c.chunkSize) <= k < upto <= LastChunk(end, c.chunkSize) + 1
    requires forall i :: FirstChunk(offset, c.chunkSize) <= i < k ==> i in chunks && chunks[i] in c.disk
    requires k !in chunks || chunks[k] !in c.disk
    ensures c.Collect(chunks, offset, end, upto) == Err(if k in chunks then RemoteBackend else Unavailable)
    decreases upto
  {
    hide Piece, PieceLow, PieceHigh, FirstChunk, LastChunk;
    if upto - 1 == k {
      CollectThere(c, chunks, offset, end, k);
    } else {
      CollectFails(c, chunks, offset, end, upto - 1, k);
    }
  }

  lemma {:induction false} CollectThere(c: Cache, chunks: map<nat, ObjectId>, offset: nat, end: nat, upto: nat)
    requires offset < end && FirstChunk(offset, c.chunkSize) <= upto <= LastChunk(end, c.chunkSize) + 1
    requires forall i :: FirstChunk(offset, c.chunkSize) <= i < upto ==> i in chunks && chunks[i] in c.disk
    ensures c.Collect(chunks, offset, end, upto).Ok?
    decreases upto
  {
    hide Piece, PieceLow, PieceHigh, FirstChunk, LastChunk;
    if upto > FirstChunk(offset, c.chunkSize) { CollectThere(c, chunks, offset, end, upto - 1); }
  }

  /**
   A read succeeds if and only if every call it made was answered; otherwise its last call failed, and it answers with
   the error of that call.
   */
  lemma ReadTells(c: Cache, p: Path, attrs: FileAttributes, offset: U64, size: U32, script: Script)
    requires CacheOk(c)
    ensures var s := c.Read(p, attrs, offset, size, script);
      && (s.outcome.Ok? <==> forall e :: e in s.events ==> e.reply.Ok?)
      && Tells(FailureOf(s.outcome), s.events)
  {
    hide CacheOk, Cache.Hydrate, Cache.ReadRange;
    if size > 0 && offset < attrs.size {
      var cs, end := c.chunkSize, ReadEnd(offset, size, attrs.size);
      var first, last := FirstChunk(offset, cs), LastChunk(end, cs);
      InRange(offset, end, cs, last);
      HydrateTells(c, p, attrs, first, last, script);
      HydrateOk(c, p, attrs, first, last, script);
      HydrateMinimal(c, p, attrs, first, last, script);
      var h := c.Hydrate(p, attrs, first, last, script);
      if h.failure.None? {
        assert h.cache.Has(p, VersionOf(attrs), last);
        forall k | first <= k <= last ensures k in Content(h.cache.index, p).value.chunks {
          assert h.cache.Has(p, VersionOf(attrs), k);
        }
        RangeSucceeds(h.cache, p, offset, end);
      }
    }
    LastFailed(c.Read(p, attrs, offset, size, script));
  }

  lemma LastFailed(s: Served)
    requires Tells(FailureOf(s.outcome), s.events)
    ensures s.outcome.Ok? <==> forall e :: e in s.events ==> e.reply.Ok?
  {
    if s.outcome.Err? { assert s.events[|s.events| - 1] in s.events; }
  }

  /**
   A read that must not call succeeds if and only if something is cached with the chunk size in use and either the range
   is empty or every chunk of it is there; otherwise it is unavailable.
   */
  lemma CachedTells(c: Cache, p: Path, offset: U64, size: U32)
    requires CacheOk(c)
    ensures var r, content := c.ReadCached(p, offset, size), Content(c.index, p);
      && (r.Ok? <==>
            && content.Some? && content.value.chunkSize == c.chunkSize
            && forall k: nat :: Touches(c.chunkSize, k, offset, size, content.value.version.size) ==>
                 k in content.value.chunks)
      && (r.Err? ==> r.error == Unavailable)
  {
    hide CacheOk, Cache.ReadRange;
    var content := Content(c.index, p);
    if content.Some? && size > 0 && offset < content.value.version.size {
      var end := ReadEnd(offset, size, content.value.version.size);
      RangeSucceeds(c, p, offset, end);
      forall k: nat
        ensures Touches(c.chunkSize, k, offset, size, content.value.version.size) <==>
          FirstChunk(offset, c.chunkSize) <= k <= LastChunk(end, c.chunkSize)
      {
        InRange(offset, end, c.chunkSize, k);
      }
    }
  }

  /** Some byte of chunk `k` is among the `size` bytes from `offset` of a file of `length` bytes. */
  predicate Touches(cs: nat, k: nat, offset: nat, size: nat, length: nat) {
    Max(offset, k * cs) < Min(Min(offset + size, length), k * cs + cs)
  }
}
