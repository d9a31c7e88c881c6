/** With a single writer, reading through the cache is reading the remote. */
module VfsRefinement {
  import opened Base
  import opened Chunks
  import I = CacheIndex
  import CM = CacheModel
  import opened CacheReads
  import opened CacheShort
  import opened VfsModel
  import opened VfsViews
  import opened VfsDurable
  import opened VfsRemote
  import opened VfsMirror
  import VfsNodes
  import VfsFreshness

  // ---- What a read does to the cache -----------------------------------------

  /** Old objects are deleted or kept as they are; new objects get new ids. */
  ghost predicate Stable(c: CM.Cache, c': CM.Cache) {
    && c.index.nextObject <= c'.index.nextObject
    && (forall o :: o in c'.disk && o < c.index.nextObject ==> o in c.disk && c'.disk[o] == c.disk[o])
  }

  /** Only the entry of `p` was touched, and content it has is labelled `v` if it was before. */
  ghost predicate OnlyContentOf(c: CM.Cache, c': CM.Cache, p: Path, v: Version) {
    && Stable(c, c')
    && (forall q :: q != p ==> I.Content(c'.index, q) == I.Content(c.index, q))
    && ((I.Content(c.index, p).Some? ==> I.Content(c.index, p).value.version == v) ==>
        (I.Content(c'.index, p).Some? ==> I.Content(c'.index, p).value.version == v))
  }

  lemma FetchOnly(c: CM.Cache, p: Path, attrs: FileAttributes, chunk: nat, script: CM.Script)
    requires chunk * c.chunkSize <= attrs.size
    ensures OnlyContentOf(c, c.FetchChunk(p, attrs, chunk, script).cache, p, VersionOf(attrs))
  {
    hide CM.Download;
  }

  lemma OnlyCompose(c: CM.Cache, c1: CM.Cache, c2: CM.Cache, p: Path, v: Version)
    requires OnlyContentOf(c, c1, p, v) && OnlyContentOf(c1, c2, p, v)
    ensures OnlyContentOf(c, c2, p, v)
  {
    hide I.Content;
  }

  lemma {:induction false} HydrateOnly(c: CM.Cache, p: Path, attrs: FileAttributes, i: nat, last: nat,
                                       script: CM.Script)
    requires i <= last ==> last * c.chunkSize <= attrs.size
    ensures OnlyContentOf(c, c.Hydrate(p, attrs, i, last, script).cache, p, VersionOf(attrs))
    decreases last + 1 - i
  {
    if i > last {
    } else {
      hide CM.Cache.FetchChunk, OnlyContentOf;
      if c.Has(p, VersionOf(attrs), i) {
        HydrateOnly(c, p, attrs, i + 1, last, script);
      } else {
        HydrateFetches(c, p, attrs, i, last, script);
        FetchOnly(c, p, attrs, i, script);
        var f := c.FetchChunk(p, attrs, i, script);
        if f.outcome.Ok? {
          HydrateOnly(f.cache, p, attrs, i + 1, last, f.rest);
          OnlyCompose(c, f.cache, f.cache.Hydrate(p, attrs, i + 1, last, f.rest).cache, p, VersionOf(attrs));
        }
      }
    }
  }

  ghost predicate AllFailed(events: seq<CM.ReadEvent>) {
    forall e :: e in events ==> e.reply.Err?
  }

  /** The entries and the disk are untouched. */
  ghost predicate SameEntries(c: CM.Cache, c': CM.Cache) {
    c'.index.entries == c.index.entries && c'.disk == c.disk && c'.chunkSize == c.chunkSize
  }

  lemma FetchFailed(c: CM.Cache, p: Path, attrs: FileAttributes, chunk: nat, script: CM.Script)
    requires chunk * c.chunkSize < attrs.size && AllFailed(c.FetchChunk(p, attrs, chunk, script).events)
    ensures var f := c.FetchChunk(p, attrs, chunk, script); f.outcome.Err? && SameEntries(c, f.cache)
  {
    var f := c.FetchChunk(p, attrs, chunk, script);
    assert f.events[0] in f.events;
  }

  /** A hydration all of whose calls failed recorded nothing. */
  lemma {:induction false} HydrateFailed(c: CM.Cache, p: Path, attrs: FileAttributes, i: nat, last: nat,
                                         script: CM.Script)
    requires i <= last ==> last * c.chunkSize < attrs.size
    requires AllFailed(c.Hydrate(p, attrs, i, last, script).events)
    ensures SameEntries(c, c.Hydrate(p, attrs, i, last, script).cache)
    decreases last + 1 - i
  {
    if i <= last {
      hide CM.Cache.FetchChunk;
      if c.Has(p, VersionOf(attrs), i) {
        HydrateFailed(c, p, attrs, i + 1, last, script);
      } else {
        HydrateFetches(c, p, attrs, i, last, script);
        MulMonotone(i, last, c.chunkSize);
        var f, h := c.FetchChunk(p, attrs, i, script), c.Hydrate(p, attrs, i, last, script);
        assert forall e :: e in f.events ==> e in h.events;
        FetchFailed(c, p, attrs, i, script);
      }
    }
  }

  lemma ReadOnlyTouches(c: CM.Cache, p: Path, attrs: FileAttributes, offset: U64, size: U32, script: CM.Script)
    ensures var s := c.Read(p, attrs, offset, size, script);
      && OnlyContentOf(c, s.cache, p, VersionOf(attrs))
      && (AllFailed(s.events) ==> SameEntries(c, s.cache))
  {
    hide CM.Cache.Hydrate, CM.Cache.Collect;
    if size > 0 && offset < attrs.size {
      var cs, end := c.chunkSize, ReadEnd(offset, size, attrs.size);
      var first, last := FirstChunk(offset, cs), LastChunk(end, cs);
      InRange(offset, end, cs, last);
      HydrateOnly(c, p, attrs, first, last, script);
      if AllFailed(c.Hydrate(p, attrs, first, last, script).events) { HydrateFailed(c, p, attrs, first, last, script); }
    }
  }

  /** Content of a path the read did not concern is still true. */
  lemma OtherMirrors(c: CM.Cache, c': CM.Cache, r: Tree, q: Path)
    requires CM.CacheOk(c) && CM.CacheOk(c') && Stable(c, c') && I.Content(c'.index, q) == I.Content(c.index, q)
    requires ContentMirrors(c, r, q)
    ensures ContentMirrors(c', r, q)
  {
    var content := I.Content(c.index, q);
    if content.Some? {
      forall k | k in content.value.chunks
        ensures content.value.chunks[k] in c'.disk && content.value.chunks[k] < c.index.nextObject
      {
        assert content.value.chunks[k] in I.Held(c.index, q) && content.value.chunks[k] in I.Held(c'.index, q);
        assert content.value.chunks[k] in I.Owned(c.index) && content.value.chunks[k] in I.Owned(c'.index);
      }
    }
  }

  /** The first download of a read that gets past the end check ends well. */
  ghost predicate FirstArrives(c: CM.Cache, p: Path, attrs: FileAttributes, offset: U64, size: U32, script: CM.Script) {
    && size > 0 && offset < attrs.size
    && var first := FirstChunk(offset, c.chunkSize);
      CM.Download(p, first * c.chunkSize, ChunkLength(attrs.size, c.chunkSize, first), [], script).outcome.Ok?
  }

  /** A read whose first needed chunk is missing records something exactly if the download of that chunk ends well. */
  lemma FirstDecides(c: CM.Cache, p: Path, attrs: FileAttributes, offset: U64, size: U32, script: CM.Script)
    requires I.Content(c.index, p).Some? ==> I.Content(c.index, p).value.version != VersionOf(attrs)
    ensures var c' := c.Read(p, attrs, offset, size, script).cache;
      if FirstArrives(c, p, attrs, offset, size, script)
      then I.Content(c'.index, p).Some? && I.Content(c'.index, p).value.version == VersionOf(attrs)
      else SameEntries(c, c')
  {
    hide CM.Download, CM.Cache.Record, CM.Cache.ReadRange;
    if size > 0 && offset < attrs.size {
      var cs, end := c.chunkSize, ReadEnd(offset, size, attrs.size);
      var first, last := FirstChunk(offset, cs), LastChunk(end, cs);
      InRange(offset, end, cs, last);
      HydrateFetches(c, p, attrs, first, last, script);
      var f := c.FetchChunk(p, attrs, first, script);
      if f.outcome.Ok? {
        RecordLabels(c, p, attrs, first, f.cache, script);
        HydrateOnly(f.cache, p, attrs, first + 1, last, f.rest);
        HydrateHolds(f.cache, p, attrs, first + 1, last, f.rest, first);
      }
    }
  }

  lemma RecordLabels(c: CM.Cache, p: Path, attrs: FileAttributes, chunk: nat, c': CM.Cache, script: CM.Script)
    requires chunk * c.chunkSize <= attrs.size && c.FetchChunk(p, attrs, chunk, script).outcome.Ok?
    requires c' == c.FetchChunk(p, attrs, chunk, script).cache
    ensures c'.chunkSize == c.chunkSize && c'.Has(p, VersionOf(attrs), chunk)
  {
    FetchEffect(c, p, attrs, chunk, script);
  }

  /** Hydration loses no chunk. */
  lemma HydrateHolds(c: CM.Cache, p: Path, attrs: FileAttributes, i: nat, last: nat, script: CM.Script, k: nat)
    requires (i <= last ==> last * c.chunkSize < attrs.size) && c.Has(p, VersionOf(attrs), k)
    ensures c.Hydrate(p, attrs, i, last, script).cache.Has(p, VersionOf(attrs), k)
  {
    hide CM.Cache.Hydrate, CM.Cache.Has;
    HydrateMinimal(c, p, attrs, i, last, script);
  }

  /** A read under current attributes answered from the file, or a read that recorded nothing. */
  ghost predicate Backed(r: Tree, p: Path, attrs: FileAttributes, c: CM.Cache, s: CM.Served) {
    || (p in r && r[p].FileNode? && VersionOf(attrs) == r[p].version && CM.AllHonest(r[p].bytes, s.events))
    || SameEntries(c, s.cache)
  }

  /** The read keeps the cache a mirror. */
  lemma FetchMirrors(w: World, w': World, p: Path, attrs: FileAttributes, offset: U64, size: U32, script: CM.Script,
                     r: Tree, q: Path)
    requires Mirrors(w, r)
    requires w.cache.Attrs(p).Some? || SameEntries(w.cache, w.cache.Read(p, attrs, offset, size, script).cache)
    requires w' == w.(cache := w.cache.Read(p, attrs, offset, size, script).cache, log := w'.log)
    requires Backed(r, p, attrs, w.cache, w.cache.Read(p, attrs, offset, size, script))
    ensures MirrorsAt(w', r, q)
  {
    assert MirrorsAt(w, r, q);
    assert MirrorsAt(w, r, p);
    var s := w.cache.Read(p, attrs, offset, size, script);
    ReadView(w.cache, p, attrs, offset, size, script);
    ReadOnlyTouches(w.cache, p, attrs, offset, size, script);
    assert s.cache.Attrs(q) == w.cache.Attrs(q);
    ReadDurable(w.cache, p, attrs, offset, size, script);
    assert CM.CacheOk(s.cache) && CM.CacheOk(w.cache);
    if SameEntries(w.cache, s.cache) || q != p {
      assert I.Content(s.cache.index, q) == I.Content(w.cache.index, q);
      hide CM.Cache.Read, CM.Cache.Attrs, CM.CacheOk, Durable, ChunksTrue, I.Content;
      OtherMirrors(w.cache, s.cache, r, q);
    } else {
      hide CM.Cache.Read, CM.Cache.Attrs, CM.CacheOk, Durable, I.Content, ChunksTrue;
      ReadExact(w.cache, p, attrs, offset, size, script, r[p].bytes);
    }
  }

  // ---- The calls of a read ---------------------------------------------------

  /** The three ways a revalidation outside offline mode can succeed. */
  lemma GetattrOutcome(w: World, node: NodeId, reply: Result<FileAttributes>)
    requires !w.IsOffline() && Getattr(w, node, w.clock, reply).1.Ok?
    ensures node in w.session.nodeToPath
    ensures var (w1, meta), p := Getattr(w, node, w.clock, reply), w.session.nodeToPath[node];
      && w1.cache.Attrs(p) == Some(meta.value.attributes)
      && (|| (w1 == w && Live(w, p))
          || (w1.log == w.log + [StatEvent(p, w.clock, None, reply)] && reply == Ok(meta.value.attributes))
          || (w1 == w.Logged(StatEvent(p, w.clock, None, reply)) && reply == Err(Unavailable) && !Live(w, p)))
  {
    VfsFreshness.GetattrCaches(w, node, w.clock, reply);
    hide CM.Cache.PutAttrs, CM.Cache.Remove, CM.Cache.Attrs;
  }

  /** The calls of a read are queries, so the tree stays and every answer is true of it. */
  lemma ReadCalls(r: Tree, stat: seq<Event>, events: seq<CM.ReadEvent>, r': Tree)
    requires Answers(r, stat + ContentEvents(events), r') && |stat| <= 1 && forall e :: e in stat ==> e.StatEvent?
    ensures r' == r && (forall e :: e in stat ==> Truthful(r, e))
    ensures forall e :: e in events ==> Truthful(r, ContentEvent(e))
  {
    var calls := stat + ContentEvents(events);
    assert forall e :: e in stat ==> e in calls;
    forall e | e in events
      ensures ContentEvent(e) in calls
    {
      var i :| 0 <= i < |events| && events[i] == e;
      assert ContentEvents(events)[i] == ContentEvent(e);
    }
    assert |calls| == 1 ==> calls[0] in stat || calls[0] in ContentEvents(events);
  }

  lemma TrueAnswers(r: Tree, p: Path, events: seq<CM.ReadEvent>)
    requires forall e :: e in events ==> Truthful(r, ContentEvent(e)) && e.path == p
    ensures if p in r && r[p].FileNode? then CM.AllHonest(r[p].bytes, events) else AllFailed(events)
  {
    hide CM.Honest;
    if p in r && r[p].FileNode? {
      forall e | e in events
        ensures CM.Honest(r[p].bytes, e)
      {
        assert Truthful(r, ContentEvent(e));
        if e.reply.Err? { FailedHonest(r[p].bytes, e); }
      }
    } else {
      forall e | e in events
        ensures e.reply.Err?
      {
        assert Truthful(r, ContentEvent(e));
      }
    }
  }

  lemma FailedHonest(file: Bytes, e: CM.ReadEvent)
    requires e.reply.Err?
    ensures CM.Honest(file, e)
  {
  }

  /** The handle's file was not renamed since it was opened. */
  ghost predicate Unmoved(w: World, handle: Handle) {
    handle in w.session.handles ==>
      PathOf(w.session, w.session.handles[handle].node) == Ok(w.session.handles[handle].path)
  }

  predicate Caching(w: World) { w.config.mode.OnDemand? || w.config.mode.Pinned? }

  /** The revalidation of a caching read of `p` did not reach the remote and fell back to the cached attributes. */
  ghost predicate FellBack(w: World, p: Path, op: Op) {
    op.OpRead? && op.attrs == Err(Unavailable) && !Live(w, p)
  }

  /** A caching read after its revalidation. */
  lemma RevalidatedRead(w: World, op: Op, r: Tree, r': Tree)
    requires Mirrors(w, r) && op.OpRead? && Caching(w) && op.handle in w.session.handles && Unmoved(w, op.handle)
    requires Served(w, op, r, r')
    requires Getattr(w, w.session.handles[op.handle].node, w.clock, op.attrs).1.Ok?
    ensures var file := w.session.handles[op.handle];
      var (w1, meta) := Getattr(w, file.node, w.clock, op.attrs);
      var s := w1.cache.Read(file.path, meta.value.attributes, op.offset, op.size, op.script);
      && r' == r && Mirrors(w1, r) && w1.cache.Attrs(file.path) == Some(meta.value.attributes)
      && w1.clock == w.clock && w1.config == w.config
      && (if FellBack(w, file.path, op) then w1.cache == w.cache else Describes(r, file.path, meta.value.attributes))
      && (if file.path in r && r[file.path].FileNode? then CM.AllHonest(r[file.path].bytes, s.events)
          else AllFailed(s.events))
  {
    var file := w.session.handles[op.handle];
    var p := file.path;
    var (w1, meta) := Getattr(w, file.node, w.clock, op.attrs);
    var s := w1.cache.Read(p, meta.value.attributes, op.offset, op.size, op.script);
    var w' := Next(w, op, w.clock);
    assert MirrorsAt(w, r, p);
    GetattrOutcome(w, file.node, op.attrs);
    GetattrRevalidates(w, file.node, op.attrs);
    GetattrDurable(w, file.node, w.clock, op.attrs);
    VfsNodes.ReadEventsPath(w1.cache, p, meta.value.attributes, op.offset, op.size, op.script);
    assert w'.log == w1.log + ContentEvents(s.events);
    var stat := StatEvent(p, w.clock, None, op.attrs);
    var calls := if w1.log == w.log then [] else [stat];
    assert CallsOf(w, w') == calls + ContentEvents(s.events);
    hide Getattr, CM.Cache.Read, CM.Cache.Attrs, Next, ContentEvents, Answers, Durable, MirrorsAt, TreeOk, Truthful,
      CM.AllHonest;
    ReadCalls(r, calls, s.events, r');
    TrueAnswers(r, p, s.events);
    if w1.log != w.log { assert stat in calls; }
    forall q ensures MirrorsAt(w1, r, q) {
      RevalidateMirrors(w, w1, p, None, op.attrs, r, q);
    }
  }

  /**
   A caching read that could not be revalidated, goes by attributes that are out of date, and whose first download
   ended well all the same.
   */
  ghost predicate StaleFetch(w: World, op: Op, r: Tree) {
    && op.OpRead? && Caching(w) && op.handle in w.session.handles
    && var p := w.session.handles[op.handle].path;
      && FellBack(w, p, op) && w.cache.Attrs(p).Some? && !Describes(r, p, w.cache.Attrs(p).value)
      && FirstArrives(w.cache, p, w.cache.Attrs(p).value, op.offset, op.size, op.script)
  }

  /** The version under which a mirror holds content is the remote's, so attributes that are out of date match none. */
  lemma StaleMatchesNothing(c: CM.Cache, p: Path, attrs: FileAttributes, r: Tree)
    requires ContentMirrors(c, r, p) && !Describes(r, p, attrs)
    ensures I.Content(c.index, p).Some? ==> I.Content(c.index, p).value.version != VersionOf(attrs)
  {
  }

  /** Unless it fetched under outdated attributes, the read is backed by the remote or recorded nothing. */
  lemma RevalidatedBacked(w: World, op: Op, r: Tree, r': Tree)
    requires Mirrors(w, r) && op.OpRead? && Caching(w) && op.handle in w.session.handles && Unmoved(w, op.handle)
    requires Served(w, op, r, r') && !StaleFetch(w, op, r)
    requires Getattr(w, w.session.handles[op.handle].node, w.clock, op.attrs).1.Ok?
    ensures var file := w.session.handles[op.handle];
      var (w1, meta) := Getattr(w, file.node, w.clock, op.attrs);
      var s := w1.cache.Read(file.path, meta.value.attributes, op.offset, op.size, op.script);
      Backed(r, file.path, meta.value.attributes, w1.cache, s)
  {
    var file := w.session.handles[op.handle];
    var p := file.path;
    var (w1, meta) := Getattr(w, file.node, w.clock, op.attrs);
    var attrs := meta.value.attributes;
    RevalidatedRead(w, op, r, r');
    ReadOnlyTouches(w1.cache, p, attrs, op.offset, op.size, op.script);
    assert MirrorsAt(w1, r, p);
    hide Getattr, CM.Cache.Read, Next, Mirrors, Answers, Served, OnlyContentOf, SameEntries, CM.AllHonest, FirstArrives,
      ContentMirrors, Unmoved;
    if !Describes(r, p, attrs) {
      StaleMatchesNothing(w1.cache, p, attrs, r);
      FirstDecides(w1.cache, p, attrs, op.offset, op.size, op.script);
    }
  }

  lemma CachingReadMirrors(w: World, op: Op, r: Tree, r': Tree, q: Path)
    requires Mirrors(w, r) && op.OpRead? && Served(w, op, r, r') && Caching(w)
    requires op.handle in w.session.handles && Unmoved(w, op.handle) && !StaleFetch(w, op, r)
    ensures MirrorsAt(Next(w, op, w.clock), r', q)
  {
    var file := w.session.handles[op.handle];
    var (w1, meta) := Getattr(w, file.node, w.clock, op.attrs);
    var w' := Next(w, op, w.clock);
    if meta.Ok? {
      RevalidatedRead(w, op, r, r');
      assert w' == w1.(cache := w1.cache.Read(file.path, meta.value.attributes, op.offset, op.size, op.script).cache,
                       log := w'.log);
      RevalidatedBacked(w, op, r, r');
      hide Getattr, CM.Cache.Read, Next, Mirrors, MirrorsAt, Answers, Backed, StaleFetch;
      FetchMirrors(w1, w', file.path, meta.value.attributes, op.offset, op.size, op.script, r, q);
    } else {
      assert w' == w1;
      GetattrRevalidates(w, file.node, op.attrs);
      GetattrDurable(w, file.node, w.clock, op.attrs);
      hide Mirrors, MirrorsAt, Durable, Answers, Getattr, Truthful, Next;
      if w1.log == w.log {
        NoCall(w, w1, r, r');
      } else {
        OneCall(w, w1, StatEvent(file.path, w.clock, None, op.attrs), r, r');
      }
      RevalidateMirrors(w, w1, file.path, None, op.attrs, r, q);
    }
  }

  /** A read through a handle whose path is gone from the remote reads nothing and records nothing. */
  lemma GoneReadMirrors(w: World, op: Op, r: Tree, r': Tree, q: Path)
    requires Mirrors(w, r) && op.OpRead? && Served(w, op, r, r') && Caching(w)
    requires op.handle in w.session.handles && w.session.handles[op.handle].path !in r
    ensures MirrorsAt(Next(w, op, w.clock), r', q)
  {
    var file := w.session.handles[op.handle];
    var (w1, meta) := Getattr(w, file.node, w.clock, op.attrs);
    var w' := Next(w, op, w.clock);
    if file.node !in w.session.nodeToPath {
      assert MirrorsAt(w, r, q);
      NoCall(w, w', r, r');
    } else {
      var p := w.session.nodeToPath[file.node];
      GetattrRevalidates(w, file.node, op.attrs);
      GetattrDurable(w, file.node, w.clock, op.attrs);
      var stat := StatEvent(p, w.clock, None, op.attrs);
      var calls := if w1.log == w.log then [] else [stat];
      if meta.Err? {
        assert w' == w1;
        hide Mirrors, MirrorsAt, Durable, Answers, Getattr, Truthful, Next;
        if w1.log == w.log { NoCall(w, w1, r, r'); } else { OneCall(w, w1, stat, r, r'); }
        RevalidateMirrors(w, w1, p, None, op.attrs, r, q);
      } else {
        var s := w1.cache.Read(file.path, meta.value.attributes, op.offset, op.size, op.script);
        VfsNodes.ReadEventsPath(w1.cache, file.path, meta.value.attributes, op.offset, op.size, op.script);
        assert w'.log == w1.log + ContentEvents(s.events);
        assert CallsOf(w, w') == calls + ContentEvents(s.events);
        assert w' == w1.(cache := s.cache, log := w'.log);
        hide Getattr, CM.Cache.Read, CM.Cache.Attrs, Next, ContentEvents, Answers, Durable, MirrorsAt, TreeOk, Truthful;
        ReadCalls(r, calls, s.events, r');
        TrueAnswers(r, file.path, s.events);
        if w1.log != w.log { assert stat in calls; }
        forall k ensures MirrorsAt(w1, r, k) { RevalidateMirrors(w, w1, p, None, op.attrs, r, k); }
        ReadOnlyTouches(w1.cache, file.path, meta.value.attributes, op.offset, op.size, op.script);
        FetchMirrors(w1, w', file.path, meta.value.attributes, op.offset, op.size, op.script, r, q);
      }
    }
  }

  /** The handle still leads where it did, or to nothing. */
  ghost predicate Harmless(w: World, handle: Handle, r: Tree) {
    handle in w.session.handles && !Unmoved(w, handle) ==> w.session.handles[handle].path !in r
  }

  lemma ReadMirrors(w: World, op: Op, r: Tree, r': Tree, q: Path)
    requires Mirrors(w, r) && op.OpRead? && Served(w, op, r, r') && (Caching(w) ==> Harmless(w, op.handle, r))
    requires !StaleFetch(w, op, r)
    ensures MirrorsAt(Next(w, op, w.clock), r', q)
  {
    assert MirrorsAt(w, r, q);
    SameCache(w.cache, q);
    if Caching(w) && op.handle in w.session.handles {
      if Unmoved(w, op.handle) {
        hide *;
        CachingReadMirrors(w, op, r, r', q);
      } else {
        assert w.session.handles[op.handle].path !in r;
        hide *;
        GoneReadMirrors(w, op, r, r', q);
      }
    } else {
      hide Getattr, CM.Cache.Read, CM.Cache.ReadCached, CM.Cache.Attrs, Mirrors, MirrorsAt, Durable, Answers, Shrinks,
        Carries;
      var w' := Next(w, op, w.clock);
      if w'.log == w.log { NoCall(w, w', r, r'); } else { OneCall(w, w', w'.log[|w.log|], r, r'); }
      KeptAt(w, w', r, r', q);
    }
  }

  // ---- Every operation -------------------------------------------------------

  /**
   Where the mirror could break without an error: a rename of a cached path that is due for revalidation onto one
   that still has a live stamp, a caching read through a handle whose file was renamed and whose path names another file
   by now, and a fetch under outdated attributes when the remote did not answer the stat but did answer the download.
   */
  ghost predicate Tidy(w: World, op: Op, r: Tree) {
    match op
    case OpRename(parent, name, newParent, newName, _) =>
      var from, to := ChildOf(w.session, parent, name), ChildOf(w.session, newParent, newName);
      from.Ok? && to.Ok? && w.cache.Attrs(from.value).Some? ==> !Live(w, to.value) || Live(w, from.value)
    case OpRead(handle, _, _, _, _, _) => (Caching(w) ==> Harmless(w, handle, r)) && !StaleFetch(w, op, r)
    case _ => true
  }

  lemma RenameMirrors(w: World, op: Op, r: Tree, r': Tree, p: Path)
    requires Mirrors(w, r) && op.OpRename? && Served(w, op, r, r') && Tidy(w, op, r)
    ensures MirrorsAt(Next(w, op, w.clock), r', p)
  {
    assert MirrorsAt(w, r, p);
    RenameOpDurable(w, op, w.clock);
    SameCache(w.cache, p);
    var w' := Next(w, op, w.clock);
    if w'.log == w.log {
      QuietNames(w, op);
      NoCall(w, w', r, r');
      hide Next, Mirrors, MirrorsAt, Durable, Answers, Shrinks, Carries, CM.Cache.Attrs;
      KeptAt(w, w', r, r, p);
    } else {
      RenameEffect(w, op);
      var from, to := ChildOf(w.session, op.parent, op.name).value, ChildOf(w.session, op.newParent, op.newName).value;
      hide ChildOf, Next, Mirrors, MirrorsAt, Durable, Answers, Shrinks, Carries, CM.Cache.Rename,
        CM.Cache.InvalidateChildren, CM.Cache.Attrs, Under, TreeMoved;
      var e := RenameEvent(from, w.clock, Some((op.parent, op.name)), to, (op.newParent, op.newName), op.done);
      OneCall(w, w', e, r, r');
      if op.done.Ok? {
        RenamedMirrors(w, w', from, to, w.session.nodeToPath[op.parent], w.session.nodeToPath[op.newParent], r, r', p);
      } else {
        KeptAt(w, w', r, r', p);
      }
    }
  }

  lemma RestartMirrors(w: World, op: Op, r: Tree, r': Tree, p: Path)
    requires Mirrors(w, r) && op.OpRestart? && Served(w, op, r, r')
    ensures MirrorsAt(Next(w, op, w.clock), r', p)
  {
    assert MirrorsAt(w, r, p);
    var w' := Next(w, op, w.clock);
    NoCall(w, w', r, r');
    hide Mirrors, CM.CacheOk, NonEmpty, ChunksTrue, Answers;
    assert I.Content(w'.cache.index, p) == I.Content(w.cache.index, p);
    assert w'.cache.Attrs(p) == w.cache.Attrs(p);
  }

  lemma MirrorsStepAt(w: World, op: Op, r: Tree, r': Tree, p: Path)
    requires Mirrors(w, r) && Served(w, op, r, r') && Tidy(w, op, r)
    ensures MirrorsAt(Next(w, op, w.clock), r', p)
  {
    hide Next, Mirrors, MirrorsAt, Answers, Live, Caching, Harmless, StaleFetch;
    match op
    case OpLookup(_, _, _) => LookupMirrors(w, op, r, r', p);
    case OpGetattr(_, _) => GetattrMirrors(w, op, r, r', p);
    case OpReaddir(_, _) => ReaddirMirrors(w, op, r, r', p);
    case OpOpen(_, _, _) => OpenMirrors(w, op, r, r', p);
    case OpRead(_, _, _, _, _, _) => ReadMirrors(w, op, r, r', p);
    case OpWrite(_, _, _, _) => WriteMirrors(w, op, r, r', p);
    case OpRelease(_) => WriteMirrors(w, op, r, r', p);
    case OpCreate(_, _, _) => CreateMirrors(w, op, r, r', p);
    case OpMkdir(_, _, _) => CreateMirrors(w, op, r, r', p);
    case OpUnlink(_, _, _) => RemoveMirrors(w, op, r, r', p);
    case OpRmdir(_, _, _) => RemoveMirrors(w, op, r, r', p);
    case OpRename(_, _, _, _, _) => RenameMirrors(w, op, r, r', p);
    case OpSetattr(_, _, _) => SetattrMirrors(w, op, r, r', p);
    case OpRestart(_, _, _, _) => RestartMirrors(w, op, r, r', p);
  }

  lemma MirrorsStep(w: World, op: Op, r: Tree, r': Tree)
    requires Mirrors(w, r) && Served(w, op, r, r') && Tidy(w, op, r)
    ensures Mirrors(Next(w, op, w.clock), r')
  {
    hide Next, MirrorsAt, Tidy;
    DurableStep(w, op, w.clock);
    forall p ensures MirrorsAt(Next(w, op, w.clock), r', p) {
      MirrorsStepAt(w, op, r, r', p);
    }
  }

  /** What is fetched under outdated attributes is labelled with their version, which is not the remote's. */
  lemma StaleFetchMislabels(w: World, op: Op, r: Tree, r': Tree)
    requires Mirrors(w, r) && Served(w, op, r, r') && StaleFetch(w, op, r) && Unmoved(w, op.handle)
    ensures var p, c' := w.session.handles[op.handle].path, Next(w, op, w.clock).cache;
      && I.Content(c'.index, p).Some?
      && I.Content(c'.index, p).value.version == VersionOf(w.cache.Attrs(p).value)
      && r' == r && !ContentMirrors(c', r, p)
  {
    var file := w.session.handles[op.handle];
    var p := file.path;
    var (w1, meta) := Getattr(w, file.node, w.clock, op.attrs);
    var w', attrs := Next(w, op, w.clock), w.cache.Attrs(p).value;
    StaleIsServed(w, op, r);
    RevalidatedRead(w, op, r, r');
    assert w'.cache == w1.cache.Read(p, attrs, op.offset, op.size, op.script).cache;
    assert MirrorsAt(w, r, p);
    hide Getattr, CM.Cache.Read, Next, Mirrors, Answers, Served, FirstArrives, ContentMirrors, Unmoved, CM.Cache.Attrs;
    StaleMatchesNothing(w.cache, p, attrs, r);
    FirstDecides(w.cache, p, attrs, op.offset, op.size, op.script);
    StaleContent(w'.cache, p, attrs, r);
  }

  lemma StaleContent(c: CM.Cache, p: Path, attrs: FileAttributes, r: Tree)
    requires I.Content(c.index, p).Some? && I.Content(c.index, p).value.version == VersionOf(attrs)
    requires !Describes(r, p, attrs)
    ensures !ContentMirrors(c, r, p)
  {
  }

  /** The revalidation of such a read succeeds. */
  lemma StaleIsServed(w: World, op: Op, r: Tree)
    requires StaleFetch(w, op, r) && Unmoved(w, op.handle)
    ensures Getattr(w, w.session.handles[op.handle].node, w.clock, op.attrs).1.Ok?
  {
    hide FirstArrives;
  }

  /** A caching read through a handle whose file was not renamed breaks the mirror in exactly that case. */
  lemma StaleFetchMirrorsExactly(w: World, op: Op, r: Tree, r': Tree)
    requires Mirrors(w, r) && op.OpRead? && Caching(w) && op.handle in w.session.handles && Unmoved(w, op.handle)
    requires Served(w, op, r, r')
    ensures Mirrors(Next(w, op, w.clock), r') <==> !StaleFetch(w, op, r)
  {
    var p := w.session.handles[op.handle].path;
    if StaleFetch(w, op, r) {
      StaleFetchMislabels(w, op, r, r');
      hide Next, StaleFetch, Served, ContentMirrors, Durable, TreeOk;
      assert Mirrors(Next(w, op, w.clock), r') ==> MirrorsAt(Next(w, op, w.clock), r', p);
    } else {
      hide Next, Mirrors, Served, StaleFetch, Caching, Unmoved;
      MirrorsStep(w, op, r, r');
    }
  }

  // ---- Whole runs ------------------------------------------------------------

  /** A run against a remote that only this mount changes: the trees before each operation and at the end. */
  ghost predicate SingleWriter(w: World, ops: seq<Timed>, trees: seq<Tree>, w': World)
    decreases |ops|
  {
    && |trees| == |ops| + 1
    && if ops == [] then w' == w
       else
         var w0 := w.(clock := ops[0].now);
         && w.clock <= ops[0].now
         && Served(w0, ops[0].op, trees[0], trees[1]) && Tidy(w0, ops[0].op, trees[0])
         && SingleWriter(Tick(w, ops[0].op, ops[0].now), ops[1..], trees[1..], w')
  }

  lemma LaterMirrors(w: World, now: Time, r: Tree)
    requires Mirrors(w, r) && w.clock <= now
    ensures Mirrors(w.(clock := now), r)
  {
    hide ContentMirrors, Durable, TreeOk;
    forall p ensures MirrorsAt(w.(clock := now), r, p) { assert MirrorsAt(w, r, p); SameContent(w, now, r, p); }
  }

  lemma SameContent(w: World, now: Time, r: Tree, p: Path)
    ensures ContentMirrors(w.(clock := now).cache, r, p) == ContentMirrors(w.cache, r, p)
  {
  }

  /** In every single-writer run the cache stays a mirror of the remote. */
  lemma {:induction false} MirrorsRun(w: World, ops: seq<Timed>, trees: seq<Tree>, w': World)
    requires |trees| > 0 && Mirrors(w, trees[0]) && SingleWriter(w, ops, trees, w')
    ensures Mirrors(w', trees[|trees| - 1])
    decreases |ops|
  {
    if ops != [] {
      hide Next, Mirrors, Tidy, Answers;
      var w0 := w.(clock := ops[0].now);
      LaterMirrors(w, ops[0].now, trees[0]);
      MirrorsStep(w0, ops[0].op, trees[0], trees[1]);
      MirrorsRun(Tick(w, ops[0].op, ops[0].now), ops[1..], trees[1..], w');
    }
  }

  /** A mount on an empty cache directory mirrors every remote. */
  lemma EmptyMirrors(config: Config, cs: Positive, r: Tree)
    requires TreeOk(r)
    ensures Mirrors(Mount(config, CM.Cache(cs, I.EMPTY, I.EMPTY, map[])), r)
  {
  }

  // ---- Reads -----------------------------------------------------------------

  /** A successful read from honest answers is a read of the file cut off at the size it went by, current or not. */
  lemma ReadIsClipped(c: CM.Cache, p: Path, attrs: FileAttributes, offset: U64, size: U32, script: CM.Script, r: Tree)
    requires CM.CacheOk(c) && TreeOk(r) && ContentMirrors(c, r, p) && p in r && r[p].FileNode?
    requires CM.AllHonest(r[p].bytes, c.Read(p, attrs, offset, size, script).events)
    requires c.Read(p, attrs, offset, size, script).outcome.Ok?
    ensures c.Read(p, attrs, offset, size, script).outcome.value == Slice(Clip(r[p].bytes, attrs.size), offset, size)
  {
    hide CM.Cache.Read, CM.CacheOk, ChunksTrue, CM.AllHonest, Slice;
    if VersionOf(attrs) == r[p].version {
      ReadExact(c, p, attrs, offset, size, script, r[p].bytes);
      assert Clip(r[p].bytes, attrs.size) == r[p].bytes;
    } else {
      StaleMatchesNothing(c, p, attrs, r);
      ReadOfOther(c, p, attrs, offset, size, script, r[p].bytes);
    }
  }

  /** A read that succeeded although every call failed found its chunks cached under its own version. */
  lemma NeededIsCached(c: CM.Cache, p: Path, attrs: FileAttributes, offset: U64, size: U32, script: CM.Script)
    requires size > 0 && offset < attrs.size && AllFailed(c.Read(p, attrs, offset, size, script).events)
    requires c.Read(p, attrs, offset, size, script).outcome.Ok?
    ensures I.Content(c.index, p).Some? && I.Content(c.index, p).value.version == VersionOf(attrs)
  {
    ReadOnlyTouches(c, p, attrs, offset, size, script);
    ReadMinimal(c, p, attrs, offset, size, script);
    hide CM.Cache.Read;
    var cs, end := c.chunkSize, ReadEnd(offset, size, attrs.size);
    InRange(offset, end, cs, LastChunk(end, cs));
    assert Needs(c, attrs, offset, size, LastChunk(end, cs));
  }

  /**
   A caching read returns exactly the remote's bytes, if and only if it did not fall back to a cached size that is less
   than what the file has of the range. In any case it returns what the file has up to the size it went by.
   */
  lemma CachingReadExact(w: World, op: Op, r: Tree, r': Tree)
    requires Mirrors(w, r) && op.OpRead? && Caching(w) && op.handle in w.session.handles && Unmoved(w, op.handle)
    requires Served(w, op, r, r')
    requires var p := w.session.handles[op.handle].path; p in r && r[p].FileNode?
    requires Read(w, op.handle, op.offset, op.size, w.clock, op.attrs, op.direct, op.script).1.Ok?
    ensures var p := w.session.handles[op.handle].path;
      var value := Read(w, op.handle, op.offset, op.size, w.clock, op.attrs, op.direct, op.script).1.value;
      && (FellBack(w, p, op) ==> w.cache.Attrs(p).Some?)
      && value == Slice(if FellBack(w, p, op) then Clip(r[p].bytes, w.cache.Attrs(p).value.size) else r[p].bytes,
                        op.offset, op.size)
      && value <= Slice(r[p].bytes, op.offset, op.size)
      && (value == Slice(r[p].bytes, op.offset, op.size) <==>
            !(&& FellBack(w, p, op) && op.size > 0 && op.offset < |r[p].bytes|
              && w.cache.Attrs(p).value.size < Min(op.offset + op.size, |r[p].bytes|)))
  {
    var file := w.session.handles[op.handle];
    var p := file.path;
    var (w1, meta) := Getattr(w, file.node, w.clock, op.attrs);
    RevalidatedRead(w, op, r, r');
    GetattrOutcome(w, file.node, op.attrs);
    var attrs := meta.value.attributes;
    assert MirrorsAt(w1, r, p);
    assert CM.CacheOk(w1.cache);
    var s := w1.cache.Read(p, attrs, op.offset, op.size, op.script);
    assert Read(w, op.handle, op.offset, op.size, w.clock, op.attrs, op.direct, op.script).1 == s.outcome;
    hide Getattr, CM.Cache.Read, Mirrors, MirrorsAt, CM.CacheOk, Durable, ContentMirrors, CM.AllHonest, Answers, Next,
      Served, CM.Cache.Attrs, Live, Read, Slice;
    ReadIsClipped(w1.cache, p, attrs, op.offset, op.size, op.script, r);
    ClippedSlice(r[p].bytes, attrs.size, op.offset, op.size);
    assert !FellBack(w, p, op) ==> Clip(r[p].bytes, attrs.size) == r[p].bytes;
  }

  /** What a caching read succeeds on exists on the remote; on a directory it reads nothing. */
  lemma CachingReadExists(w: World, op: Op, r: Tree, r': Tree)
    requires Mirrors(w, r) && op.OpRead? && Caching(w) && op.handle in w.session.handles && Unmoved(w, op.handle)
    requires Served(w, op, r, r')
    requires Read(w, op.handle, op.offset, op.size, w.clock, op.attrs, op.direct, op.script).1.Ok?
    ensures var p := w.session.handles[op.handle].path;
      && p in r
      && (r[p].DirNode? ==>
            Read(w, op.handle, op.offset, op.size, w.clock, op.attrs, op.direct, op.script).1.value == [])
  {
    var file := w.session.handles[op.handle];
    var (w1, meta) := Getattr(w, file.node, w.clock, op.attrs);
    RevalidatedRead(w, op, r, r');
    var attrs := meta.value.attributes;
    assert MirrorsAt(w1, r, file.path);
    var s := w1.cache.Read(file.path, attrs, op.offset, op.size, op.script);
    assert Read(w, op.handle, op.offset, op.size, w.clock, op.attrs, op.direct, op.script).1 == s.outcome by {
      hide Getattr, CM.Cache.Read;
    }
    if r[file.path].DirNode? { NothingOfDirectory(w1.cache, file.path, attrs, op.offset, op.size, op.script, r); }
  }

  /** Nothing is cached of a directory and no read of it succeeds, so only empty ranges do. */
  lemma NothingOfDirectory(c: CM.Cache, p: Path, attrs: FileAttributes, offset: U64, size: U32, script: CM.Script,
                           r: Tree)
    requires ContentMirrors(c, r, p) && p in r && r[p].DirNode?
    requires AllFailed(c.Read(p, attrs, offset, size, script).events)
    requires c.Read(p, attrs, offset, size, script).outcome.Ok?
    ensures c.Read(p, attrs, offset, size, script).outcome.value == []
  {
    assert I.Content(c.index, p) == None;
    RangeWasCached(c, p, attrs, offset, size, script);
    hide CM.Cache.Hydrate, CM.Cache.ReadRange;
  }

  lemma RangeWasCached(c: CM.Cache, p: Path, attrs: FileAttributes, offset: U64, size: U32, script: CM.Script)
    requires AllFailed(c.Read(p, attrs, offset, size, script).events)
    requires c.Read(p, attrs, offset, size, script).outcome.Ok?
    ensures I.Content(c.index, p) == None ==> size == 0 || offset >= attrs.size
  {
    if size > 0 && offset < attrs.size { NeededIsCached(c, p, attrs, offset, size, script); }
  }

  /** Offline reads of what was hydrated are exact too. */
  lemma OfflineReadExact(c: CM.Cache, p: Path, offset: U64, size: U32, r: Tree)
    requires TreeOk(r) && ContentMirrors(c, r, p) && c.ReadCached(p, offset, size).Ok?
    ensures p in r && r[p].FileNode? && c.ReadCached(p, offset, size).value == Slice(r[p].bytes, offset, size)
  {
    hide CM.Cache.Collect, ChunksTrue;
    var content := I.Content(c.index, p).value;
    if size > 0 && offset < content.version.size {
      var cs, end := c.chunkSize, ReadEnd(offset, size, content.version.size);
      var last := LastChunk(end, cs);
      InRange(offset, end, cs, last);
      CollectExact(c, content, r[p].bytes, offset, end, last + 1);
      NextChunk(last, cs);
      Division(end - 1, cs);
    }
  }

  /** A read in `Remote` mode: what one honest answer can be. */
  lemma PassThroughRead(w: World, op: Op, r: Tree, r': Tree)
    requires op.OpRead? && w.config.mode.Remote? && op.handle in w.session.handles && Served(w, op, r, r')
    requires op.direct.Ok?
    ensures var p := w.session.handles[op.handle].path;
      && p in r && r[p].FileNode?
      && op.direct.value <= Slice(r[p].bytes, op.offset, op.size)
      && (op.direct.value == [] ==> Slice(r[p].bytes, op.offset, op.size) == [])
  {
    var p := w.session.handles[op.handle].path;
    OneCall(w, Next(w, op, w.clock), ContentEvent(CM.ReadEvent(p, op.offset, op.size, op.direct)), r, r');
  }

  /**
   The cache refines pass-through. Take any run from an empty cache directory against a remote that only this mount
   changes: restarts, failed calls, short reads and writes that leave the version as it was included. A read that
   succeeds at its end, through a handle whose file was not renamed, is of a path that exists, and of a file it returns
   exactly the slice that reading the remote itself returns (all of it, where a remote answer may be short), unless the
   remote could not be reached to revalidate and the cached size ends inside the range or before it, where the file does
   not. The last read itself may fetch under outdated attributes.
   */
  lemma ReadsRefinePassThrough(config: Config, cs: Positive, ops: seq<Timed>, trees: seq<Tree>, w: World,
                               now: Time, op: Op, r': Tree)
    requires |trees| > 0 && TreeOk(trees[0])
    requires SingleWriter(Mount(config, CM.Cache(cs, I.EMPTY, I.EMPTY, map[])), ops, trees, w) && w.clock <= now
    requires op.OpRead? && op.handle in w.session.handles && Unmoved(w, op.handle)
    requires Served(w.(clock := now), op, trees[|trees| - 1], r')
    requires Read(w.(clock := now), op.handle, op.offset, op.size, now, op.attrs, op.direct, op.script).1.Ok?
    ensures var p, r, w0 := w.session.handles[op.handle].path, trees[|trees| - 1], w.(clock := now);
      var value := Read(w0, op.handle, op.offset, op.size, now, op.attrs, op.direct, op.script).1.value;
      && p in r
      && match r[p]
         case DirNode => (w.config.mode.OnDemand? || w.config.mode.Pinned?) && value == []
         case FileNode(_, bytes) =>
           var slice := Slice(bytes, op.offset, op.size);
           match w.config.mode
           case Remote => value <= slice && (value == [] ==> slice == [])
           case Offline => value == slice
           case _ =>
             value == slice <==>
               !(&& FellBack(w0, p, op) && op.size > 0 && op.offset < |bytes| && w.cache.Attrs(p).Some?
                 && w.cache.Attrs(p).value.size < Min(op.offset + op.size, |bytes|))
  {
    var mount, r, w0 := Mount(config, CM.Cache(cs, I.EMPTY, I.EMPTY, map[])), trees[|trees| - 1], w.(clock := now);
    var p := w.session.handles[op.handle].path;
    EmptyMirrors(config, cs, trees[0]);
    MirrorsRun(mount, ops, trees, w);
    LaterMirrors(w, now, r);
    hide SingleWriter, Mirrors, Served, Slice, Getattr, CM.Cache.Read, CM.Cache.ReadCached;
    match w.config.mode
    case Remote => PassThroughRead(w0, op, r, r');
    case Offline =>
      assert MirrorsAt(w0, r, p);
      OfflineReadExact(w.cache, p, op.offset, op.size, r);
    case _ =>
      CachingReadExists(w0, op, r, r');
      if r[p].FileNode? { CachingReadExact(w0, op, r, r'); }
  }
}
