/**
 In sequential use every chunk download fills a free slot: no read ever replaces or deletes what is cached, which is
 what crash safety asks of fetches.
 */
module VfsSlots {
  import opened Base
  import opened Chunks
  import opened RemotePaths
  import I = CacheIndex
  import CM = CacheModel
  import CacheReads
  import opened VfsModel
  import opened VfsViews
  import opened VfsDurable
  import R = VfsRefinement

  /** Every download that the hydration loop starts, from chunk `i` on, starts on a free slot. */
  ghost predicate FetchesFree(c: CM.Cache, p: Path, attrs: FileAttributes, i: nat, last: nat, script: CM.Script)
    requires i <= last ==> last * c.chunkSize <= attrs.size
    decreases last + 1 - i
  {
    if i > last then true
    else if c.Has(p, VersionOf(attrs), i) then FetchesFree(c, p, attrs, i + 1, last, script)
    else
      MulMonotone(i, last, c.chunkSize);
      var f := c.FetchChunk(p, attrs, i, script);
      && I.FreeSlot(c.index, c.chunkSize, p, VersionOf(attrs), i)
      && (f.outcome.Ok? ==> FetchesFree(f.cache, p, attrs, i + 1, last, f.rest))
  }

  /** The downloads of a read. */
  ghost predicate ReadFetchesFree(c: CM.Cache, p: Path, attrs: FileAttributes, offset: U64, size: U32,
                                  script: CM.Script) {
    size > 0 && offset < attrs.size ==>
      var cs, end := c.chunkSize, ReadEnd(offset, size, attrs.size);
      InRange(offset, end, cs, LastChunk(end, cs));
      FetchesFree(c, p, attrs, FirstChunk(offset, cs), LastChunk(end, cs), script)
  }

  // ---- Content and attributes agree --------------------------------------------

  /** Content is of the chunk size in use and of the version that the entry's attributes have. */
  ghost predicate InStep(c: CM.Cache, p: Path) {
    var content := I.Content(c.index, p);
    content.Some? ==>
      content.value.chunkSize == c.chunkSize && content.value.version == VersionOf(c.index.entries[p].attrs)
  }

  ghost predicate AllInStep(c: CM.Cache) { forall p :: InStep(c, p) }

  lemma PutAttrsInStep(c: CM.Cache, p: Path, attrs: FileAttributes)
    requires AllInStep(c)
    ensures AllInStep(c.PutAttrs(p, attrs))
  {
    forall q ensures InStep(c.PutAttrs(p, attrs), q) { assert InStep(c, q); }
  }

  lemma DropInStep(c: CM.Cache, p: Path)
    requires AllInStep(c)
    ensures AllInStep(c.Remove(p)) && AllInStep(c.InvalidateContent(p)) && AllInStep(c.InvalidateChildren(p))
  {
    forall q
      ensures InStep(c.Remove(p), q) && InStep(c.InvalidateContent(p), q) && InStep(c.InvalidateChildren(p), q)
    {
      assert InStep(c, q);
    }
  }

  lemma {:induction false} StoreChildrenInStep(c: CM.Cache, ix: I.Index, dir: Path, children: Listing)
    requires AllInStep(c.(index := ix))
    ensures AllInStep(c.(index := I.StoreChildren(ix, dir, children).0))
    decreases |children|
  {
    if children != [] {
      hide Join;
      var n := |children| - 1;
      StoreChildrenInStep(c, ix, dir, children[..n]);
      var ix1 := I.StoreChildren(ix, dir, children[..n]).0;
      var c', c1 := c.(index := I.StoreChildren(ix, dir, children).0), c.(index := ix1);
      forall q ensures InStep(c', q) { assert InStep(c1, q); }
    }
  }

  lemma RecordListingInStep(c: CM.Cache, dir: Path, children: Listing)
    requires AllInStep(c)
    ensures AllInStep(c.RecordListing(dir, children))
  {
    assert c.(index := c.index) == c;
    StoreChildrenInStep(c, c.index, dir, children);
    var c1, c' := c.(index := I.StoreChildren(c.index, dir, children).0), c.RecordListing(dir, children);
    hide I.StoreChildren;
    forall q ensures InStep(c', q) { assert InStep(c1, q); }
  }

  lemma RenameInStep(c: CM.Cache, from: Path, to: Path)
    requires AllInStep(c)
    ensures AllInStep(c.Rename(from, to))
  {
    forall q ensures InStep(c.Rename(from, to), q) {
      assert InStep(c, q) && InStep(c, from);
    }
  }

  lemma ReopenInStep(c: CM.Cache, cs: nat)
    requires AllInStep(c) && Durable(c) && Max(cs, 1) == c.chunkSize
    ensures AllInStep(c.Reopen(cs))
  {
    hide CM.CacheOk, NonEmpty;
    forall q ensures InStep(c.Reopen(cs), q) { assert InStep(c, q); }
  }

  // ---- Reads -----------------------------------------------------------------

  /** A chunk that is not cached under the version of the entry's attributes has a free slot. */
  lemma MissingIsFree(c: CM.Cache, p: Path, attrs: FileAttributes, chunk: nat)
    requires AllInStep(c) && c.Attrs(p) == Some(attrs) && !c.Has(p, VersionOf(attrs), chunk)
    ensures I.FreeSlot(c.index, c.chunkSize, p, VersionOf(attrs), chunk)
  {
    assert InStep(c, p);
  }

  /** Filling a free slot gives nothing up. */
  lemma FreeCommitKeepsAll(c: CM.Cache, p: Path, attrs: FileAttributes, chunk: nat, obj: ObjectId)
    requires I.FreeSlot(c.index, c.chunkSize, p, VersionOf(attrs), chunk)
    ensures I.Commit(c.index, p, attrs, c.chunkSize, chunk, obj).1 == {}
  {
    I.CommitReplaces(c.index, p, attrs, c.chunkSize, chunk, obj);
  }

  lemma FetchInStep(c: CM.Cache, p: Path, attrs: FileAttributes, chunk: nat, script: CM.Script)
    requires AllInStep(c) && c.Attrs(p) == Some(attrs) && chunk * c.chunkSize <= attrs.size
    requires I.FreeSlot(c.index, c.chunkSize, p, VersionOf(attrs), chunk)
    ensures var c' := c.FetchChunk(p, attrs, chunk, script).cache;
      AllInStep(c') && c'.Attrs(p) == Some(attrs) && c'.chunkSize == c.chunkSize && c.disk.Keys <= c'.disk.Keys
  {
    hide CM.Download;
    var c' := c.FetchChunk(p, attrs, chunk, script).cache;
    var bumped := c.(index := c.index.(nextObject := c.index.nextObject + 1));
    FreeCommitKeepsAll(bumped, p, attrs, chunk, c.index.nextObject);
    forall q ensures InStep(c', q) { assert InStep(c, q); }
  }

  lemma {:induction false} HydrateInStep(c: CM.Cache, p: Path, attrs: FileAttributes, i: nat, last: nat,
                                         script: CM.Script)
    requires AllInStep(c) && c.Attrs(p) == Some(attrs) && (i <= last ==> last * c.chunkSize <= attrs.size)
    ensures AllInStep(c.Hydrate(p, attrs, i, last, script).cache) && FetchesFree(c, p, attrs, i, last, script)
    ensures c.disk.Keys <= c.Hydrate(p, attrs, i, last, script).cache.disk.Keys
    decreases last + 1 - i
  {
    hide AllInStep, CM.Cache.FetchChunk, CM.Cache.Attrs, I.FreeSlot;
    if i > last {
    } else if c.Has(p, VersionOf(attrs), i) {
      HydrateInStep(c, p, attrs, i + 1, last, script);
    } else {
      CacheReads.HydrateFetches(c, p, attrs, i, last, script);
      MissingIsFree(c, p, attrs, i);
      FetchInStep(c, p, attrs, i, script);
      var f := c.FetchChunk(p, attrs, i, script);
      if f.outcome.Ok? { HydrateInStep(f.cache, p, attrs, i + 1, last, f.rest); }
    }
  }

  lemma ReadInStep(c: CM.Cache, p: Path, attrs: FileAttributes, offset: U64, size: U32, script: CM.Script)
    requires AllInStep(c) && c.Attrs(p) == Some(attrs)
    ensures AllInStep(c.Read(p, attrs, offset, size, script).cache)
    ensures ReadFetchesFree(c, p, attrs, offset, size, script)
    ensures c.disk.Keys <= c.Read(p, attrs, offset, size, script).cache.disk.Keys
  {
    hide AllInStep, CM.Cache.Hydrate, FetchesFree, CM.Cache.Attrs;
    if size > 0 && offset < attrs.size {
      var cs, end := c.chunkSize, ReadEnd(offset, size, attrs.size);
      InRange(offset, end, cs, LastChunk(end, cs));
      HydrateInStep(c, p, attrs, FirstChunk(offset, cs), LastChunk(end, cs), script);
    }
  }

  // ---- Every operation -------------------------------------------------------

  /** The operation keeps the chunk size, and reads through a handle whose node has not moved. */
  ghost predicate Steady(w: World, op: Op) {
    match op
    case OpRestart(_, _, _, chunkSize) => Max(chunkSize, 1) == w.cache.chunkSize
    case OpRead(handle, _, _, _, _, _) => R.Caching(w) ==> R.Unmoved(w, handle)
    case _ => true
  }

  lemma RevalidateInStep(w: World, w': World, p: Path, key: Option<(NodeId, string)>, reply: Result<FileAttributes>)
    requires AllInStep(w.cache) && Revalidates(w, w', p, key, reply)
    ensures AllInStep(w'.cache)
  {
    if reply.Ok? { PutAttrsInStep(w.cache, p, reply.value); }
    DropInStep(w.cache, p);
    hide AllInStep, CM.Cache.PutAttrs, CM.Cache.Remove;
  }

  lemma GetattrInStep(w: World, node: NodeId, reply: Result<FileAttributes>)
    requires AllInStep(w.cache)
    ensures AllInStep(Getattr(w, node, w.clock, reply).0.cache)
  {
    if node in w.session.nodeToPath {
      GetattrRevalidates(w, node, reply);
      hide AllInStep, Getattr;
      RevalidateInStep(w, Getattr(w, node, w.clock, reply).0, w.session.nodeToPath[node], None, reply);
    }
  }

  lemma QueryInStep(w: World, op: Op)
    requires AllInStep(w.cache) && (op.OpLookup? || op.OpGetattr? || op.OpReaddir?)
    ensures AllInStep(Next(w, op, w.clock).cache)
  {
    if op.OpLookup? {
      if ChildOf(w.session, op.parent, op.name).Ok? {
        LookupRevalidates(w, op);
        hide AllInStep, Next;
        var p := ChildOf(w.session, op.parent, op.name).value;
        RevalidateInStep(w, Next(w, op, w.clock), p, Some((op.parent, op.name)), op.attrs);
      }
    } else if op.OpGetattr? {
      GetattrInStep(w, op.node, op.attrs);
      hide AllInStep, Getattr;
    } else if op.node in w.session.nodeToPath {
      ReaddirEffect(w, op);
      hide AllInStep, Next, CM.Cache.RecordListing, StampAll, RealChildren;
      if op.listing.Ok? {
        RecordListingInStep(w.cache, w.session.nodeToPath[op.node], RealChildren(op.listing.value));
      }
    }
  }

  lemma FileInStep(w: World, op: Op)
    requires AllInStep(w.cache) && (op.OpOpen? || op.OpWrite? || op.OpRelease? || op.OpSetattr?)
    ensures AllInStep(Next(w, op, w.clock).cache)
  {
    if op.OpWrite? && op.handle in w.session.handles { DropInStep(w.cache, w.session.handles[op.handle].path); }
    if (op.OpOpen? || op.OpSetattr?) && op.node in w.session.nodeToPath {
      DropInStep(w.cache, w.session.nodeToPath[op.node]);
      if op.attrs.Ok? { PutAttrsInStep(w.cache, w.session.nodeToPath[op.node], op.attrs.value); }
    }
    hide AllInStep, CM.Cache.InvalidateContent, CM.Cache.PutAttrs;
  }

  lemma NameInStep(w: World, op: Op)
    requires AllInStep(w.cache) && (op.OpCreate? || op.OpMkdir? || op.OpUnlink? || op.OpRmdir? || op.OpRename?)
    ensures AllInStep(Next(w, op, w.clock).cache)
  {
    if Next(w, op, w.clock).log == w.log {
      QuietNames(w, op);
    } else if op.OpRename? {
      RenameEffect(w, op);
      var from, to := ChildOf(w.session, op.parent, op.name).value, ChildOf(w.session, op.newParent, op.newName).value;
      var a, b := w.session.nodeToPath[op.parent], w.session.nodeToPath[op.newParent];
      hide AllInStep, Next, ChildOf, CM.Cache.Rename, CM.Cache.InvalidateChildren;
      RenameInStep(w.cache, from, to);
      DropInStep(w.cache.Rename(from, to), a);
      DropInStep(w.cache.Rename(from, to).InvalidateChildren(a), b);
    } else {
      if op.OpCreate? || op.OpMkdir? { CreateEffect(w, op); } else { RemoveEffect(w, op); }
      var p, dir := ChildOf(w.session, op.parent, op.name).value, w.session.nodeToPath[op.parent];
      hide AllInStep, Next, ChildOf, CM.Cache.PutAttrs, CM.Cache.Remove, CM.Cache.InvalidateChildren;
      if (op.OpCreate? || op.OpMkdir?) && op.attrs.Ok? {
        PutAttrsInStep(w.cache, p, op.attrs.value);
        DropInStep(w.cache.PutAttrs(p, op.attrs.value), dir);
      }
      DropInStep(w.cache, p);
      DropInStep(w.cache.Remove(p), dir);
    }
  }

  lemma ReadOpInStep(w: World, op: Op)
    requires AllInStep(w.cache) && op.OpRead? && Steady(w, op)
    ensures AllInStep(Next(w, op, w.clock).cache)
  {
    if op.handle in w.session.handles && R.Caching(w) {
      var file := w.session.handles[op.handle];
      var (w1, meta) := Getattr(w, file.node, w.clock, op.attrs);
      GetattrInStep(w, file.node, op.attrs);
      if meta.Ok? {
        R.GetattrOutcome(w, file.node, op.attrs);
        hide AllInStep, Getattr, CM.Cache.Read, CM.Cache.Attrs;
        ReadInStep(w1.cache, file.path, meta.value.attributes, op.offset, op.size, op.script);
      }
    }
    hide AllInStep, Getattr, CM.Cache.Read, CM.Cache.ReadCached;
  }

  lemma InStepStep(w: World, op: Op)
    requires AllInStep(w.cache) && Durable(w.cache) && Steady(w, op)
    ensures AllInStep(Next(w, op, w.clock).cache)
  {
    hide AllInStep, Durable, Lookup, Getattr, Readdir, Open, Read, Write, Release, Create, Mkdir, Unlink, Rmdir, Rename,
      Setattr, R.Caching, R.Unmoved;
    match op
    case OpLookup(_, _, _) => QueryInStep(w, op);
    case OpGetattr(_, _) => QueryInStep(w, op);
    case OpReaddir(_, _) => QueryInStep(w, op);
    case OpRead(_, _, _, _, _, _) => ReadOpInStep(w, op);
    case OpCreate(_, _, _) => NameInStep(w, op);
    case OpMkdir(_, _, _) => NameInStep(w, op);
    case OpUnlink(_, _, _) => NameInStep(w, op);
    case OpRmdir(_, _, _) => NameInStep(w, op);
    case OpRename(_, _, _, _, _) => NameInStep(w, op);
    case OpRestart(_, _, _, chunkSize) => ReopenInStep(w.cache, chunkSize);
    case _ => FileInStep(w, op);
  }

  // ---- Whole runs ------------------------------------------------------------

  ghost predicate SteadyRun(w: World, ops: seq<Timed>)
    decreases |ops|
  {
    ops == [] || (Steady(w.(clock := ops[0].now), ops[0].op) && SteadyRun(Tick(w, ops[0].op, ops[0].now), ops[1..]))
  }

  lemma {:induction false} InStepRun(w: World, ops: seq<Timed>, w': World)
    requires AllInStep(w.cache) && Durable(w.cache) && Runs(w, ops, w') && SteadyRun(w, ops)
    ensures AllInStep(w'.cache) && Durable(w'.cache)
    decreases |ops|
  {
    if ops != [] {
      hide Next, AllInStep, Durable, Steady;
      InStepStep(w.(clock := ops[0].now), ops[0].op);
      DurableStep(w.(clock := ops[0].now), ops[0].op, ops[0].now);
      InStepRun(Tick(w, ops[0].op, ops[0].now), ops[1..], w');
    }
  }

  /**
   Slots in sequential use. After any run of a mount on an empty cache directory, whatever the remote answers, with the
   chunk size kept over restarts and reads through handles whose nodes have not moved, the next such read starts every
   chunk download on a free slot, which is what `Machine.Ready` asks of a single thread, and deletes no object: no
   commit ever deletes before it persists.
   */
  lemma FetchesStartFree(config: Config, cs: Positive, ops: seq<Timed>, w: World, now: Time, op: Op)
    requires Runs(Mount(config, CM.Cache(cs, I.EMPTY, I.EMPTY, map[])), ops, w)
    requires SteadyRun(Mount(config, CM.Cache(cs, I.EMPTY, I.EMPTY, map[])), ops)
    requires op.OpRead? && R.Caching(w) && op.handle in w.session.handles && R.Unmoved(w, op.handle)
    requires Getattr(w.(clock := now), w.session.handles[op.handle].node, now, op.attrs).1.Ok?
    ensures var file := w.session.handles[op.handle];
      var (w1, meta) := Getattr(w.(clock := now), file.node, now, op.attrs);
      && ReadFetchesFree(w1.cache, file.path, meta.value.attributes, op.offset, op.size, op.script)
      && w1.cache.disk.Keys <= Next(w.(clock := now), op, now).cache.disk.Keys
  {
    var mount := Mount(config, CM.Cache(cs, I.EMPTY, I.EMPTY, map[]));
    var w0, file := w.(clock := now), w.session.handles[op.handle];
    assert AllInStep(mount.cache) && Durable(mount.cache);
    InStepRun(mount, ops, w);
    hide AllInStep, Durable, Runs, SteadyRun;
    GetattrInStep(w0, file.node, op.attrs);
    R.GetattrOutcome(w0, file.node, op.attrs);
    hide Getattr, ReadFetchesFree, CM.Cache.Attrs, CM.Cache.Read;
    var (w1, meta) := Getattr(w0, file.node, now, op.attrs);
    ReadInStep(w1.cache, file.path, meta.value.attributes, op.offset, op.size, op.script);
  }
}
