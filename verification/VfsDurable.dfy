/** In sequential use the cache directory always holds what memory holds. */
module VfsDurable {
  import opened Base
  import opened Chunks
  import I = CacheIndex
  import CM = CacheModel
  import CacheReads
  import opened VfsModel

  /** Content is never recorded without an object. */
  ghost predicate NonEmpty(ix: I.Index) {
    forall p :: I.Content(ix, p).Some? ==> I.Objects(I.Content(ix, p).value) != {}
  }

  /** Every referenced object is there, and a restart would find the same entries and listings. */
  ghost predicate Durable(c: CM.Cache) {
    && CM.CacheOk(c)
    && c.saved.entries == c.index.entries && c.saved.listings == c.index.listings
    && NonEmpty(c.index)
  }

  // ---- Cache operations ------------------------------------------------------

  lemma ShedsNonEmpty(ix: I.Index, ix': I.Index, orphans: set<ObjectId>)
    requires I.Sheds(ix, ix', orphans) && NonEmpty(ix)
    ensures NonEmpty(ix')
  {
  }

  lemma PutAttrsDurable(c: CM.Cache, p: Path, attrs: FileAttributes)
    requires Durable(c)
    ensures Durable(c.PutAttrs(p, attrs))
  {
    hide CM.CacheOk;
    CM.PutAttrsOk(c, p, attrs);
    I.StoreAttrsSheds(c.index, p, attrs);
    var r := I.StoreAttrs(c.index, p, attrs);
    ShedsNonEmpty(c.index, r.0, r.1);
  }

  lemma RecordListingDurable(c: CM.Cache, dir: Path, children: Listing)
    requires Durable(c)
    ensures Durable(c.RecordListing(dir, children))
  {
    hide CM.CacheOk, I.RecordListing;
    CM.RecordListingOk(c, dir, children);
    I.RecordListingSheds(c.index, dir, children);
    var r := I.RecordListing(c.index, dir, children);
    ShedsNonEmpty(c.index, r.0, r.1);
  }

  lemma InvalidateChildrenDurable(c: CM.Cache, p: Path)
    requires Durable(c)
    ensures Durable(c.InvalidateChildren(p))
  {
    hide CM.CacheOk;
    CM.InvalidateChildrenOk(c, p);
    assert forall q :: I.Content(I.InvalidateChildren(c.index, p), q) == I.Content(c.index, q);
  }

  lemma RemoveDurable(c: CM.Cache, p: Path)
    requires Durable(c)
    ensures Durable(c.Remove(p))
  {
    hide CM.CacheOk;
    CM.RemoveOk(c, p);
    I.RemoveSheds(c.index, p);
    var r := I.Remove(c.index, p);
    ShedsNonEmpty(c.index, r.0, r.1);
  }

  lemma InvalidateContentDurable(c: CM.Cache, p: Path)
    requires Durable(c)
    ensures Durable(c.InvalidateContent(p))
  {
    hide CM.CacheOk;
    CM.InvalidateContentOk(c, p);
    I.InvalidateContentSheds(c.index, p);
    var r := I.InvalidateContent(c.index, p);
    ShedsNonEmpty(c.index, r.0, r.1);
    if r.1 == {} { assert r.0.entries == c.index.entries; }
  }

  lemma RenameDurable(c: CM.Cache, from: Path, to: Path)
    requires Durable(c)
    ensures Durable(c.Rename(from, to))
  {
    hide CM.CacheOk;
    CM.RenameOk(c, from, to);
    var moved := I.Moved(c.index, from, to);
    assert forall p :: I.Content(moved, p).Some? ==>
      I.Content(moved, p) == I.Content(c.index, if p == to && from in c.index.entries then from else p);
    var r := I.Evict(moved, I.Descendants(moved, from));
    I.EvictSheds(moved, I.Descendants(moved, from));
    hide I.Moved, I.Evict, I.Descendants;
    ShedsNonEmpty(moved, r.0, r.1);
  }

  lemma ReopenDurable(c: CM.Cache, cs: nat)
    requires Durable(c)
    ensures Durable(c.Reopen(cs))
  {
    assert forall p :: I.Content(c.saved, p) == I.Content(c.index, p);
  }

  lemma RecordDurable(c: CM.Cache, p: Path, attrs: FileAttributes, chunk: nat, data: Bytes)
    requires Durable(c)
    ensures Durable(c.Record(p, attrs, chunk, data))
  {
    hide CM.CacheOk;
    CM.RecordOk(c, p, attrs, chunk, data);
    var c' := c.Record(p, attrs, chunk, data);
    forall q | I.Content(c'.index, q).Some?
      ensures I.Objects(I.Content(c'.index, q).value) != {}
    {
      var content := I.Content(c'.index, q).value;
      if q == p {
        assert content.chunks[chunk] in I.Objects(content);
      } else {
        assert I.Content(c'.index, q) == I.Content(c.index, q);
      }
    }
  }

  lemma FetchDurable(c: CM.Cache, p: Path, attrs: FileAttributes, chunk: nat, script: CM.Script)
    requires Durable(c) && chunk * c.chunkSize <= attrs.size
    ensures Durable(c.FetchChunk(p, attrs, chunk, script).cache)
  {
    CM.FetchChunkOk(c, p, attrs, chunk, script);
    hide CM.CacheOk, CM.Download, CM.Cache.Record;
    var d := CM.Download(p, chunk * c.chunkSize, ChunkLength(attrs.size, c.chunkSize, chunk), [], script);
    var bumped := c.index.(nextObject := c.index.nextObject + 1);
    assert forall q :: I.Content(bumped, q) == I.Content(c.index, q);
    if d.outcome.Ok? { RecordDurable(c, p, attrs, chunk, d.outcome.value); }
  }

  lemma {:induction false} HydrateDurable(c: CM.Cache, p: Path, attrs: FileAttributes, i: nat, last: nat,
                                          script: CM.Script)
    requires Durable(c) && (i <= last ==> last * c.chunkSize <= attrs.size)
    ensures Durable(c.Hydrate(p, attrs, i, last, script).cache)
    decreases last + 1 - i
  {
    hide Durable, CM.Cache.FetchChunk;
    if i > last {
    } else if c.Has(p, VersionOf(attrs), i) {
      HydrateDurable(c, p, attrs, i + 1, last, script);
    } else {
      CacheReads.HydrateFetches(c, p, attrs, i, last, script);
      FetchDurable(c, p, attrs, i, script);
      var f := c.FetchChunk(p, attrs, i, script);
      if f.outcome.Ok? { HydrateDurable(f.cache, p, attrs, i + 1, last, f.rest); }
    }
  }

  lemma ReadDurable(c: CM.Cache, p: Path, attrs: FileAttributes, offset: U64, size: U32, script: CM.Script)
    requires Durable(c)
    ensures Durable(c.Read(p, attrs, offset, size, script).cache)
  {
    hide Durable, CM.Cache.Hydrate;
    if size > 0 && offset < attrs.size {
      var cs, end := c.chunkSize, ReadEnd(offset, size, attrs.size);
      InRange(offset, end, cs, LastChunk(end, cs));
      HydrateDurable(c, p, attrs, FirstChunk(offset, cs), LastChunk(end, cs), script);
    }
  }

  // ---- Every operation -------------------------------------------------------

  lemma LookupDurable(w: World, op: Op, now: Time)
    requires Durable(w.cache) && op.OpLookup?
    ensures Durable(Next(w, op, now).cache)
  {
    var child := ChildOf(w.session, op.parent, op.name);
    if child.Ok? {
      if op.attrs.Ok? { PutAttrsDurable(w.cache, child.value, op.attrs.value); }
      RemoveDurable(w.cache, child.value);
    }
    hide Durable, ChildOf, Intern, CM.Cache.PutAttrs, CM.Cache.Remove, CM.Cache.Attrs;
  }

  lemma GetattrDurable(w: World, node: NodeId, now: Time, reply: Result<FileAttributes>)
    requires Durable(w.cache)
    ensures Durable(Getattr(w, node, now, reply).0.cache)
  {
    if node in w.session.nodeToPath {
      if reply.Ok? { PutAttrsDurable(w.cache, w.session.nodeToPath[node], reply.value); }
      RemoveDurable(w.cache, w.session.nodeToPath[node]);
    }
    hide Durable, CM.Cache.PutAttrs, CM.Cache.Remove, CM.Cache.Attrs;
  }

  lemma ReaddirDurable(w: World, op: Op, now: Time)
    requires Durable(w.cache) && op.OpReaddir?
    ensures Durable(Next(w, op, now).cache)
  {
    if op.node in w.session.nodeToPath && op.listing.Ok? {
      RecordListingDurable(w.cache, w.session.nodeToPath[op.node], RealChildren(op.listing.value));
    }
    hide Durable, InternAll, CachedChildren, StampAll, RealChildren, CM.Cache.RecordListing;
  }

  lemma FileDurable(w: World, op: Op, now: Time)
    requires Durable(w.cache) && (op.OpOpen? || op.OpWrite? || op.OpRelease? || op.OpSetattr?)
    ensures Durable(Next(w, op, now).cache)
  {
    if op.OpWrite? && op.handle in w.session.handles {
      InvalidateContentDurable(w.cache, w.session.handles[op.handle].path);
    }
    if (op.OpOpen? || op.OpSetattr?) && op.node in w.session.nodeToPath {
      InvalidateContentDurable(w.cache, w.session.nodeToPath[op.node]);
      if op.attrs.Ok? { PutAttrsDurable(w.cache, w.session.nodeToPath[op.node], op.attrs.value); }
    }
    hide Durable, CM.Cache.InvalidateContent, CM.Cache.PutAttrs;
  }

  lemma ReadOpDurable(w: World, op: Op, now: Time)
    requires Durable(w.cache) && op.OpRead?
    ensures Durable(Next(w, op, now).cache)
  {
    hide Durable, Getattr, CM.Cache.Read, CM.Cache.ReadCached, ContentEvents;
    if op.handle in w.session.handles {
      var file := w.session.handles[op.handle];
      GetattrDurable(w, file.node, now, op.attrs);
      var (w1, meta) := Getattr(w, file.node, now, op.attrs);
      if meta.Ok? { ReadDurable(w1.cache, file.path, meta.value.attributes, op.offset, op.size, op.script); }
    }
  }

  lemma NameDurable(w: World, op: Op, now: Time)
    requires Durable(w.cache) && (op.OpCreate? || op.OpMkdir? || op.OpUnlink? || op.OpRmdir?)
    ensures Durable(Next(w, op, now).cache)
  {
    var child := ChildOf(w.session, op.parent, op.name);
    if child.Ok? {
      var dir := w.session.nodeToPath[op.parent];
      if (op.OpCreate? || op.OpMkdir?) && op.attrs.Ok? {
        PutAttrsDurable(w.cache, child.value, op.attrs.value);
        InvalidateChildrenDurable(w.cache.PutAttrs(child.value, op.attrs.value), dir);
      }
      RemoveDurable(w.cache, child.value);
      InvalidateChildrenDurable(w.cache.Remove(child.value), dir);
    }
    hide Durable, ChildOf, Intern, CM.Cache.PutAttrs, CM.Cache.Remove, CM.Cache.InvalidateChildren;
  }

  lemma RenameOpDurable(w: World, op: Op, now: Time)
    requires Durable(w.cache) && op.OpRename?
    ensures Durable(Next(w, op, now).cache)
  {
    var from, to := ChildOf(w.session, op.parent, op.name), ChildOf(w.session, op.newParent, op.newName);
    if from.Ok? && to.Ok? {
      RenameDurable(w.cache, from.value, to.value);
      var c := w.cache.Rename(from.value, to.value);
      InvalidateChildrenDurable(c, w.session.nodeToPath[op.parent]);
      InvalidateChildrenDurable(c.InvalidateChildren(w.session.nodeToPath[op.parent]),
                                w.session.nodeToPath[op.newParent]);
    }
    hide Durable, ChildOf, RenamePath, CM.Cache.Rename, CM.Cache.InvalidateChildren;
  }

  /** Every operation leaves the directory in step with memory. */
  lemma DurableStep(w: World, op: Op, now: Time)
    requires Durable(w.cache)
    ensures Durable(Next(w, op, now).cache)
  {
    hide Durable, Lookup, Getattr, Readdir, Open, Read, Write, Release, Create, Mkdir, Unlink, Rmdir, Rename, Setattr;
    match op
    case OpLookup(_, _, _) => LookupDurable(w, op, now);
    case OpGetattr(node, attrs) => GetattrDurable(w, node, now, attrs);
    case OpReaddir(_, _) => ReaddirDurable(w, op, now);
    case OpRead(_, _, _, _, _, _) => ReadOpDurable(w, op, now);
    case OpRename(_, _, _, _, _) => RenameOpDurable(w, op, now);
    case OpCreate(_, _, _) => NameDurable(w, op, now);
    case OpMkdir(_, _, _) => NameDurable(w, op, now);
    case OpUnlink(_, _, _) => NameDurable(w, op, now);
    case OpRmdir(_, _, _) => NameDurable(w, op, now);
    case OpRestart(_, _, _, chunkSize) => ReopenDurable(w.cache, chunkSize);
    case _ => FileDurable(w, op, now);
  }

  lemma {:induction false} DurableRun(w: World, ops: seq<Timed>, w': World)
    requires Durable(w.cache) && Runs(w, ops, w')
    ensures Durable(w'.cache)
    decreases |ops|
  {
    if ops != [] {
      hide Next, Durable;
      DurableStep(w.(clock := ops[0].now), ops[0].op, ops[0].now);
      DurableRun(Tick(w, ops[0].op, ops[0].now), ops[1..], w');
    }
  }
}
