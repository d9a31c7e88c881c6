/** Offline mounts: runs of `CacheVfs::new_offline`, whose remote answers every call with `Unavailable`. */
module VfsOffline {
  import opened Base
  import opened Chunks
  import opened RemotePaths
  import I = CacheIndex
  import CM = CacheModel
  import opened CacheReads
  import opened VfsModel
  import opened VfsDurable

  /** Every answer in the operation is the one `DisconnectedRemote` gives. */
  ghost predicate Disconnected(op: Op) {
    match op
    case OpLookup(_, _, attrs) => attrs == Err(Unavailable)
    case OpGetattr(_, attrs) => attrs == Err(Unavailable)
    case OpReaddir(_, listing) => listing == Err(Unavailable)
    case OpOpen(_, _, attrs) => attrs == Err(Unavailable)
    case OpRead(_, _, _, attrs, direct, script) =>
      attrs == Err(Unavailable) && direct == Err(Unavailable) && forall r :: r in script ==> r == Err(Unavailable)
    case OpWrite(_, _, _, written) => written == Err(Unavailable)
    case OpCreate(_, _, attrs) => attrs == Err(Unavailable)
    case OpMkdir(_, _, attrs) => attrs == Err(Unavailable)
    case OpUnlink(_, _, done) => done == Err(Unavailable)
    case OpRmdir(_, _, done) => done == Err(Unavailable)
    case OpRename(_, _, _, _, done) => done == Err(Unavailable)
    case OpSetattr(_, _, attrs) => attrs == Err(Unavailable)
    case OpRelease(_) => true
    case OpRestart(_, _, _, _) => true
  }

  /** The operations that would change the remote. */
  predicate Mutates(op: Op) {
    op.OpWrite? || op.OpCreate? || op.OpMkdir? || op.OpUnlink? || op.OpRmdir? || op.OpRename? || op.OpSetattr?
    || (op.OpOpen? && op.flags.truncate)
  }

  /** The operation reports an error to its caller. */
  predicate Fails(w: World, op: Op, now: Time) {
    match op
    case OpLookup(parent, name, attrs) => Lookup(w, parent, name, now, attrs).1.Err?
    case OpGetattr(node, attrs) => Getattr(w, node, now, attrs).1.Err?
    case OpReaddir(node, listing) => Readdir(w, node, now, listing).1.Err?
    case OpOpen(node, flags, attrs) => Open(w, node, flags, now, attrs).1.Err?
    case OpRead(handle, offset, size, attrs, direct, script) =>
      Read(w, handle, offset, size, now, attrs, direct, script).1.Err?
    case OpWrite(handle, at, data, written) => Write(w, handle, at, data, written).1.Err?
    case OpCreate(parent, name, attrs) => Create(w, parent, name, now, attrs).1.Err?
    case OpMkdir(parent, name, attrs) => Mkdir(w, parent, name, now, attrs).1.Err?
    case OpUnlink(parent, name, done) => Unlink(w, parent, name, now, done).1.Err?
    case OpRmdir(parent, name, done) => Rmdir(w, parent, name, now, done).1.Err?
    case OpRename(parent, name, newParent, newName, done) =>
      Rename(w, parent, name, newParent, newName, now, done).1.Err?
    case OpSetattr(node, change, attrs) => Setattr(w, node, change, now, attrs).1.Err?
    case OpRelease(_) => false
    case OpRestart(_, _, _, _) => false
  }

  /**
   One offline operation. Nothing it does reaches the store; unless it is a mutation it makes no remote call, and
   if it is a mutation it fails.
   */
  lemma OfflineStep(w: World, op: Op, now: Time)
    requires w.IsOffline() && Disconnected(op) && !op.OpRestart?
    ensures Next(w, op, now).cache == w.cache && Next(w, op, now).config == w.config
    ensures !Mutates(op) ==> Next(w, op, now).log == w.log
    ensures Mutates(op) ==> Fails(w, op, now) && Next(w, op, now).session == w.session
  {
    hide Join, Intern, InternAll, CachedChildren, StampAll, RealChildren, CM.Cache.ReadCached, CM.Cache.Read,
      CM.Cache.Attrs, CM.Cache.PutAttrs, CM.Cache.Remove, CM.Cache.RecordListing, CM.Cache.InvalidateContent,
      CM.Cache.InvalidateChildren, CM.Cache.Rename;
    match op
    case OpLookup(_, _, _) => hide ChildOf;
    case OpReaddir(_, _) => hide PathOf;
    case _ =>
  }

  ghost predicate OfflineOps(ops: seq<Timed>) {
    forall i :: 0 <= i < |ops| ==> Disconnected(ops[i].op) && !ops[i].op.OpRestart?
  }

  /** A call that was a mutation and was refused. */
  ghost predicate Refused(e: Event) {
    match e
    case WriteEvent(_, _, _, reply) => reply.Err?
    case CreateEvent(_, _, _, reply) => reply.Err?
    case MkdirEvent(_, _, _, reply) => reply.Err?
    case SetattrEvent(_, _, _, reply) => reply.Err?
    case UnlinkEvent(_, _, _, done) => done.Err?
    case RmdirEvent(_, _, _, done) => done.Err?
    case RenameEvent(_, _, _, _, _, done) => done.Err?
    case _ => false
  }

  /** The log only grew by refused mutations. */
  ghost predicate OnlyRefusals(log: seq<Event>, log': seq<Event>) {
    log <= log' && forall i :: |log| <= i < |log'| ==> Refused(log'[i])
  }

  lemma OfflineCalls(w: World, op: Op, now: Time)
    requires w.IsOffline() && Disconnected(op) && !op.OpRestart?
    ensures OnlyRefusals(w.log, Next(w, op, now).log)
  {
    if !Mutates(op) {
      OfflineStep(w, op, now);
    } else {
      hide Join, Intern, CM.Cache.PutAttrs, CM.Cache.Remove, CM.Cache.InvalidateContent, CM.Cache.InvalidateChildren,
        CM.Cache.Rename;
    }
  }

  /** Whole offline runs: the store at the end is the store at the start, and no query ever reached the remote. */
  lemma {:induction false} OfflineRun(w: World, ops: seq<Timed>, w': World)
    requires w.IsOffline() && OfflineOps(ops) && Runs(w, ops, w')
    ensures w'.cache == w.cache && w'.config == w.config && OnlyRefusals(w.log, w'.log)
    decreases |ops|
  {
    if ops != [] {
      hide Next, Disconnected, Refused;
      var w0 := w.(clock := ops[0].now);
      assert Disconnected(ops[0].op) && !ops[0].op.OpRestart?;
      OfflineStep(w0, ops[0].op, ops[0].now);
      OfflineCalls(w0, ops[0].op, ops[0].now);
      OfflineRun(Tick(w, ops[0].op, ops[0].now), ops[1..], w');
    }
  }

  /** Every chunk the range needs is cached under `attrs`, and what is cached under `attrs` is `file`. */
  ghost predicate HydratedRange(c: CM.Cache, p: Path, attrs: FileAttributes, offset: U64, size: U32, file: Bytes) {
    && |file| == attrs.size && PathTrue(c, p, VersionOf(attrs), file)
    && size > 0 && offset < attrs.size
    && forall k :: Needs(c, attrs, offset, size, k) ==> c.Has(p, VersionOf(attrs), k)
  }

  /** A successful online read of a non-empty range leaves that range hydrated. */
  lemma ReadHydrates(c: CM.Cache, p: Path, attrs: FileAttributes, offset: U64, size: U32, script: CM.Script,
                     file: Bytes)
    requires CM.CacheOk(c) && |file| == attrs.size && PathTrue(c, p, VersionOf(attrs), file)
    requires CM.AllHonest(file, c.Read(p, attrs, offset, size, script).events)
    requires size > 0 && offset < attrs.size && c.Read(p, attrs, offset, size, script).outcome.Ok?
    ensures HydratedRange(c.Read(p, attrs, offset, size, script).cache, p, attrs, offset, size, file)
  {
    hide CM.Cache.Read, PathTrue, CM.CacheOk;
    ReadExact(c, p, attrs, offset, size, script, file);
    ReadMinimal(c, p, attrs, offset, size, script);
  }

  /** A part of a hydrated range is hydrated. */
  lemma SubrangeNeeds(c: CM.Cache, attrs: FileAttributes, offset: U64, size: U32, offset': U64, size': U32, k: nat)
    requires offset <= offset' && offset' + size' <= offset + size && Needs(c, attrs, offset', size', k)
    ensures Needs(c, attrs, offset, size, k)
  {
    InRange(offset', ReadEnd(offset', size', attrs.size), c.chunkSize, k);
    InRange(offset, ReadEnd(offset, size, attrs.size), c.chunkSize, k);
  }

  /**
   What an online session hydrated, an offline session with the same chunk size reads back byte for byte, in any
   part, after any offline run and through any handle on the file.
   */
  lemma OfflineReadsBack(w: World, p: Path, attrs: FileAttributes, offset: U64, size: U32, file: Bytes,
                         readOnly: bool, ttl: Time, start: Time, ops: seq<Timed>, w': World,
                         handle: Handle, offset': U64, size': U32, now: Time,
                         reply: Result<FileAttributes>, direct: Result<Bytes>, script: CM.Script)
    requires Durable(w.cache) && HydratedRange(w.cache, p, attrs, offset, size, file)
    requires Runs(Next(w, OpRestart(Offline, readOnly, ttl, w.cache.chunkSize), start), ops, w') && OfflineOps(ops)
    requires handle in w'.session.handles && w'.session.handles[handle].path == p
    requires offset <= offset' && offset' + size' <= offset + size
    ensures Read(w', handle, offset', size', now, reply, direct, script) == (w', Ok(Slice(file, offset', size')))
  {
    hide Runs, Disconnected, Slice, ChunksTrue, CM.CacheOk, CM.Cache.ReadCached, NonEmpty;
    var w0 := Next(w, OpRestart(Offline, readOnly, ttl, w.cache.chunkSize), start);
    OfflineRun(w0, ops, w');
    var c := w.cache;
    assert w'.cache == c.Reopen(c.chunkSize);
    assert I.Content(c.saved, p) == I.Content(c.index, p);
    hide Next;
    var first := FirstChunk(offset, c.chunkSize);
    InRange(offset, ReadEnd(offset, size, attrs.size), c.chunkSize, first);
    assert Needs(c, attrs, offset, size, first);
    assert c.Has(p, VersionOf(attrs), first);
    forall k | Needs(c, attrs, offset', size', k)
      ensures k in I.Content(c.saved, p).value.chunks
    {
      SubrangeNeeds(c, attrs, offset, size, offset', size', k);
      assert c.Has(p, VersionOf(attrs), k);
    }
    ReopenedReadExact(c, p, attrs, offset', size', file);
  }
}
