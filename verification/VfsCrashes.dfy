/** Crashes in the middle of the file system's operations. */
module VfsCrashes {
  import opened Base
  import opened Chunks
  import I = CacheIndex
  import CM = CacheModel
  import CacheReads
  import opened VfsModel
  import opened VfsViews
  import opened VfsDurable
  import opened VfsSlots
  import R = VfsRefinement
  import V = VfsRemote
  import T = MachineTheorems
  import P = MachinePersistence
  import S = Machine
  import opened MachineSequential

  // ---- Reads -------------------------------------------------------------------

  lemma {:induction false} HydrateReaches(c: CM.Cache, p: Path, attrs: FileAttributes, i: nat, last: nat,
                                          script: CM.Script)
    requires (i <= last ==> last * c.chunkSize < attrs.size) && FetchesFree(c, p, attrs, i, last, script)
    requires Fitting(c.Hydrate(p, attrs, i, last, script).events)
    ensures Reaches(c, c.Hydrate(p, attrs, i, last, script).cache)
    decreases last + 1 - i
  {
    hide Reaches, CM.Cache.FetchChunk, I.FreeSlot;
    if i > last {
      SameReached(c);
    } else if c.Has(p, VersionOf(attrs), i) {
      HydrateReaches(c, p, attrs, i + 1, last, script);
    } else {
      MulMonotone(i, last, c.chunkSize);
      CacheReads.HydrateFetches(c, p, attrs, i, last, script);
      var f, h := c.FetchChunk(p, attrs, i, script), c.Hydrate(p, attrs, i, last, script);
      assert forall e :: e in f.events ==> e in h.events;
      FetchReaches(c, p, attrs, i, script);
      if f.outcome.Ok? {
        var h' := f.cache.Hydrate(p, attrs, i + 1, last, f.rest);
        assert forall e :: e in h'.events ==> e in h.events;
        HydrateReaches(f.cache, p, attrs, i + 1, last, f.rest);
        ReachesThen(c, f.cache, h'.cache);
      }
    }
  }

  lemma ReadReaches(c: CM.Cache, p: Path, attrs: FileAttributes, offset: U64, size: U32, script: CM.Script)
    requires ReadFetchesFree(c, p, attrs, offset, size, script)
    requires Fitting(c.Read(p, attrs, offset, size, script).events)
    ensures Reaches(c, c.Read(p, attrs, offset, size, script).cache)
  {
    hide Reaches, CM.Cache.Hydrate, FetchesFree, CM.Cache.ReadRange;
    if size > 0 && offset < attrs.size {
      var cs, end := c.chunkSize, ReadEnd(offset, size, attrs.size);
      InRange(offset, end, cs, LastChunk(end, cs));
      HydrateReaches(c, p, attrs, FirstChunk(offset, cs), LastChunk(end, cs), script);
    } else {
      SameReached(c);
    }
  }

  // ---- Every operation -----------------------------------------------------------

  /** The remote answered no content read of the operation with more than was asked for. */
  ghost predicate Measured(w: World, op: Op) {
    forall e :: e in V.CallsOf(w, Next(w, op, w.clock)) && e.ContentEvent? && e.read.reply.Ok? ==>
      |e.read.reply.value| <= e.read.want
  }

  lemma RevalidateReaches(w: World, w': World, p: Path, key: Option<(NodeId, string)>, reply: Result<FileAttributes>)
    requires Revalidates(w, w', p, key, reply)
    ensures Reaches(w.cache, w'.cache)
  {
    hide Reaches, CM.Cache.PutAttrs, CM.Cache.Remove, CM.Cache.Attrs;
    if reply.Ok? { PutAttrsReaches(w.cache, p, reply.value); }
    RemoveReaches(w.cache, p);
    SameReached(w.cache);
  }

  lemma GetattrReaches(w: World, node: NodeId, reply: Result<FileAttributes>)
    ensures Reaches(w.cache, Getattr(w, node, w.clock, reply).0.cache)
  {
    if node in w.session.nodeToPath {
      GetattrRevalidates(w, node, reply);
      hide Reaches, Getattr;
      RevalidateReaches(w, Getattr(w, node, w.clock, reply).0, w.session.nodeToPath[node], None, reply);
    } else {
      SameReached(w.cache);
    }
  }

  lemma QueryReaches(w: World, op: Op)
    requires op.OpLookup? || op.OpGetattr? || op.OpReaddir?
    ensures Reaches(w.cache, Next(w, op, w.clock).cache)
  {
    SameReached(w.cache);
    if op.OpLookup? {
      if ChildOf(w.session, op.parent, op.name).Ok? {
        LookupRevalidates(w, op);
        hide Reaches, Next;
        var p := ChildOf(w.session, op.parent, op.name).value;
        RevalidateReaches(w, Next(w, op, w.clock), p, Some((op.parent, op.name)), op.attrs);
      }
    } else if op.OpGetattr? {
      GetattrReaches(w, op.node, op.attrs);
      hide Reaches, Getattr;
    } else if op.node in w.session.nodeToPath {
      ReaddirEffect(w, op);
      hide Reaches, Next, CM.Cache.RecordListing, StampAll, RealChildren;
      if op.listing.Ok? {
        RecordListingReaches(w.cache, w.session.nodeToPath[op.node], RealChildren(op.listing.value));
      }
    }
  }

  lemma FileReaches(w: World, op: Op)
    requires op.OpOpen? || op.OpWrite? || op.OpRelease? || op.OpSetattr?
    ensures Reaches(w.cache, Next(w, op, w.clock).cache)
  {
    hide Reaches, CM.Cache.InvalidateContent, CM.Cache.PutAttrs;
    SameReached(w.cache);
    if op.OpWrite? && op.handle in w.session.handles {
      InvalidateContentReaches(w.cache, w.session.handles[op.handle].path);
    }
    if (op.OpOpen? || op.OpSetattr?) && op.node in w.session.nodeToPath {
      InvalidateContentReaches(w.cache, w.session.nodeToPath[op.node]);
      if op.attrs.Ok? { PutAttrsReaches(w.cache, w.session.nodeToPath[op.node], op.attrs.value); }
    }
  }

  /** Two operations of the store, one after the other. */
  lemma ThenInvalidated(c: CM.Cache, c1: CM.Cache, dir: Path)
    requires Reaches(c, c1)
    ensures Reaches(c, c1.InvalidateChildren(dir))
  {
    InvalidateChildrenReaches(c1, dir);
    hide Reaches, CM.Cache.InvalidateChildren;
    ReachesThen(c, c1, c1.InvalidateChildren(dir));
  }

  lemma NameReaches(w: World, op: Op)
    requires op.OpCreate? || op.OpMkdir? || op.OpUnlink? || op.OpRmdir? || op.OpRename?
    ensures Reaches(w.cache, Next(w, op, w.clock).cache)
  {
    hide Reaches, CM.Cache.Rename, CM.Cache.PutAttrs, CM.Cache.Remove, CM.Cache.InvalidateChildren;
    SameReached(w.cache);
    if Next(w, op, w.clock).log == w.log {
      QuietNames(w, op);
    } else if op.OpRename? {
      RenameEffect(w, op);
      var from, to := ChildOf(w.session, op.parent, op.name).value, ChildOf(w.session, op.newParent, op.newName).value;
      var a, b := w.session.nodeToPath[op.parent], w.session.nodeToPath[op.newParent];
      hide Next, ChildOf;
      RenameReaches(w.cache, from, to);
      ThenInvalidated(w.cache, w.cache.Rename(from, to), a);
      ThenInvalidated(w.cache, w.cache.Rename(from, to).InvalidateChildren(a), b);
    } else {
      if op.OpCreate? || op.OpMkdir? { CreateEffect(w, op); } else { RemoveEffect(w, op); }
      var p, dir := ChildOf(w.session, op.parent, op.name).value, w.session.nodeToPath[op.parent];
      hide Next, ChildOf;
      if (op.OpCreate? || op.OpMkdir?) && op.attrs.Ok? {
        PutAttrsReaches(w.cache, p, op.attrs.value);
        ThenInvalidated(w.cache, w.cache.PutAttrs(p, op.attrs.value), dir);
      }
      RemoveReaches(w.cache, p);
      ThenInvalidated(w.cache, w.cache.Remove(p), dir);
    }
  }

  /** A caching read whose revalidation succeeds: the calls are those of the revalidation and those of the store. */
  lemma ReadFits(w: World, op: Op)
    requires op.OpRead? && op.handle in w.session.handles && R.Caching(w) && Measured(w, op)
    requires Getattr(w, w.session.handles[op.handle].node, w.clock, op.attrs).1.Ok?
    ensures var file := w.session.handles[op.handle];
      var (w1, meta) := Getattr(w, file.node, w.clock, op.attrs);
      var s := w1.cache.Read(file.path, meta.value.attributes, op.offset, op.size, op.script);
      Next(w, op, w.clock).cache == s.cache && Fitting(s.events)
  {
    var file := w.session.handles[op.handle];
    R.GetattrOutcome(w, file.node, op.attrs);
    var (w1, meta) := Getattr(w, file.node, w.clock, op.attrs);
    var s := w1.cache.Read(file.path, meta.value.attributes, op.offset, op.size, op.script);
    hide Getattr, CM.Cache.Read, CM.Cache.Attrs;
    var w' := Next(w, op, w.clock);
    assert w'.log == w1.log + ContentEvents(s.events) && w'.cache == s.cache;
    hide Next;
    forall e | e in s.events && e.reply.Ok?
      ensures |e.reply.value| <= e.want
    {
      var i :| 0 <= i < |s.events| && s.events[i] == e;
      assert ContentEvents(s.events)[i] == ContentEvent(e);
      assert w'.log[|w1.log| + i] == ContentEvent(e);
      assert V.CallsOf(w, w')[|w1.log| - |w.log| + i] == ContentEvent(e);
    }
  }

  lemma ReadOpReaches(w: World, op: Op)
    requires AllInStep(w.cache) && op.OpRead? && Steady(w, op) && Measured(w, op)
    ensures Reaches(w.cache, Next(w, op, w.clock).cache)
  {
    hide AllInStep, Reaches, Getattr, CM.Cache.Read, CM.Cache.ReadCached, CM.Cache.Attrs, Measured;
    SameReached(w.cache);
    if op.handle in w.session.handles && R.Caching(w) {
      var file := w.session.handles[op.handle];
      var (w1, meta) := Getattr(w, file.node, w.clock, op.attrs);
      GetattrReaches(w, file.node, op.attrs);
      GetattrInStep(w, file.node, op.attrs);
      if meta.Ok? {
        R.GetattrOutcome(w, file.node, op.attrs);
        ReadFits(w, op);
        hide ReadFetchesFree, Fitting, Next;
        ReadInStep(w1.cache, file.path, meta.value.attributes, op.offset, op.size, op.script);
        ReadReaches(w1.cache, file.path, meta.value.attributes, op.offset, op.size, op.script);
        ReachesThen(w.cache, w1.cache, Next(w, op, w.clock).cache);
      }
    }
  }

  /** Every operation of the file system is, as far as the cache directory is concerned, a run of the machine. */
  lemma OperationReaches(w: World, op: Op)
    requires AllInStep(w.cache) && Steady(w, op) && Measured(w, op)
    ensures Reaches(w.cache, Next(w, op, w.clock).cache)
  {
    hide AllInStep, Reaches, Lookup, Getattr, Readdir, Open, Read, Write, Release, Create, Mkdir, Unlink, Rmdir, Rename,
      Setattr, R.Caching, R.Unmoved, Measured;
    match op
    case OpLookup(_, _, _) => QueryReaches(w, op);
    case OpGetattr(_, _) => QueryReaches(w, op);
    case OpReaddir(_, _) => QueryReaches(w, op);
    case OpRead(_, _, _, _, _, _) => ReadOpReaches(w, op);
    case OpCreate(_, _, _) => NameReaches(w, op);
    case OpMkdir(_, _, _) => NameReaches(w, op);
    case OpUnlink(_, _, _) => NameReaches(w, op);
    case OpRmdir(_, _, _) => NameReaches(w, op);
    case OpRename(_, _, _, _, _) => NameReaches(w, op);
    case OpRestart(_, _, _, chunkSize) => ReopenReaches(w.cache, chunkSize);
    case _ => FileReaches(w, op);
  }

  // ---- Whole runs ------------------------------------------------------------------

  ghost predicate MeasuredRun(w: World, ops: seq<Timed>)
    decreases |ops|
  {
    ops == [] ||
      (Measured(w.(clock := ops[0].now), ops[0].op) && MeasuredRun(Tick(w, ops[0].op, ops[0].now), ops[1..]))
  }

  lemma {:induction false} RunReaches(w: World, ops: seq<Timed>, w': World)
    requires AllInStep(w.cache) && Durable(w.cache)
    requires Runs(w, ops, w') && SteadyRun(w, ops) && MeasuredRun(w, ops)
    ensures Reaches(w.cache, w'.cache)
    decreases |ops|
  {
    hide Next, AllInStep, Durable, Steady, Reaches, Measured;
    if ops == [] {
      SameReached(w.cache);
    } else {
      var w0, w1 := w.(clock := ops[0].now), Tick(w, ops[0].op, ops[0].now);
      InStepStep(w0, ops[0].op);
      DurableStep(w0, ops[0].op, ops[0].now);
      OperationReaches(w0, ops[0].op);
      RunReaches(w1, ops[1..], w');
      ReachesThen(w.cache, w1.cache, w'.cache);
    }
  }

  /** The machine on an empty directory. */
  ghost function EmptyDirectory(cs: Positive): S.Sys {
    S.Sys(cs, I.EMPTY, I.EMPTY, map[], map[], map[], map[], {}, None, {}, map[], {}, {}, {})
  }

  /** Whatever is referenced after a crash in state `s` is there. */
  ghost predicate CrashSafe(s: S.Sys, cs: nat) {
    && P.SameKeys(s.saved, if s.window.None? then s.index else s.window.value.before)
    && T.Intact(S.Reload(s, cs))
    && forall o :: o in I.Owned(s.saved) ==> o in s.disk && o in s.origin && s.disk[o] == s.origin[o].data
  }

  /** A run of the machine each of whose states is safe to crash in. */
  ghost predicate SafeThroughout(s: S.Sys, steps: seq<S.Step>, s': S.Sys, cs: nat)
    decreases |steps|
  {
    && CrashSafe(s, cs)
    && if steps == [] then s == s'
       else
         && S.Enabled(s, steps[0]) && S.Allowed(SEQUENTIAL, s, steps[0])
         && SafeThroughout(S.Apply(s, steps[0]), steps[1..], s', cs)
  }

  lemma ReachableSafe(s: S.Sys, cs: nat)
    requires S.Reachable(SEQUENTIAL, s)
    ensures CrashSafe(s, cs)
  {
    hide S.Reachable;
    T.CrashSafety(SEQUENTIAL, s, cs);
  }

  lemma {:induction false} AlwaysSafe(s0: S.Sys, before: seq<S.Step>, s: S.Sys, steps: seq<S.Step>, s': S.Sys, cs: nat)
    requires S.Initial(s0) && S.Runs(SEQUENTIAL, s0, before, s) && S.Runs(SEQUENTIAL, s, steps, s')
    ensures SafeThroughout(s, steps, s', cs)
    decreases |steps|
  {
    hide S.Enabled, S.Allowed, S.Apply, CrashSafe, S.Initial;
    ReachableSafe(s, cs);
    if steps != [] {
      var s1 := S.Apply(s, steps[0]);
      assert S.Runs(SEQUENTIAL, s1, [], s1);
      assert S.Runs(SEQUENTIAL, s, [steps[0]], s1);
      Concat(SEQUENTIAL, s0, before, s, [steps[0]], s1);
      AlwaysSafe(s0, before + [steps[0]], s1, steps[1..], s', cs);
    }
  }

  /**
   Crashes in the middle of an operation. Every run of a mount on an empty cache directory, with the chunk size kept
   over restarts, reads through handles whose nodes have not moved, and a remote that never answers with more than was
   asked, leaves the cache where a run of the machine leaves it, step by step: and a crash after any of those steps, so
   also between the steps of one operation, loses nothing that the saved index refers to.
   */
  lemma CrashesMidway(config: Config, cs: Positive, ops: seq<Timed>, w: World)
    returns (steps: seq<S.Step>, s: S.Sys)
    requires Runs(Mount(config, CM.Cache(cs, I.EMPTY, I.EMPTY, map[])), ops, w)
    requires SteadyRun(Mount(config, CM.Cache(cs, I.EMPTY, I.EMPTY, map[])), ops)
    requires MeasuredRun(Mount(config, CM.Cache(cs, I.EMPTY, I.EMPTY, map[])), ops)
    ensures s.index == w.cache.index && s.saved == w.cache.saved && s.disk == w.cache.disk
    ensures s.chunkSize == w.cache.chunkSize
    ensures SafeThroughout(EmptyDirectory(cs), steps, s, cs)
  {
    var mount, s0 := Mount(config, CM.Cache(cs, I.EMPTY, I.EMPTY, map[])), EmptyDirectory(cs);
    assert AllInStep(mount.cache) && Durable(mount.cache);
    RunReaches(mount, ops, w);
    assert S.Initial(s0) && During(s0, mount.cache, None);
    hide AllInStep, Durable, Runs, SteadyRun, MeasuredRun, SafeThroughout, S.Initial, S.Runs;
    s :| Follows(s0, s) && During(s, w.cache, None);
    steps :| S.Runs(SEQUENTIAL, s0, steps, s);
    assert S.Runs(SEQUENTIAL, s0, [], s0) by { Nothing(s0); }
    AlwaysSafe(s0, [], s0, steps, s, cs);
  }

  lemma Nothing(s: S.Sys)
    ensures S.Runs(SEQUENTIAL, s, [], s)
  {
  }
}
