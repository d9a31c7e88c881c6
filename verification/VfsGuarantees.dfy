/** What callers can rely on: handles, read-only mounts, write-through, and answers that need no remote call. */
module VfsGuarantees {
  import opened Base
  import opened RemotePaths
  import CM = CacheModel
  import opened VfsModel
  import opened VfsViews
  import opened VfsOffline
  import R = VfsRemote
  import I = CacheIndex
  import N = VfsNodes
  import L = VfsListing

  // ---- Handles ---------------------------------------------------------------

  /** Handles come from the counter. */
  ghost predicate HandleTable(s: Session) { forall h :: h in s.handles ==> h < s.nextHandle }

  /** Old handles are kept but for `gone`, and new ones were never used before. */
  ghost predicate HandlesKept(s: Session, s': Session, gone: set<Handle>) {
    && s.nextHandle <= s'.nextHandle
    && (forall h :: h in s.handles && h !in gone ==> h in s'.handles && s'.handles[h] == s.handles[h])
    && (forall h :: h in s'.handles && h !in s.handles ==> s.nextHandle <= h < s'.nextHandle)
    && (forall h :: h in gone ==> h !in s'.handles)
  }

  /** The handle an operation gives back. */
  function Released(op: Op): set<Handle> { if op.OpRelease? then {op.handle} else {} }

  lemma SameHandles(s: Session, s': Session)
    requires HandleTable(s) && s'.handles == s.handles && s'.nextHandle == s.nextHandle
    ensures HandleTable(s') && HandlesKept(s, s', {})
  {
  }

  lemma InternHandles(s: Session, p: Path)
    ensures Intern(s, p).0.handles == s.handles && Intern(s, p).0.nextHandle == s.nextHandle
  {
  }

  lemma {:induction false} InternAllHandles(s: Session, dir: Path, children: Listing)
    ensures InternAll(s, dir, children).0.handles == s.handles
    ensures InternAll(s, dir, children).0.nextHandle == s.nextHandle
    decreases |children|
  {
    if children != [] { InternAllHandles(s, dir, children[..|children| - 1]); }
  }

  lemma {:induction false} StampAllHandles(s: Session, dir: Path, children: Listing, now: Time)
    ensures StampAll(s, dir, children, now).0.handles == s.handles
    ensures StampAll(s, dir, children, now).0.nextHandle == s.nextHandle
    decreases |children|
  {
    if children != [] { StampAllHandles(s, dir, children[..|children| - 1], now); }
  }

  lemma CachedHandles(w: World, dir: Path)
    ensures ReaddirFromCache(w, dir).Some? ==>
      var s := ReaddirFromCache(w, dir).value.0.session;
      s.handles == w.session.handles && s.nextHandle == w.session.nextHandle
  {
    if ReaddirFromCache(w, dir).Some? {
      InternAllHandles(w.session, dir, CachedChildren(w.cache, dir, w.cache.Children(dir).value).value);
    }
  }

  lemma LookupHandles(w: World, op: Op, now: Time)
    requires HandleTable(w.session) && op.OpLookup?
    ensures HandleTable(Next(w, op, now).session) && HandlesKept(w.session, Next(w, op, now).session, {})
  {
    var child := ChildOf(w.session, op.parent, op.name);
    if child.Ok? {
      InternHandles(w.session, child.value);
      InternHandles(w.session.(validated := w.session.validated[child.value := now],
                               negative := w.session.negative - {(op.parent, op.name)}), child.value);
    }
    hide ChildOf, Intern, HandleTable, HandlesKept, CM.Cache.PutAttrs, CM.Cache.Remove, CM.Cache.Attrs;
    SameHandles(w.session, Next(w, op, now).session);
  }

  lemma ReaddirHandles(w: World, op: Op, now: Time)
    requires HandleTable(w.session) && op.OpReaddir?
    ensures HandleTable(Next(w, op, now).session) && HandlesKept(w.session, Next(w, op, now).session, {})
  {
    if op.node in w.session.nodeToPath {
      var dir := w.session.nodeToPath[op.node];
      CachedHandles(w, dir);
      CachedHandles(w.Logged(ReadDirEvent(dir, now, op.listing)), dir);
      if op.listing.Ok? { StampAllHandles(w.session, dir, RealChildren(op.listing.value), now); }
    }
    hide ReaddirFromCache, StampAll, RealChildren, CM.Cache.RecordListing, HandleTable, HandlesKept;
    SameHandles(w.session, Next(w, op, now).session);
  }

  lemma QuietHandles(w: World, op: Op, now: Time)
    requires HandleTable(w.session)
    requires op.OpGetattr? || op.OpRead? || op.OpWrite? || op.OpUnlink? || op.OpRmdir? || op.OpRename? || op.OpSetattr?
    ensures HandleTable(Next(w, op, now).session) && HandlesKept(w.session, Next(w, op, now).session, {})
  {
    hide HandleTable, HandlesKept, Join, CM.Cache.PutAttrs, CM.Cache.Remove, CM.Cache.InvalidateContent,
      CM.Cache.InvalidateChildren, CM.Cache.Rename, CM.Cache.Read, CM.Cache.ReadCached, CM.Cache.Attrs, ContentEvents;
    SameHandles(w.session, Next(w, op, now).session);
  }

  /** Opening one more handle. */
  lemma OpenedHandles(s: Session, s1: Session, node: NodeId, p: Path)
    requires HandleTable(s) && s1.handles == s.handles && s1.nextHandle == s.nextHandle
    ensures HandleTable(OpenHandle(s1, node, p).0) && HandlesKept(s, OpenHandle(s1, node, p).0, {})
  {
  }

  lemma OpenHandles(w: World, op: Op, now: Time)
    requires HandleTable(w.session) && op.OpOpen?
    ensures HandleTable(Next(w, op, now).session) && HandlesKept(w.session, Next(w, op, now).session, {})
  {
    SameHandles(w.session, w.session);
    if op.node in w.session.nodeToPath {
      var p := w.session.nodeToPath[op.node];
      OpenedHandles(w.session, w.session, op.node, p);
      OpenedHandles(w.session, w.session.(validated := w.session.validated - {p}), op.node, p);
    }
    hide OpenHandle, HandleTable, HandlesKept, CM.Cache.InvalidateContent;
  }

  lemma CreateHandles(w: World, op: Op, now: Time)
    requires HandleTable(w.session) && (op.OpCreate? || op.OpMkdir?)
    ensures HandleTable(Next(w, op, now).session) && HandlesKept(w.session, Next(w, op, now).session, {})
  {
    SameHandles(w.session, w.session);
    var child := ChildOf(w.session, op.parent, op.name);
    if child.Ok? {
      var s := w.session.(validated := w.session.validated[child.value := now],
                          negative := w.session.negative - {(op.parent, op.name)});
      InternHandles(s, child.value);
      SameHandles(w.session, Intern(s, child.value).0);
      OpenedHandles(w.session, Intern(s, child.value).0, Intern(w.session, child.value).1, child.value);
    }
    assert child.Ok? ==> op.parent in w.session.nodeToPath;
    hide ChildOf, Intern, OpenHandle, HandleTable, HandlesKept, CM.Cache.PutAttrs, CM.Cache.InvalidateChildren;
  }

  lemma HandlesStep(w: World, op: Op, now: Time)
    requires HandleTable(w.session) && !op.OpRestart?
    ensures HandleTable(Next(w, op, now).session) && HandlesKept(w.session, Next(w, op, now).session, Released(op))
  {
    if op.OpRelease? {
    } else {
      hide Next, HandleTable, HandlesKept;
      match op
      case OpLookup(_, _, _) => LookupHandles(w, op, now);
      case OpReaddir(_, _) => ReaddirHandles(w, op, now);
      case OpOpen(_, _, _) => OpenHandles(w, op, now);
      case OpCreate(_, _, _) => CreateHandles(w, op, now);
      case OpMkdir(_, _, _) => CreateHandles(w, op, now);
      case _ => QuietHandles(w, op, now);
    }
  }

  /** Over any run of one session a handle stays bound to the node and path it was opened with until it is released. */
  lemma {:induction false} HandleStable(w: World, ops: seq<Timed>, w': World, h: Handle)
    requires HandleTable(w.session) && Runs(w, ops, w') && h in w.session.handles
    requires forall i :: 0 <= i < |ops| ==> !ops[i].op.OpRestart? && h !in Released(ops[i].op)
    ensures h in w'.session.handles && w'.session.handles[h] == w.session.handles[h]
    decreases |ops|
  {
    if ops != [] {
      hide Next, Released;
      assert !ops[0].op.OpRestart? && h !in Released(ops[0].op);
      HandlesStep(w.(clock := ops[0].now), ops[0].op, ops[0].now);
      HandleStable(Tick(w, ops[0].op, ops[0].now), ops[1..], w', h);
    }
  }

  /** And once it is released it is not valid again, whatever is opened later. */
  lemma {:induction false} ReleasedForever(w: World, ops: seq<Timed>, w': World, h: Handle)
    requires HandleTable(w.session) && Runs(w, ops, w') && h < w.session.nextHandle && h !in w.session.handles
    requires forall i :: 0 <= i < |ops| ==> !ops[i].op.OpRestart?
    ensures h !in w'.session.handles
    decreases |ops|
  {
    if ops != [] {
      hide Next, Released;
      assert !ops[0].op.OpRestart?;
      HandlesStep(w.(clock := ops[0].now), ops[0].op, ops[0].now);
      ReleasedForever(Tick(w, ops[0].op, ops[0].now), ops[1..], w', h);
    }
  }

  // ---- Read-only mounts ------------------------------------------------------

  /** On a read-only mount a mutation, or an open for writing, is refused before anything happens. */
  lemma ReadOnlyStep(w: World, op: Op, now: Time)
    requires w.config.readOnly && !op.OpRestart?
    requires Mutates(op) || (op.OpOpen? && (op.flags.write || op.flags.append))
    ensures Next(w, op, now) == w && Fails(w, op, now)
  {
  }

  ghost predicate OnlyQueries(log: seq<Event>, log': seq<Event>) {
    log <= log' && forall i :: |log| <= i < |log'| ==> R.IsQuery(log'[i])
  }

  lemma QueryCalls(w: World, op: Op, now: Time)
    requires op.OpLookup? || op.OpGetattr? || op.OpReaddir? || op.OpRelease? || (op.OpOpen? && !op.flags.truncate)
    ensures OnlyQueries(w.log, Next(w, op, now).log)
  {
    if op.OpReaddir? && op.node in w.session.nodeToPath {
      CachedStamps(w, w.session.nodeToPath[op.node]);
      CachedStamps(w.Logged(ReadDirEvent(w.session.nodeToPath[op.node], now, op.listing)),
                   w.session.nodeToPath[op.node]);
    }
    hide ChildOf, Intern, ReaddirFromCache, StampAll, RealChildren, CM.Cache.RecordListing, CM.Cache.PutAttrs,
      CM.Cache.Remove, CM.Cache.Attrs;
  }

  lemma ReadCalls(w: World, op: Op, now: Time)
    requires op.OpRead?
    ensures OnlyQueries(w.log, Next(w, op, now).log)
  {
    if op.handle in w.session.handles {
      var node := w.session.handles[op.handle].node;
      QueryCalls(w, OpGetattr(node, op.attrs), now);
      hide Getattr, CM.Cache.Read, CM.Cache.ReadCached;
    }
  }

  /** Whatever is asked of a read-only mount, only queries reach the remote. */
  lemma {:induction false} ReadOnlyRun(w: World, ops: seq<Timed>, w': World)
    requires w.config.readOnly && Runs(w, ops, w') && forall i :: 0 <= i < |ops| ==> !ops[i].op.OpRestart?
    ensures w'.config == w.config && OnlyQueries(w.log, w'.log)
    decreases |ops|
  {
    if ops != [] {
      var w0, op, now := w.(clock := ops[0].now), ops[0].op, ops[0].now;
      assert !op.OpRestart?;
      N.SameConfig(w0, op, now);
      hide Next, Fails;
      if Mutates(op) { ReadOnlyStep(w0, op, now); }
      else if op.OpRead? { ReadCalls(w0, op, now); }
      else { QueryCalls(w0, op, now); }
      ReadOnlyRun(Tick(w, op, now), ops[1..], w');
    }
  }

  // ---- Answers without a remote call -----------------------------------------

  /** The path an operation asks the remote about or changes. */
  function Subject(w: World, op: Op): Result<Path> {
    if op.OpLookup? || op.OpCreate? || op.OpMkdir? then ChildOf(w.session, op.parent, op.name)
    else if op.OpGetattr? || op.OpSetattr? then PathOf(w.session, op.node)
    else Err(InvalidInput)
  }

  lemma StampedIsServed(w: World, p: Path, attrs: FileAttributes, at: Time, node: NodeId, now: Time,
                        reply: Result<FileAttributes>)
    requires w.cache.Attrs(p) == Some(attrs) && p in w.session.validated && w.session.validated[p] == at
    requires node in w.session.nodeToPath && w.session.nodeToPath[node] == p && now < at + w.config.ttl
    ensures Getattr(w, node, now, reply) == (w, Ok(FileMetadata(node, attrs)))
  {
  }

  /** What the operation leaves cached about its subject. */
  lemma ConfirmedIsCached(w: World, op: Op, p: Path)
    requires op.OpLookup? || op.OpGetattr? || op.OpSetattr? || op.OpCreate? || op.OpMkdir?
    requires Subject(w, op) == Ok(p) && Next(w, op, w.clock).log != w.log && op.attrs.Ok?
    ensures var w' := Next(w, op, w.clock);
      w'.cache.Attrs(p) == Some(op.attrs.value) && p in w'.session.validated && w'.session.validated[p] == w.clock
      && w'.config == w.config
  {
    PutAttrsView(w.cache, p, op.attrs.value, p);
    if op.OpLookup? {
      LookupRevalidates(w, op);
    } else if op.OpGetattr? {
      GetattrRevalidates(w, op.node, op.attrs);
    } else if op.OpCreate? || op.OpMkdir? {
      CreateEffect(w, op);
      InvalidateView(w.cache.PutAttrs(p, op.attrs.value), w.session.nodeToPath[op.parent], p);
    }
    if !op.OpSetattr? { hide Next; }
    hide Join, CM.Cache.PutAttrs, CM.Cache.InvalidateChildren, CM.Cache.Attrs;
  }

  /**
   Attributes that the remote has just returned, to a lookup, getattr, setattr, create or mkdir, are served without a
   remote call and without any change until the time-to-live is over.
   */
  lemma ConfirmedIsServed(w: World, op: Op, p: Path, node: NodeId, now: Time, reply: Result<FileAttributes>)
    requires op.OpLookup? || op.OpGetattr? || op.OpSetattr? || op.OpCreate? || op.OpMkdir?
    requires Subject(w, op) == Ok(p) && Next(w, op, w.clock).log != w.log && op.attrs.Ok?
    requires node in Next(w, op, w.clock).session.nodeToPath && Next(w, op, w.clock).session.nodeToPath[node] == p
    requires now < w.clock + w.config.ttl
    ensures Getattr(Next(w, op, w.clock), node, now, reply) ==
      (Next(w, op, w.clock), Ok(FileMetadata(node, op.attrs.value)))
  {
    ConfirmedIsCached(w, op, p);
    hide Next, Getattr, CM.Cache.Attrs;
    StampedIsServed(Next(w, op, w.clock), p, op.attrs.value, w.clock, node, now, reply);
  }

  /** So are the attributes of every entry of a listing with distinct names. */
  lemma ListedIsServed(w: World, node: NodeId, dir: Path, reply: Result<Listing>, i: nat, now: Time,
                       later: Result<FileAttributes>)
    requires N.SessionOk(w) && PathOf(w.session, node) == Ok(dir) && reply.Ok?
    requires L.DistinctNames(RealChildren(reply.value))
    requires var (w', entries) := Readdir(w, node, w.clock, reply);
      w'.log != w.log && entries.Ok? && i < |entries.value|
    requires now < w.clock + w.config.ttl
    ensures var (w', entries) := Readdir(w, node, w.clock, reply);
      Getattr(w', entries.value[i].metadata.node, now, later) == (w', Ok(entries.value[i].metadata))
  {
    var (w', entries) := Readdir(w, node, w.clock, reply);
    var e := entries.value[i];
    L.ListingShows(w, node, dir, w.clock, reply);
    assert L.Shown(w', dir, e);
    var p := Join(dir, e.name).value;
    N.ReaddirNodes(w, OpReaddir(node, reply), w.clock);
    assert w'.session.nodeToPath[e.metadata.node] == p;
    ReaddirEffect(w, OpReaddir(node, reply));
    var children := RealChildren(reply.value);
    L.StampAllEntries(w.session, dir, children, w.clock) by {
      CachedStamps(w, dir);
      hide StampAll, RealChildren, CM.Cache.RecordListing, ReaddirFromCache;
    }
    StampAllView(w.session, dir, children, w.clock, p);
    assert entries == StampAll(w.session, dir, children, w.clock).1 by {
      CachedStamps(w, dir);
      hide StampAll, RealChildren, CM.Cache.RecordListing, ReaddirFromCache;
    }
    assert children[i].0 == e.name;
    assert Mentions(children, dir, p);
    hide Readdir, Next, Getattr, StampAll, RealChildren, CM.Cache.RecordListing, N.NodeTable, L.Shows, Join,
      CM.Cache.Attrs;
    StampedIsServed(w', p, e.metadata.attributes, w.clock, e.metadata.node, now, later);
  }

  /**
   A name that this mount has just removed or renamed away is reported missing without a remote call, for one second or
   the time-to-live, whichever is shorter.
   */
  lemma RemovedIsMissing(w: World, op: Op, now: Time, reply: Result<FileAttributes>)
    requires op.OpUnlink? || op.OpRmdir? || (op.OpRename? && (op.parent, op.name) != (op.newParent, op.newName))
    requires Next(w, op, w.clock).log != w.log && op.done.Ok?
    requires ChildOf(Next(w, op, w.clock).session, op.parent, op.name).Ok?
    requires now < w.clock + Min(w.config.ttl, NEGATIVE_TTL_CAP)
    ensures Lookup(Next(w, op, w.clock), op.parent, op.name, now, reply) == (Next(w, op, w.clock), Err(NotFound))
  {
    NotedMissing(w, op);
    hide Next, ChildOf, CM.Cache.PutAttrs, CM.Cache.Remove, CM.Cache.Attrs, Intern;
  }

  lemma NotedMissing(w: World, op: Op)
    requires op.OpUnlink? || op.OpRmdir? || (op.OpRename? && (op.parent, op.name) != (op.newParent, op.newName))
    requires Next(w, op, w.clock).log != w.log && op.done.Ok?
    ensures var w', key := Next(w, op, w.clock), (op.parent, op.name);
      key in w'.session.negative && w'.session.negative[key] == w.clock && w'.config == w.config
  {
    if op.OpRename? {
      RenameEffect(w, op);
    } else {
      RemoveEffect(w, op);
    }
    hide ChildOf, RenamePath, CM.Cache.Remove, CM.Cache.Rename, CM.Cache.InvalidateChildren;
  }

  /**
   A write is one remote call; afterwards nothing is cached of the contents and the attributes count as unconfirmed.
   */
  lemma WriteThrough(w: World, handle: Handle, offset: nat, data: Bytes, reply: Result<nat>)
    requires handle in w.session.handles && !w.config.readOnly
    ensures var (w', r) := Write(w, handle, offset, data, reply);
      var p := w.session.handles[handle].path;
      && r == reply && w'.log == w.log + [WriteEvent(p, offset, data, reply)]
      && (reply.Ok? ==> I.Content(w'.cache.index, p) == None && !Live(w', p))
      && (reply.Err? ==> w'.cache == w.cache && w'.session == w.session)
  {
  }

  /**
   After a write the remote is asked again: whoever next wants the attributes of the file makes exactly one stat call
   and gets its answer, and the cached contents are gone even for reads that must not call.
   */
  lemma WrittenIsAsked(w: World, handle: Handle, offset: nat, data: Bytes, written: nat, node: NodeId, now: Time,
                       attrs: FileAttributes, from: U64, size: U32)
    requires handle in w.session.handles && !w.config.readOnly && !w.IsOffline()
    requires PathOf(w.session, node) == Ok(w.session.handles[handle].path)
    ensures var p, w' := w.session.handles[handle].path, Write(w, handle, offset, data, Ok(written)).0;
      && Getattr(w', node, now, Ok(attrs)).0.log == w'.log + [StatEvent(p, now, None, Ok(attrs))]
      && Getattr(w', node, now, Ok(attrs)).1 == Ok(FileMetadata(node, attrs))
      && w'.cache.ReadCached(p, from, size) == Err(Unavailable)
  {
    WriteThrough(w, handle, offset, data, Ok(written));
    hide CM.Cache.InvalidateContent, CM.Cache.PutAttrs, CM.Cache.Attrs;
  }
}
