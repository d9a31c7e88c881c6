/** How old the attributes served without a remote call can be, over every run. */
module VfsFreshness {
  import opened Base
  import opened RemotePaths
  import CM = CacheModel
  import opened VfsModel
  import opened VfsViews

  /** The remote answered at time `t` that `p` has these attributes. */
  ghost predicate Reports(e: Event, p: Path, attrs: FileAttributes, t: Time) {
    match e
    case StatEvent(q, at, _, reply) => q == p && at == t && reply == Ok(attrs)
    case CreateEvent(q, at, _, reply) => q == p && at == t && reply == Ok(attrs)
    case MkdirEvent(q, at, _, reply) => q == p && at == t && reply == Ok(attrs)
    case SetattrEvent(q, at, _, reply) => q == p && at == t && reply == Ok(attrs)
    case ReadDirEvent(dir, at, listing) => at == t && listing.Ok? && Lists(listing.value, dir, p, attrs)
    case _ => false
  }

  /** Some answer of the log, given no earlier than `since` and no later than `until`, reports these attributes. */
  ghost predicate Vouched(log: seq<Event>, p: Path, attrs: FileAttributes, since: Time, until: Time) {
    exists i: int, t: Time :: 0 <= i < |log| && since <= t <= until && Reports(log[i], p, attrs, t)
  }

  /** If the stamp of `p` is live, the remote has confirmed the cached attributes since it was set. */
  ghost predicate FreshAt(w: World, p: Path) {
    && (p in w.session.validated ==> w.session.validated[p] <= w.clock)
    && (w.cache.Attrs(p).Some? && Live(w, p) ==>
          Vouched(w.log, p, w.cache.Attrs(p).value, w.session.validated[p], w.clock))
  }

  /**
   The operations that could give `p` attributes its stamp does not cover:
   a rename onto `p` while a stamp of `p` is live, a listing of `p` itself by the remote while its attributes are
   cached, and a read through a handle on `p` whose node has moved away while `p` has a live stamp but no attributes.
   */
  ghost predicate Tidy(w: World, op: Op, p: Path) {
    match op
    case OpRename(parent, name, newParent, newName, _) =>
      var from, to := ChildOf(w.session, parent, name), ChildOf(w.session, newParent, newName);
      (from.Ok? && to == Ok(p) && from != to && w.cache.Attrs(from.value).Some?) ==> !Live(w, p)
    case OpReaddir(node, listing) =>
      (PathOf(w.session, node) == Ok(p) && listing.Ok? && w.cache.Attrs(p).Some?) ==>
        w.MetadataFresh(p, w.clock) && ReaddirFromCache(w, p).Some?
    case OpRead(handle, _, _, _, _, _) =>
      (handle in w.session.handles && w.session.handles[handle].path == p
       && PathOf(w.session, w.session.handles[handle].node) != Ok(p)) ==> w.cache.Attrs(p).Some? || !Live(w, p)
    case _ => true
  }

  // ---- Each operation --------------------------------------------------------

  lemma VouchedGrows(log: seq<Event>, log': seq<Event>, p: Path, attrs: FileAttributes, since: Time, until: Time)
    requires log <= log' && Vouched(log, p, attrs, since, until)
    ensures Vouched(log', p, attrs, since, until)
  {
    var i, t :| 0 <= i < |log| && since <= t <= until && Reports(log[i], p, attrs, t);
    assert log'[i] == log[i];
  }

  lemma VouchedLast(log: seq<Event>, e: Event, p: Path, attrs: FileAttributes, since: Time, now: Time)
    requires Reports(e, p, attrs, now) && since <= now
    ensures Vouched(log + [e], p, attrs, since, now)
  {
    assert (log + [e])[|log|] == e;
  }

  ghost predicate SameStamp(s: Session, s': Session, p: Path) {
    (p in s'.validated <==> p in s.validated) && (p in s.validated ==> s'.validated[p] == s.validated[p])
  }

  /** The operation did not touch `p`. */
  lemma Untouched(w: World, w': World, p: Path)
    requires FreshAt(w, p) && w'.config == w.config && w'.clock == w.clock && w.log <= w'.log
    requires w'.cache.Attrs(p) == w.cache.Attrs(p)
    requires SameStamp(w.session, w'.session, p) || p !in w'.session.validated
    ensures FreshAt(w', p)
  {
    if w'.cache.Attrs(p).Some? && Live(w', p) {
      VouchedGrows(w.log, w'.log, p, w.cache.Attrs(p).value, w.session.validated[p], w.clock);
    }
  }

  /** The operation left `p` with attributes that its last answer reports. */
  lemma Confirmed(w: World, w': World, p: Path, e: Event)
    requires w'.clock == w.clock && w'.log == w.log + [e]
    requires p in w'.session.validated ==> w'.session.validated[p] <= w'.clock
    requires w'.cache.Attrs(p).Some? && Reports(e, p, w'.cache.Attrs(p).value, w.clock)
    ensures FreshAt(w', p)
  {
    if p in w'.session.validated {
      VouchedLast(w.log, e, p, w'.cache.Attrs(p).value, w'.session.validated[p], w.clock);
    }
  }

  lemma RevalidateFresh(w: World, w': World, q: Path, key: Option<(NodeId, string)>, reply: Result<FileAttributes>,
                        p: Path)
    requires FreshAt(w, p) && Revalidates(w, w', q, key, reply)
    ensures FreshAt(w', p)
  {
    var e := StatEvent(q, w.clock, key, reply);
    if reply.Ok? { PutAttrsView(w.cache, q, reply.value, p); }
    RemoveView(w.cache, q, p);
    hide CM.Cache.PutAttrs, CM.Cache.Remove, CM.Cache.Attrs, FreshAt, Vouched;
    if w'.log != w.log && reply.Ok? && p == q {
      Confirmed(w, w', p, e);
    } else if w'.log != w.log && reply == Err(NotFound) && p == q {
      Forgotten(w, w', p);
    } else {
      Untouched(w, w', p);
    }
  }

  lemma LookupFresh(w: World, op: Op, p: Path)
    requires FreshAt(w, p) && op.OpLookup?
    ensures FreshAt(Next(w, op, w.clock), p)
  {
    var child := ChildOf(w.session, op.parent, op.name);
    if child.Ok? {
      LookupRevalidates(w, op);
      hide Next, FreshAt, Revalidates;
      RevalidateFresh(w, Next(w, op, w.clock), child.value, Some((op.parent, op.name)), op.attrs, p);
    }
  }

  lemma Forgotten(w: World, w': World, p: Path)
    requires FreshAt(w, p) && w'.clock == w.clock && SameStamp(w.session, w'.session, p) && w'.cache.Attrs(p).None?
    ensures FreshAt(w', p)
  {
  }

  lemma GetattrFresh(w: World, node: NodeId, reply: Result<FileAttributes>, p: Path)
    requires FreshAt(w, p)
    ensures FreshAt(Getattr(w, node, w.clock, reply).0, p)
  {
    if node in w.session.nodeToPath {
      GetattrRevalidates(w, node, reply);
      hide Getattr, FreshAt, Revalidates;
      RevalidateFresh(w, Getattr(w, node, w.clock, reply).0, w.session.nodeToPath[node], None, reply, p);
    }
  }

  lemma ReaddirFresh(w: World, op: Op, p: Path)
    requires FreshAt(w, p) && op.OpReaddir? && Tidy(w, op, p)
    ensures FreshAt(Next(w, op, w.clock), p)
  {
    if op.node in w.session.nodeToPath {
      ReaddirEffect(w, op);
      var dir, w' := w.session.nodeToPath[op.node], Next(w, op, w.clock);
      assert w.MetadataFresh(dir, w.clock) && ReaddirFromCache(w, dir).Some? ==> w'.log == w.log by {
        CachedStamps(w, dir);
        hide ReaddirFromCache;
      }
      hide Next, FreshAt, ReaddirFromCache, Vouched, CM.Cache.RecordListing, CM.Cache.Attrs, StampAll, RealChildren;
      if w'.log == w.log || op.listing.Err? {
        Untouched(w, w', p);
      } else {
        ListedFresh(w, w', dir, op.listing.value, p);
      }
    }
  }

  /** A listing that reached the remote and was answered. */
  lemma ListedFresh(w: World, w': World, dir: Path, listing: Listing, p: Path)
    requires FreshAt(w, p) && w'.config == w.config && w'.clock == w.clock
    requires w'.log == w.log + [ReadDirEvent(dir, w.clock, Ok(listing))]
    requires w'.cache == w.cache.RecordListing(dir, RealChildren(listing))
    requires var v := StampAll(w.session, dir, RealChildren(listing), w.clock).0.validated;
      w'.session.validated == v || w'.session.validated == v[dir := w.clock]
    requires p == dir ==> w.cache.Attrs(p).None?
    ensures FreshAt(w', p)
  {
    var children := RealChildren(listing);
    RecordListingView(w.cache, dir, children, p);
    StampAllView(w.session, dir, children, w.clock, p);
    hide Vouched, Lists, Mentions, CM.Cache.RecordListing, StampAll, RealChildren, CM.Cache.Attrs;
    if Mentions(children, dir, p) {
      RealListed(listing, dir, p, w'.cache.Attrs(p).value);
      hide FreshAt;
      Confirmed(w, w', p, ReadDirEvent(dir, w.clock, Ok(listing)));
    } else if p == dir {
    } else {
      Untouched(w, w', p);
    }
  }

  lemma OpenFresh(w: World, op: Op, p: Path)
    requires FreshAt(w, p) && op.OpOpen?
    ensures FreshAt(Next(w, op, w.clock), p)
  {
    if op.node in w.session.nodeToPath { InvalidateView(w.cache, w.session.nodeToPath[op.node], p); }
    hide CM.Cache.InvalidateContent, CM.Cache.Attrs, FreshAt;
    Untouched(w, Next(w, op, w.clock), p);
  }

  lemma WriteFresh(w: World, op: Op, p: Path)
    requires FreshAt(w, p) && (op.OpWrite? || op.OpRelease?)
    ensures FreshAt(Next(w, op, w.clock), p)
  {
    if op.handle in w.session.handles { InvalidateView(w.cache, w.session.handles[op.handle].path, p); }
    hide CM.Cache.InvalidateContent, CM.Cache.Attrs, FreshAt;
    Untouched(w, Next(w, op, w.clock), p);
  }

  /** After a successful getattr the attributes it returned are the cached ones. */
  lemma GetattrCaches(w: World, node: NodeId, now: Time, reply: Result<FileAttributes>)
    requires Getattr(w, node, now, reply).1.Ok?
    ensures node in w.session.nodeToPath
    ensures var (w', meta) := Getattr(w, node, now, reply);
      w'.cache.Attrs(w.session.nodeToPath[node]) == Some(meta.value.attributes)
  {
    if reply.Ok? { PutAttrsView(w.cache, w.session.nodeToPath[node], reply.value, w.session.nodeToPath[node]); }
    hide CM.Cache.PutAttrs, CM.Cache.Remove, CM.Cache.Attrs;
  }

  /** A getattr touches at most the path of its node. */
  lemma GetattrElsewhere(w: World, node: NodeId, now: Time, reply: Result<FileAttributes>, p: Path)
    requires PathOf(w.session, node) != Ok(p)
    ensures var w' := Getattr(w, node, now, reply).0;
      w'.cache.Attrs(p) == w.cache.Attrs(p) && SameStamp(w.session, w'.session, p) && w'.clock == w.clock
        && w'.config == w.config
  {
    if node in w.session.nodeToPath {
      if reply.Ok? { PutAttrsView(w.cache, w.session.nodeToPath[node], reply.value, p); }
      RemoveView(w.cache, w.session.nodeToPath[node], p);
      hide CM.Cache.PutAttrs, CM.Cache.Remove, CM.Cache.Attrs;
    }
  }

  lemma ReadFresh(w: World, op: Op, p: Path)
    requires FreshAt(w, p) && op.OpRead? && Tidy(w, op, p)
    ensures FreshAt(Next(w, op, w.clock), p)
  {
    if op.handle in w.session.handles {
      var file := w.session.handles[op.handle];
      GetattrFresh(w, file.node, op.attrs, p);
      var (w1, meta) := Getattr(w, file.node, w.clock, op.attrs);
      if meta.Ok? {
        ReadView(w1.cache, file.path, meta.value.attributes, op.offset, op.size, op.script);
        GetattrCaches(w, file.node, w.clock, op.attrs);
        if PathOf(w.session, file.node) != Ok(p) { GetattrElsewhere(w, file.node, w.clock, op.attrs, p); }
        var s := w1.cache.Read(file.path, meta.value.attributes, op.offset, op.size, op.script);
        hide Vouched, Getattr, CM.Cache.Read, CM.Cache.Attrs, CM.Cache.ReadCached, ContentEvents, FreshAt;
        FetchFresh(w1, w1.(cache := s.cache, log := w1.log + ContentEvents(s.events)), file.path, meta.value.attributes,
                   p);
      }
      hide Vouched, Getattr, CM.Cache.Read, CM.Cache.Attrs, CM.Cache.ReadCached, ContentEvents, FreshAt;
      assert w.config.mode.Remote? ==> FreshAt(Next(w, op, w.clock), p) by {
        Untouched(w, w.Logged(ContentEvent(CM.ReadEvent(file.path, op.offset, op.size, op.direct))), p);
      }
    }
  }

  lemma FetchFresh(w: World, w': World, q: Path, attrs: FileAttributes, p: Path)
    requires FreshAt(w, p) && w' == w.(cache := w'.cache, log := w'.log) && w.log <= w'.log
    requires FetchView(w.cache, w'.cache, q, attrs)
    requires q == p ==> w.cache.Attrs(p).Some? || !Live(w, p)
    ensures FreshAt(w', p)
  {
    hide Vouched, CM.Cache.Attrs;
    if w'.cache.Attrs(p) == w.cache.Attrs(p) { Untouched(w, w', p); }
  }

  lemma CreateFresh(w: World, op: Op, p: Path)
    requires FreshAt(w, p) && (op.OpCreate? || op.OpMkdir?)
    ensures FreshAt(Next(w, op, w.clock), p)
  {
    var w' := Next(w, op, w.clock);
    if w'.log == w.log {
      QuietNames(w, op);
    } else {
      CreateEffect(w, op);
      hide Next, ChildOf, CM.Cache.PutAttrs, CM.Cache.InvalidateChildren, CM.Cache.Attrs, FreshAt, Vouched;
      var q, dir := ChildOf(w.session, op.parent, op.name).value, w.session.nodeToPath[op.parent];
      if op.attrs.Ok? {
        PutAttrsView(w.cache, q, op.attrs.value, p);
        InvalidateView(w.cache.PutAttrs(q, op.attrs.value), dir, p);
      }
      if op.attrs.Ok? && p == q { Confirmed(w, w', p, w'.log[|w.log|]); } else { Untouched(w, w', p); }
    }
  }

  lemma RemoveFresh(w: World, op: Op, p: Path)
    requires FreshAt(w, p) && (op.OpUnlink? || op.OpRmdir?)
    ensures FreshAt(Next(w, op, w.clock), p)
  {
    var w' := Next(w, op, w.clock);
    if w'.log == w.log {
      QuietNames(w, op);
    } else {
      RemoveEffect(w, op);
      hide Next, ChildOf, CM.Cache.Remove, CM.Cache.InvalidateChildren, CM.Cache.Attrs, FreshAt, Vouched;
      var q, dir := ChildOf(w.session, op.parent, op.name).value, w.session.nodeToPath[op.parent];
      RemoveView(w.cache, q, p);
      InvalidateView(w.cache.Remove(q), dir, p);
      if op.done.Ok? && p == q { Forgotten(w, w', p); } else { Untouched(w, w', p); }
    }
  }

  /** The cache after a rename's three sections. */
  lemma RenamedView(c: CM.Cache, from: Path, to: Path, a: Path, b: Path, p: Path)
    ensures c.Rename(from, to).InvalidateChildren(a).InvalidateChildren(b).Attrs(p) == c.Rename(from, to).Attrs(p)
  {
    InvalidateView(c.Rename(from, to), a, p);
    InvalidateView(c.Rename(from, to).InvalidateChildren(a), b, p);
  }

  lemma RenameFresh(w: World, op: Op, p: Path)
    requires FreshAt(w, p) && op.OpRename? && Tidy(w, op, p)
    ensures FreshAt(Next(w, op, w.clock), p)
  {
    var w' := Next(w, op, w.clock);
    if w'.log == w.log {
      QuietNames(w, op);
    } else {
      RenameEffect(w, op);
      var from, to := ChildOf(w.session, op.parent, op.name).value, ChildOf(w.session, op.newParent, op.newName).value;
      RenameView(w.cache, from, to, p);
      RenamedView(w.cache, from, to, w.session.nodeToPath[op.parent], w.session.nodeToPath[op.newParent], p);
      hide Next, ChildOf, CM.Cache.Rename, CM.Cache.InvalidateChildren, CM.Cache.Attrs, Vouched;
      if w'.cache.Attrs(p) == w.cache.Attrs(p) { Untouched(w, w', p); }
    }
  }

  lemma SetattrFresh(w: World, op: Op, p: Path)
    requires FreshAt(w, p) && op.OpSetattr?
    ensures FreshAt(Next(w, op, w.clock), p)
  {
    if op.node in w.session.nodeToPath && op.attrs.Ok? && !w.config.readOnly {
      var q := w.session.nodeToPath[op.node];
      PutAttrsView(w.cache, q, op.attrs.value, p);
      hide CM.Cache.PutAttrs, CM.Cache.Attrs, FreshAt, Vouched;
      var w' := Next(w, op, w.clock);
      if p == q {
        Confirmed(w, w', p, SetattrEvent(q, w.clock, op.change, op.attrs));
      } else {
        Untouched(w, w', p);
      }
    } else {
      hide FreshAt, Vouched;
      Untouched(w, Next(w, op, w.clock), p);
    }
  }

  lemma FreshStep(w: World, op: Op, p: Path)
    requires FreshAt(w, p) && Tidy(w, op, p)
    ensures FreshAt(Next(w, op, w.clock), p)
  {
    hide Next, FreshAt, Tidy;
    match op
    case OpLookup(_, _, _) => LookupFresh(w, op, p);
    case OpGetattr(node, attrs) => GetattrFresh(w, node, attrs, p); NextGetattr(w, op);
    case OpReaddir(_, _) => ReaddirFresh(w, op, p);
    case OpOpen(_, _, _) => OpenFresh(w, op, p);
    case OpRead(_, _, _, _, _, _) => ReadFresh(w, op, p);
    case OpWrite(_, _, _, _) => WriteFresh(w, op, p);
    case OpRelease(_) => WriteFresh(w, op, p);
    case OpCreate(_, _, _) => CreateFresh(w, op, p);
    case OpMkdir(_, _, _) => CreateFresh(w, op, p);
    case OpUnlink(_, _, _) => RemoveFresh(w, op, p);
    case OpRmdir(_, _, _) => RemoveFresh(w, op, p);
    case OpRename(_, _, _, _, _) => RenameFresh(w, op, p);
    case OpSetattr(_, _, _) => SetattrFresh(w, op, p);
    case OpRestart(_, _, _, _) => RestartFresh(w, op, p);
  }

  lemma NextGetattr(w: World, op: Op)
    requires op.OpGetattr?
    ensures Next(w, op, w.clock) == Getattr(w, op.node, w.clock, op.attrs).0
  {
    hide Getattr;
  }

  lemma RestartFresh(w: World, op: Op, p: Path)
    requires op.OpRestart?
    ensures FreshAt(Next(w, op, w.clock), p)
  {
    hide CM.Cache.Reopen;
  }

  // ---- Whole runs ------------------------------------------------------------

  ghost predicate TidyRun(w: World, ops: seq<Timed>, p: Path)
    decreases |ops|
  {
    ops == [] || (Tidy(w.(clock := ops[0].now), ops[0].op, p) && TidyRun(Tick(w, ops[0].op, ops[0].now), ops[1..], p))
  }

  lemma Later(w: World, now: Time, p: Path)
    requires FreshAt(w, p) && w.clock <= now
    ensures FreshAt(w.(clock := now), p)
  {
    if w.cache.Attrs(p).Some? && Live(w.(clock := now), p) {
      var i, t :| 0 <= i < |w.log| && w.session.validated[p] <= t <= w.clock
        && Reports(w.log[i], p, w.cache.Attrs(p).value, t);
    }
  }

  lemma {:induction false} FreshRun(w: World, ops: seq<Timed>, w': World, p: Path)
    requires FreshAt(w, p) && Runs(w, ops, w') && TidyRun(w, ops, p)
    ensures FreshAt(w', p)
    decreases |ops|
  {
    if ops != [] {
      hide Next, FreshAt, Tidy;
      Later(w, ops[0].now, p);
      FreshStep(w.(clock := ops[0].now), ops[0].op, p);
      FreshRun(Tick(w, ops[0].op, ops[0].now), ops[1..], w', p);
    }
  }

  // ---- Stamps are never in the future, tidy or not ----------------------------

  ghost predicate StampPast(w: World, p: Path) {
    p in w.session.validated ==> w.session.validated[p] <= w.clock
  }

  /** The stamp of `p` is the old one, or new, or gone. */
  ghost predicate StampMoves(w: World, w': World, p: Path) {
    w'.clock == w.clock
    && (p in w'.session.validated ==>
          || w'.session.validated[p] == w.clock
          || (p in w.session.validated && w'.session.validated[p] == w.session.validated[p]))
  }

  lemma RevalidateStamps(w: World, w': World, q: Path, key: Option<(NodeId, string)>, reply: Result<FileAttributes>,
                         p: Path)
    requires Revalidates(w, w', q, key, reply)
    ensures StampMoves(w, w', p)
  {
    hide CM.Cache.PutAttrs, CM.Cache.Remove;
  }

  lemma GetattrStamps(w: World, node: NodeId, reply: Result<FileAttributes>, p: Path)
    ensures StampMoves(w, Getattr(w, node, w.clock, reply).0, p)
  {
    if node in w.session.nodeToPath {
      GetattrRevalidates(w, node, reply);
      RevalidateStamps(w, Getattr(w, node, w.clock, reply).0, w.session.nodeToPath[node], None, reply, p);
    }
  }

  lemma NameStamps(w: World, op: Op, p: Path)
    requires op.OpCreate? || op.OpMkdir? || op.OpUnlink? || op.OpRmdir? || op.OpRename?
    ensures StampMoves(w, Next(w, op, w.clock), p)
  {
    if Next(w, op, w.clock).log == w.log { QuietNames(w, op); }
    else if op.OpRename? { RenameEffect(w, op); }
    else if op.OpCreate? || op.OpMkdir? { CreateEffect(w, op); }
    else { RemoveEffect(w, op); }
    hide Next;
  }

  lemma FileStamps(w: World, op: Op, p: Path)
    requires op.OpOpen? || op.OpWrite? || op.OpRelease? || op.OpSetattr? || op.OpRead? || op.OpRestart?
    ensures StampMoves(w, Next(w, op, w.clock), p)
  {
    if op.OpRead? && op.handle in w.session.handles {
      GetattrStamps(w, w.session.handles[op.handle].node, op.attrs, p);
      hide Getattr, CM.Cache.Read, CM.Cache.ReadCached;
    } else {
      hide CM.Cache.InvalidateContent, CM.Cache.PutAttrs, CM.Cache.Reopen;
    }
  }

  lemma StampStep(w: World, op: Op, p: Path)
    ensures StampMoves(w, Next(w, op, w.clock), p)
  {
    match op
    case OpLookup(_, _, _) =>
      if ChildOf(w.session, op.parent, op.name).Ok? {
        LookupRevalidates(w, op);
        hide Next;
        var q := ChildOf(w.session, op.parent, op.name).value;
        RevalidateStamps(w, Next(w, op, w.clock), q, Some((op.parent, op.name)), op.attrs, p);
      }
    case OpGetattr(node, reply) =>
      GetattrStamps(w, node, reply, p);
      hide Getattr;
    case OpReaddir(_, _) =>
      if op.node in w.session.nodeToPath {
        ReaddirEffect(w, op);
        if op.listing.Ok? {
          StampAllView(w.session, w.session.nodeToPath[op.node], RealChildren(op.listing.value), w.clock, p);
        }
        hide Next, StampAll, RealChildren;
      }
    case OpCreate(_, _, _) => hide Next; NameStamps(w, op, p);
    case OpMkdir(_, _, _) => hide Next; NameStamps(w, op, p);
    case OpUnlink(_, _, _) => hide Next; NameStamps(w, op, p);
    case OpRmdir(_, _, _) => hide Next; NameStamps(w, op, p);
    case OpRename(_, _, _, _, _) => hide Next; NameStamps(w, op, p);
    case _ => hide Next; FileStamps(w, op, p);
  }

  lemma {:induction false} StampsRun(w: World, ops: seq<Timed>, w': World, p: Path)
    requires StampPast(w, p) && Runs(w, ops, w')
    ensures StampPast(w', p)
    decreases |ops|
  {
    if ops != [] {
      hide Next;
      StampStep(w.(clock := ops[0].now), ops[0].op, p);
      StampsRun(Tick(w, ops[0].op, ops[0].now), ops[1..], w', p);
    }
  }

  /**
   A run that is tidy for `p` from some moment on at which `p` has no live stamp: before it there was none, or it had
   expired, and anything at all may have happened.
   */
  ghost predicate TidySince(mount: World, before: seq<Timed>, w0: World, after: seq<Timed>, w: World, p: Path) {
    Runs(mount, before, w0) && !Live(w0, p) && Runs(w0, after, w) && TidyRun(w0, after, p)
  }

  lemma FreshSince(config: Config, cache: CM.Cache, before: seq<Timed>, w0: World, after: seq<Timed>, w: World, p: Path)
    requires TidySince(Mount(config, cache), before, w0, after, w, p)
    ensures FreshAt(w, p)
  {
    StampsRun(Mount(config, cache), before, w0, p);
    hide Runs, TidyRun;
    assert FreshAt(w0, p);
    FreshRun(w0, after, w, p);
  }

  // ---- What callers see ------------------------------------------------------

  /** The remote reported these attributes for this path less than the time-to-live ago. */
  ghost predicate Recent(w: World, p: Path, attrs: FileAttributes, now: Time) {
    exists i: int, t: Time :: 0 <= i < |w.log| && t <= now < t + w.config.ttl && Reports(w.log[i], p, attrs, t)
  }

  lemma StampedIsRecent(w: World, p: Path, now: Time)
    requires FreshAt(w, p) && w.clock <= now && w.MetadataFresh(p, now) && !w.IsOffline() && w.cache.Attrs(p).Some?
    ensures Recent(w, p, w.cache.Attrs(p).value, now)
  {
    var i, t :| 0 <= i < |w.log| && w.session.validated[p] <= t <= w.clock
      && Reports(w.log[i], p, w.cache.Attrs(p).value, t);
  }

  /**
   Freshness of `lookup`. After any run from a mount on any cache directory that has been tidy for the path since some
   moment at which the path had no live stamp, an online lookup that is answered without a remote call returns
   attributes the remote reported for that same path less than the time-to-live ago.
   */
  lemma LookupFreshness(config: Config, cache: CM.Cache, before: seq<Timed>, w0: World, after: seq<Timed>, w: World,
                        parent: NodeId, name: string, now: Time, reply: Result<FileAttributes>)
    requires w.clock <= now && !w.IsOffline() && ChildOf(w.session, parent, name).Ok?
    requires TidySince(Mount(config, cache), before, w0, after, w, ChildOf(w.session, parent, name).value)
    requires Lookup(w, parent, name, now, reply).1.Ok? && Lookup(w, parent, name, now, reply).0.log == w.log
    ensures Recent(w, ChildOf(w.session, parent, name).value, Lookup(w, parent, name, now, reply).1.value.attributes,
                   now)
  {
    var p := ChildOf(w.session, parent, name).value;
    FreshSince(config, cache, before, w0, after, w, p);
    hide TidySince, FreshAt, Recent, ChildOf, Intern, CM.Cache.PutAttrs, CM.Cache.Remove, CM.Cache.Attrs;
    StampedIsRecent(w, p, now);
  }

  /** Freshness of `getattr`, likewise. */
  lemma GetattrFreshness(config: Config, cache: CM.Cache, before: seq<Timed>, w0: World, after: seq<Timed>, w: World,
                         node: NodeId, now: Time, reply: Result<FileAttributes>)
    requires w.clock <= now && !w.IsOffline() && node in w.session.nodeToPath
    requires TidySince(Mount(config, cache), before, w0, after, w, w.session.nodeToPath[node])
    requires Getattr(w, node, now, reply).1.Ok? && Getattr(w, node, now, reply).0.log == w.log
    ensures Recent(w, w.session.nodeToPath[node], Getattr(w, node, now, reply).1.value.attributes, now)
  {
    var p := w.session.nodeToPath[node];
    FreshSince(config, cache, before, w0, after, w, p);
    hide TidySince, FreshAt, Recent, CM.Cache.PutAttrs, CM.Cache.Remove, CM.Cache.Attrs;
    StampedIsRecent(w, p, now);
  }

  // ---- Listings served from the cache ----------------------------------------

  lemma {:induction false} CachedChildrenAttrs(cache: CM.Cache, dir: Path, names: seq<string>)
    ensures var r := CachedChildren(cache, dir, names);
      r.Some? ==> forall i :: 0 <= i < |r.value| ==>
        Join(dir, r.value[i].0).Ok? && cache.Attrs(Join(dir, r.value[i].0).value) == Some(r.value[i].1)
    decreases |names|
  {
    if names != [] {
      hide Join, CM.Cache.Attrs;
      CachedChildrenAttrs(cache, dir, names[..|names| - 1]);
    }
  }

  lemma {:induction false} InternAllEntries(s: Session, dir: Path, children: Listing)
    ensures var entries := InternAll(s, dir, children).1;
      && |entries| == |children|
      && forall i :: 0 <= i < |entries| ==>
        entries[i].name == children[i].0 && entries[i].metadata.attributes == children[i].1
    decreases |children|
  {
    if children != [] {
      hide Child, Intern;
      InternAllEntries(s, dir, children[..|children| - 1]);
    }
  }

  lemma CachedEntries(w: World, dir: Path)
    requires ReaddirFromCache(w, dir).Some?
    ensures var entries := ReaddirFromCache(w, dir).value.1;
      forall i :: 0 <= i < |entries| ==>
        && Join(dir, entries[i].name).Ok?
        && w.cache.Attrs(Join(dir, entries[i].name).value) == Some(entries[i].metadata.attributes)
  {
    hide Join, CM.Cache.Attrs, CachedChildren, InternAll;
    var names := w.cache.Children(dir).value;
    CachedChildrenAttrs(w.cache, dir, names);
    InternAllEntries(w.session, dir, CachedChildren(w.cache, dir, names).value);
  }
}
