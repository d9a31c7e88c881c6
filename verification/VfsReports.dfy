/** When the attributes in a cached listing are fresh, and when they are not: reports and stamps, both ways. */
module VfsReports {
  import opened Base
  import opened RemotePaths
  import CM = CacheModel
  import opened VfsModel
  import opened VfsViews
  import opened VfsFreshness

  // ---- Every report leaves a stamp ----------------------------------------------

  /** The operations that take the stamp of `p` away, or report `p` in a listing that ends in an error. */
  ghost predicate Unstamps(w: World, op: Op, p: Path) {
    match op
    case OpWrite(handle, _, _, written) =>
      written.Ok? && handle in w.session.handles && w.session.handles[handle].path == p
    case OpOpen(node, flags, attrs) => flags.truncate && attrs.Ok? && PathOf(w.session, node) == Ok(p)
    case OpRename(parent, name, _, _, done) => done.Ok? && ChildOf(w.session, parent, name) == Ok(p)
    case OpReaddir(node, listing) =>
      && PathOf(w.session, node).Ok? && listing.Ok? && Readdir(w, node, w.clock, listing).1.Err?
      && Mentions(RealChildren(listing.value), PathOf(w.session, node).value, p)
    case OpRestart(_, _, _, _) => true
    case _ => false
  }

  ghost predicate StampsKept(w: World, ops: seq<Timed>, p: Path)
    decreases |ops|
  {
    ops == [] ||
    (&& !Unstamps(w.(clock := ops[0].now), ops[0].op, p)
     && StampsKept(Tick(w, ops[0].op, ops[0].now), ops[1..], p))
  }

  /** What the log reports about `p` is more than the time-to-live old. */
  ghost predicate Expired(log: seq<Event>, p: Path, ttl: Time, now: Time) {
    forall i: int, t: Time, a :: 0 <= i < |log| && Reports(log[i], p, a, t) ==> t + ttl <= now
  }

  /** What was reported about `p` from position `since` on is no later than its stamp. */
  ghost predicate Covered(w: World, p: Path, since: nat) {
    forall i: int, t: Time, a :: since <= i < |w.log| && Reports(w.log[i], p, a, t) ==>
      p in w.session.validated && t <= w.session.validated[p]
  }

  /** The stamp of `p` was not taken away. */
  ghost predicate StampStays(w: World, w': World, p: Path) {
    && w'.config == w.config && w'.clock == w.clock
    && (p in w.session.validated ==>
          p in w'.session.validated
          && (w'.session.validated[p] == w.clock || w'.session.validated[p] == w.session.validated[p]))
  }

  lemma CoveredOne(w: World, w': World, p: Path, since: nat, e: Event)
    requires Covered(w, p, since) && StampPast(w, p) && StampStays(w, w', p) && since <= |w.log|
    requires w'.log == w.log || w'.log == w.log + [e]
    requires forall t: Time, a :: Reports(e, p, a, t) ==>
      w'.log == w.log || (p in w'.session.validated && t <= w'.session.validated[p])
    ensures Covered(w', p, since)
  {
    hide Reports;
    forall i: int, t: Time, a | since <= i < |w'.log| && Reports(w'.log[i], p, a, t)
      ensures p in w'.session.validated && t <= w'.session.validated[p]
    {
      if i < |w.log| { assert w'.log[i] == w.log[i]; }
    }
  }

  lemma RevalidateCovered(w: World, w': World, q: Path, key: Option<(NodeId, string)>, reply: Result<FileAttributes>,
                          p: Path, since: nat)
    requires Revalidates(w, w', q, key, reply) && Covered(w, p, since) && StampPast(w, p) && since <= |w.log|
    ensures Covered(w', p, since) && StampStays(w, w', p) && since <= |w'.log|
  {
    hide CM.Cache.PutAttrs, CM.Cache.Remove, Covered;
    CoveredOne(w, w', p, since, StatEvent(q, w.clock, key, reply));
  }

  lemma GetattrCovered(w: World, node: NodeId, reply: Result<FileAttributes>, p: Path, since: nat)
    requires Covered(w, p, since) && StampPast(w, p) && since <= |w.log|
    ensures var w' := Getattr(w, node, w.clock, reply).0;
      Covered(w', p, since) && StampStays(w, w', p) && since <= |w'.log|
  {
    if node in w.session.nodeToPath {
      GetattrRevalidates(w, node, reply);
      hide Getattr, Covered, Revalidates;
      RevalidateCovered(w, Getattr(w, node, w.clock, reply).0, w.session.nodeToPath[node], None, reply, p, since);
    }
  }

  lemma MentionsReal(listing: Listing, dir: Path, p: Path, a: FileAttributes)
    requires Lists(listing, dir, p, a)
    ensures Mentions(RealChildren(listing), dir, p)
  {
    RealChildrenIn(listing);
    var i :| 0 <= i < |listing| && Join(dir, listing[i].0) == Ok(p) && listing[i].1 == a;
    assert listing[i] in RealChildren(listing);
    var j :| 0 <= j < |RealChildren(listing)| && RealChildren(listing)[j] == listing[i];
  }

  lemma ReaddirCovered(w: World, op: Op, p: Path, since: nat)
    requires op.OpReaddir? && Covered(w, p, since) && StampPast(w, p) && since <= |w.log| && !Unstamps(w, op, p)
    ensures Covered(Next(w, op, w.clock), p, since)
  {
    if op.node in w.session.nodeToPath {
      ReaddirEffect(w, op);
      var w', dir := Next(w, op, w.clock), w.session.nodeToPath[op.node];
      var e := ReadDirEvent(dir, w.clock, op.listing);
      if w'.log != w.log && op.listing.Ok? {
        var children := RealChildren(op.listing.value);
        StampAllView(w.session, dir, children, w.clock, p);
        assert Mentions(children, dir, p) ==> StampAll(w.session, dir, children, w.clock).1.Ok? by {
          CachedStamps(w, dir);
          hide ReaddirFromCache, StampAll, RealChildren, Mentions, CM.Cache.RecordListing;
        }
        forall a | Lists(op.listing.value, dir, p, a)
          ensures Mentions(children, dir, p)
        {
          MentionsReal(op.listing.value, dir, p, a);
        }
      }
      hide Next, Unstamps, StampAll, RealChildren, Lists, Mentions, Covered, CM.Cache.RecordListing;
      CoveredOne(w, w', p, since, e);
    }
  }

  lemma NameCovered(w: World, op: Op, p: Path, since: nat)
    requires op.OpCreate? || op.OpMkdir? || op.OpUnlink? || op.OpRmdir? || op.OpRename?
    requires Covered(w, p, since) && StampPast(w, p) && since <= |w.log| && !Unstamps(w, op, p)
    ensures Covered(Next(w, op, w.clock), p, since)
  {
    if Next(w, op, w.clock).log == w.log {
      QuietNames(w, op);
    } else {
      if op.OpRename? { RenameEffect(w, op); }
      else if op.OpCreate? || op.OpMkdir? { CreateEffect(w, op); }
      else { RemoveEffect(w, op); }
      hide Next, ChildOf, Covered, CM.Cache.PutAttrs, CM.Cache.Remove, CM.Cache.Rename, CM.Cache.InvalidateChildren;
      var w' := Next(w, op, w.clock);
      CoveredOne(w, w', p, since, w'.log[|w.log|]);
    }
  }

  lemma FileCovered(w: World, op: Op, p: Path, since: nat)
    requires op.OpOpen? || op.OpWrite? || op.OpRelease? || op.OpSetattr?
    requires Covered(w, p, since) && StampPast(w, p) && since <= |w.log| && !Unstamps(w, op, p)
    ensures Covered(Next(w, op, w.clock), p, since)
  {
    hide Covered, CM.Cache.InvalidateContent, CM.Cache.PutAttrs;
    var w' := Next(w, op, w.clock);
    CoveredOne(w, w', p, since, if w'.log == w.log then WriteEvent("", 0, [], Ok(0)) else w'.log[|w.log|]);
  }

  lemma ReadCovered(w: World, op: Op, p: Path, since: nat)
    requires op.OpRead? && Covered(w, p, since) && StampPast(w, p) && since <= |w.log|
    ensures Covered(Next(w, op, w.clock), p, since)
  {
    if op.handle in w.session.handles {
      var file := w.session.handles[op.handle];
      GetattrCovered(w, file.node, op.attrs, p, since);
      var w1, w' := Getattr(w, file.node, w.clock, op.attrs).0, Next(w, op, w.clock);
      assert w'.session == w.session || w'.session == w1.session by {
        hide Getattr, CM.Cache.Read, CM.Cache.ReadCached;
      }
      var base := if w.config.mode.OnDemand? || w.config.mode.Pinned? then w1 else w;
      assert base.log <= w'.log && w'.session == base.session
        && (forall i :: |base.log| <= i < |w'.log| ==> w'.log[i].ContentEvent?) by {
        hide Getattr, CM.Cache.Read, CM.Cache.ReadCached;
      }
      hide Next, Getattr, Lists;
      forall i: int, t: Time, a | since <= i < |w'.log| && Reports(w'.log[i], p, a, t)
        ensures p in w'.session.validated && t <= w'.session.validated[p]
      {
        if i < |base.log| { assert w'.log[i] == base.log[i]; }
      }
    }
  }

  lemma CoveredStep(w: World, op: Op, p: Path, since: nat)
    requires Covered(w, p, since) && StampPast(w, p) && since <= |w.log| && !Unstamps(w, op, p)
    ensures Covered(Next(w, op, w.clock), p, since)
  {
    match op
    case OpLookup(_, _, _) =>
      if ChildOf(w.session, op.parent, op.name).Ok? {
        LookupRevalidates(w, op);
        hide Next, Covered;
        var q := ChildOf(w.session, op.parent, op.name).value;
        RevalidateCovered(w, Next(w, op, w.clock), q, Some((op.parent, op.name)), op.attrs, p, since);
      }
    case OpGetattr(node, reply) =>
      GetattrCovered(w, node, reply, p, since);
      hide Getattr, Covered;
    case OpReaddir(_, _) => hide Next, Covered, Unstamps; ReaddirCovered(w, op, p, since);
    case OpRead(_, _, _, _, _, _) => hide Next, Covered; ReadCovered(w, op, p, since);
    case OpOpen(_, _, _) => hide Next, Covered, Unstamps; FileCovered(w, op, p, since);
    case OpWrite(_, _, _, _) => hide Next, Covered, Unstamps; FileCovered(w, op, p, since);
    case OpRelease(_) => hide Next, Covered, Unstamps; FileCovered(w, op, p, since);
    case OpSetattr(_, _, _) => hide Next, Covered, Unstamps; FileCovered(w, op, p, since);
    case OpRestart(_, _, _, _) =>
    case _ => hide Next, Covered, Unstamps; NameCovered(w, op, p, since);
  }

  lemma LogGrows(w: World, op: Op)
    ensures w.log <= Next(w, op, w.clock).log
  {
    hide Join, Intern, ReaddirFromCache, ChildOf, StampAll, RealChildren, CM.Cache.RecordListing, CM.Cache.PutAttrs,
      CM.Cache.Remove, CM.Cache.InvalidateContent, CM.Cache.InvalidateChildren, CM.Cache.Rename, CM.Cache.Read,
      CM.Cache.ReadCached, CM.Cache.Attrs;
    if op.OpReaddir? && op.node in w.session.nodeToPath { ReaddirEffect(w, op); }
  }

  lemma {:induction false} CoveredRun(w: World, ops: seq<Timed>, w': World, p: Path, since: nat)
    requires Covered(w, p, since) && StampPast(w, p) && since <= |w.log| && Runs(w, ops, w') && StampsKept(w, ops, p)
    ensures Covered(w', p, since) && w.log <= w'.log
    decreases |ops|
  {
    if ops != [] {
      hide Next, Unstamps, Covered;
      var w0 := w.(clock := ops[0].now);
      assert Covered(w0, p, since) by { SameLogCovered(w, w0, p, since); }
      CoveredStep(w0, ops[0].op, p, since);
      StampStep(w0, ops[0].op, p);
      LogGrows(w0, ops[0].op);
      CoveredRun(Tick(w, ops[0].op, ops[0].now), ops[1..], w', p, since);
    }
  }

  lemma SameLogCovered(w: World, w': World, p: Path, since: nat)
    requires Covered(w, p, since) && w'.log == w.log && w'.session == w.session
    ensures Covered(w', p, since)
  {
    hide Reports;
  }

  /** Without a live stamp nothing recent is known. */
  lemma UnstampedIsOld(w: World, p: Path, earlier: seq<Event>, now: Time, attrs: FileAttributes)
    requires Covered(w, p, |earlier|) && earlier <= w.log && Expired(earlier, p, w.config.ttl, now)
    requires !w.IsOffline() && !w.MetadataFresh(p, now)
    ensures !Recent(w, p, attrs, now)
  {
    hide Reports;
    forall i: int, t: Time | 0 <= i < |w.log| && t <= now && Reports(w.log[i], p, attrs, t)
      ensures t + w.config.ttl <= now
    {
      if i < |earlier| { assert w.log[i] == earlier[i]; }
    }
  }

  // ---- Listings served from the cache ----------------------------------------

  /**
   Freshness of a listing served without a remote call: an entry's attributes are fresh if the entry's own stamp is
   live, and only if it is, once older reports have expired and as long as nothing has taken the stamp away. The
   directory's stamp, which decides that the listing is served, does not vouch for them.
   */
  lemma CachedListingFreshness(config: Config, cache: CM.Cache, before: seq<Timed>, w0: World, after: seq<Timed>,
                               w: World, node: NodeId, now: Time, reply: Result<Listing>, i: nat)
    requires w.clock <= now && !w.IsOffline()
    requires Readdir(w, node, now, reply).1.Ok? && Readdir(w, node, now, reply).0.log == w.log
    requires i < |Readdir(w, node, now, reply).1.value| && node in w.session.nodeToPath
    ensures var dir, e := w.session.nodeToPath[node], Readdir(w, node, now, reply).1.value[i];
      && Join(dir, e.name).Ok?
      && var p := Join(dir, e.name).value;
        TidySince(Mount(config, cache), before, w0, after, w, p) ==>
          && (w.MetadataFresh(p, now) ==> Recent(w, p, e.metadata.attributes, now))
          && (StampsKept(w0, after, p) && Expired(w0.log, p, w.config.ttl, now) && !w.MetadataFresh(p, now) ==>
                !Recent(w, p, e.metadata.attributes, now))
  {
    var dir := w.session.nodeToPath[node];
    assert ReaddirFromCache(w, dir).Some? && Readdir(w, node, now, reply).1 == Ok(ReaddirFromCache(w, dir).value.1) by {
      CachedStamps(w.Logged(ReadDirEvent(dir, now, reply)), dir);
      hide ReaddirFromCache, StampAll, RealChildren, CM.Cache.RecordListing;
    }
    CachedEntries(w, dir);
    hide Readdir, ReaddirFromCache, Recent, Join, CM.Cache.Attrs;
    var e := Readdir(w, node, now, reply).1.value[i];
    var p := Join(dir, e.name).value;
    if TidySince(Mount(config, cache), before, w0, after, w, p) {
      FreshSince(config, cache, before, w0, after, w, p);
      StampsRun(Mount(config, cache), before, w0, p);
      if w.MetadataFresh(p, now) {
        StampedIsRecent(w, p, now);
      } else if StampsKept(w0, after, p) && Expired(w0.log, p, w.config.ttl, now) {
        CoveredRun(w0, after, w, p, |w0.log|);
        hide TidySince, FreshAt, StampsKept;
        UnstampedIsOld(w, p, w0.log, now, e.metadata.attributes);
      }
    }
  }
}
