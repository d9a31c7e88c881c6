/** Soundness of the negative cache, over every run. */
module VfsNegative {
  import opened Base
  import opened RemotePaths
  import CM = CacheModel
  import opened VfsModel
  import N = VfsNodes

  type Key = (NodeId, string)

  /** At time `t` the remote reported the name missing, or this mount removed it or renamed it away. */
  ghost predicate Misses(e: Event, key: Key, t: Time) {
    match e
    case StatEvent(_, at, k, reply) => k == Some(key) && at == t && reply == Err(NotFound)
    case UnlinkEvent(_, at, k, done) => k == Some(key) && at == t && done.Ok?
    case RmdirEvent(_, at, k, done) => k == Some(key) && at == t && done.Ok?
    case RenameEvent(_, at, k, _, _, done) => k == Some(key) && at == t && done.Ok?
    case _ => false
  }

  /** The name was seen to exist, or this mount created it or renamed something to it. */
  ghost predicate Restores(e: Event, key: Key) {
    match e
    case StatEvent(_, _, k, reply) => k == Some(key) && reply.Ok?
    case CreateEvent(_, _, k, reply) => k == Some(key) && reply.Ok?
    case MkdirEvent(_, _, k, reply) => k == Some(key) && reply.Ok?
    case RenameEvent(_, _, _, _, k, done) => k == key && done.Ok?
    case _ => false
  }

  /** Event `i` shows the name missing at `t`, and nothing since has brought it back. */
  ghost predicate MissingSince(log: seq<Event>, i: nat, key: Key, t: Time) {
    i < |log| && Misses(log[i], key, t) && forall j :: i <= j < |log| ==> !Restores(log[j], key)
  }

  ghost predicate Grounded(log: seq<Event>, key: Key, t: Time) {
    exists i: nat :: MissingSince(log, i, key, t)
  }

  /** A negative entry for `key` was made by an event that still stands. */
  ghost predicate NegativeOk(w: World, key: Key) {
    key in w.session.negative ==> w.session.negative[key] <= w.clock && Grounded(w.log, key, w.session.negative[key])
  }

  // ---- Each operation --------------------------------------------------------

  lemma GroundedAppend(log: seq<Event>, events: seq<Event>, key: Key, t: Time)
    requires Grounded(log, key, t) && forall e :: e in events ==> !Restores(e, key)
    ensures Grounded(log + events, key, t)
  {
    var i: nat :| MissingSince(log, i, key, t);
    var log' := log + events;
    forall j | i <= j < |log'|
      ensures !Restores(log'[j], key)
    {
      if j >= |log| { assert log'[j] in events; }
    }
    assert MissingSince(log', i, key, t);
  }

  lemma GroundedLast(log: seq<Event>, e: Event, key: Key, t: Time)
    requires Misses(e, key, t) && !Restores(e, key)
    ensures Grounded(log + [e], key, t)
  {
    assert MissingSince(log + [e], |log|, key, t);
  }

  /** The operation left this key alone, or forgot it. */
  lemma Kept(w: World, w': World, events: seq<Event>, key: Key)
    requires NegativeOk(w, key) && w'.clock == w.clock && w'.log == w.log + events
    requires key in w'.session.negative ==>
      key in w.session.negative && w'.session.negative[key] == w.session.negative[key]
    requires key in w'.session.negative ==> forall e :: e in events ==> !Restores(e, key)
    ensures NegativeOk(w', key)
  {
    if key in w'.session.negative { GroundedAppend(w.log, events, key, w.session.negative[key]); }
  }

  /** The operation recorded the key as missing now. */
  lemma Noted(w: World, w': World, e: Event, key: Key)
    requires w'.clock == w.clock && w'.log == w.log + [e]
    requires key in w'.session.negative && w'.session.negative[key] == w.clock
    requires Misses(e, key, w.clock) && !Restores(e, key)
    ensures NegativeOk(w', key)
  {
    GroundedLast(w.log, e, key, w.clock);
  }

  lemma InternNegative(s: Session, p: Path)
    ensures Intern(s, p).0.negative == s.negative
  {
  }

  lemma LookupNegative(w: World, op: Op, key: Key)
    requires NegativeOk(w, key) && op.OpLookup?
    ensures NegativeOk(Next(w, op, w.clock), key)
  {
    var child := ChildOf(w.session, op.parent, op.name);
    if child.Ok? {
      var k := (op.parent, op.name);
      InternNegative(w.session, child.value);
      InternNegative(w.session.(validated := w.session.validated[child.value := w.clock],
                                negative := w.session.negative - {k}), child.value);
      hide ChildOf, Intern, CM.Cache.PutAttrs, CM.Cache.Remove, CM.Cache.Attrs, NegativeOk;
      var w' := Next(w, op, w.clock);
      var e := StatEvent(child.value, w.clock, Some(k), op.attrs);
      if w'.log == w.log {
        assert w'.log == w.log + [];
        Kept(w, w', [], key);
      } else if key == k && op.attrs == Err(NotFound) {
        Noted(w, w', e, key);
      } else {
        Kept(w, w', [e], key);
      }
    }
  }

  lemma GetattrNegative(w: World, node: NodeId, reply: Result<FileAttributes>, key: Key)
    requires NegativeOk(w, key)
    ensures NegativeOk(Getattr(w, node, w.clock, reply).0, key)
  {
    var w' := Getattr(w, node, w.clock, reply).0;
    hide NegativeOk, CM.Cache.PutAttrs, CM.Cache.Remove, CM.Cache.Attrs;
    if w'.log == w.log {
      assert w'.log == w.log + [];
      Kept(w, w', [], key);
    } else {
      Kept(w, w', [StatEvent(w.session.nodeToPath[node], w.clock, None, reply)], key);
    }
  }

  lemma {:induction false} InternAllNegative(s: Session, dir: Path, children: Listing)
    ensures InternAll(s, dir, children).0.negative == s.negative
    decreases |children|
  {
    if children != [] { InternAllNegative(s, dir, children[..|children| - 1]); }
  }

  lemma {:induction false} StampAllNegative(s: Session, dir: Path, children: Listing, now: Time)
    ensures StampAll(s, dir, children, now).0.negative == s.negative
    decreases |children|
  {
    if children != [] { StampAllNegative(s, dir, children[..|children| - 1], now); }
  }

  lemma CachedNegative(w: World, dir: Path)
    ensures ReaddirFromCache(w, dir).Some? ==>
      var w' := ReaddirFromCache(w, dir).value.0;
      w' == w.(session := w'.session) && w'.session.negative == w.session.negative
  {
    if ReaddirFromCache(w, dir).Some? {
      InternAllNegative(w.session, dir, CachedChildren(w.cache, dir, w.cache.Children(dir).value).value);
    }
  }

  lemma ReaddirNegative(w: World, op: Op, key: Key)
    requires NegativeOk(w, key) && op.OpReaddir?
    ensures NegativeOk(Next(w, op, w.clock), key)
  {
    if op.node in w.session.nodeToPath {
      var dir := w.session.nodeToPath[op.node];
      var e := ReadDirEvent(dir, w.clock, op.listing);
      CachedNegative(w, dir);
      CachedNegative(w.Logged(e), dir);
      if op.listing.Ok? { StampAllNegative(w.session, dir, RealChildren(op.listing.value), w.clock); }
      hide ReaddirFromCache, CM.Cache.RecordListing, StampAll, RealChildren, NegativeOk;
      var w' := Next(w, op, w.clock);
      if w'.log == w.log {
        assert w'.log == w.log + [];
        Kept(w, w', [], key);
      } else {
        Kept(w, w', [e], key);
      }
    }
  }

  lemma FileNegative(w: World, op: Op, key: Key)
    requires NegativeOk(w, key) && (op.OpOpen? || op.OpWrite? || op.OpRelease? || op.OpSetattr?)
    ensures NegativeOk(Next(w, op, w.clock), key)
  {
    hide CM.Cache.InvalidateContent, CM.Cache.PutAttrs, NegativeOk;
    var w' := Next(w, op, w.clock);
    if w'.log == w.log {
      assert w'.log == w.log + [];
      Kept(w, w', [], key);
    } else {
      Kept(w, w', [w'.log[|w.log|]], key);
    }
  }

  lemma ReadNegative(w: World, op: Op, key: Key)
    requires NegativeOk(w, key) && op.OpRead?
    ensures NegativeOk(Next(w, op, w.clock), key)
  {
    if op.handle in w.session.handles {
      var file := w.session.handles[op.handle];
      GetattrNegative(w, file.node, op.attrs, key);
      hide Getattr, CM.Cache.Read, CM.Cache.ReadCached, ContentEvents, NegativeOk;
      var w' := Next(w, op, w.clock);
      var (w1, meta) := Getattr(w, file.node, w.clock, op.attrs);
      if w.config.mode.Remote? {
        Kept(w, w', [ContentEvent(CM.ReadEvent(file.path, op.offset, op.size, op.direct))], key);
      } else if !w.config.mode.Offline? && meta.Ok? {
        var events :=
          ContentEvents(w1.cache.Read(file.path, meta.value.attributes, op.offset, op.size, op.script).events);
        ContentNegative(w1.cache.Read(file.path, meta.value.attributes, op.offset, op.size, op.script).events, key);
        Kept(w1, w', events, key);
      }
    }
  }

  lemma ContentNegative(events: seq<CM.ReadEvent>, key: Key)
    ensures forall e :: e in ContentEvents(events) ==> !Restores(e, key)
  {
  }

  lemma CreateNegative(w: World, op: Op, key: Key)
    requires NegativeOk(w, key) && (op.OpCreate? || op.OpMkdir?)
    ensures NegativeOk(Next(w, op, w.clock), key)
  {
    var child := ChildOf(w.session, op.parent, op.name);
    if child.Ok? && !w.config.readOnly {
      var k := (op.parent, op.name);
      var e := if op.OpCreate? then CreateEvent(child.value, w.clock, Some(k), op.attrs)
        else MkdirEvent(child.value, w.clock, Some(k), op.attrs);
      InternNegative(w.session.(validated := w.session.validated[child.value := w.clock],
                                negative := w.session.negative - {k}), child.value);
      hide ChildOf, Intern, CM.Cache.PutAttrs, CM.Cache.InvalidateChildren, NegativeOk;
      Kept(w, Next(w, op, w.clock), [e], key);
    }
  }

  lemma RemoveNegative(w: World, op: Op, key: Key)
    requires NegativeOk(w, key) && (op.OpUnlink? || op.OpRmdir?)
    ensures NegativeOk(Next(w, op, w.clock), key)
  {
    var child := ChildOf(w.session, op.parent, op.name);
    if child.Ok? && !w.config.readOnly {
      var k := (op.parent, op.name);
      var e := if op.OpUnlink? then UnlinkEvent(child.value, w.clock, Some(k), op.done)
        else RmdirEvent(child.value, w.clock, Some(k), op.done);
      hide ChildOf, CM.Cache.Remove, CM.Cache.InvalidateChildren, NegativeOk;
      var w' := Next(w, op, w.clock);
      if key == k && op.done.Ok? { Noted(w, w', e, key); } else { Kept(w, w', [e], key); }
    }
  }

  lemma RenameNegative(w: World, op: Op, key: Key)
    requires NegativeOk(w, key) && op.OpRename?
    ensures NegativeOk(Next(w, op, w.clock), key)
  {
    var from, to := ChildOf(w.session, op.parent, op.name), ChildOf(w.session, op.newParent, op.newName);
    if from.Ok? && to.Ok? && !w.config.readOnly {
      var k, k' := (op.parent, op.name), (op.newParent, op.newName);
      var e := RenameEvent(from.value, w.clock, Some(k), to.value, k', op.done);
      hide ChildOf, RenamePath, CM.Cache.Rename, CM.Cache.InvalidateChildren, NegativeOk;
      RenamePathNegative(w.session, from.value, to.value);
      var w' := Next(w, op, w.clock);
      if key == k && key != k' && op.done.Ok? { Noted(w, w', e, key); } else { Kept(w, w', [e], key); }
    }
  }

  lemma RenamePathNegative(s: Session, from: Path, to: Path)
    ensures RenamePath(s, from, to).negative == s.negative
  {
  }

  lemma NegativeStep(w: World, op: Op, key: Key)
    requires NegativeOk(w, key)
    ensures NegativeOk(Next(w, op, w.clock), key)
  {
    hide NegativeOk, Lookup, Getattr, Readdir, Open, Read, Write, Release, Create, Mkdir, Unlink, Rmdir, Rename,
      Setattr;
    match op
    case OpLookup(_, _, _) => LookupNegative(w, op, key);
    case OpGetattr(node, attrs) => GetattrNegative(w, node, attrs, key);
    case OpReaddir(_, _) => ReaddirNegative(w, op, key);
    case OpRead(_, _, _, _, _, _) => ReadNegative(w, op, key);
    case OpCreate(_, _, _) => CreateNegative(w, op, key);
    case OpMkdir(_, _, _) => CreateNegative(w, op, key);
    case OpUnlink(_, _, _) => RemoveNegative(w, op, key);
    case OpRmdir(_, _, _) => RemoveNegative(w, op, key);
    case OpRename(_, _, _, _, _) => RenameNegative(w, op, key);
    case OpRestart(_, _, _, _) => RestartNegative(w, op, key);
    case _ => FileNegative(w, op, key);
  }

  lemma RestartNegative(w: World, op: Op, key: Key)
    requires op.OpRestart?
    ensures NegativeOk(Next(w, op, w.clock), key)
  {
    hide CM.Cache.Reopen;
  }

  // ---- Whole runs ------------------------------------------------------------

  lemma {:induction false} NegativeRun(w: World, ops: seq<Timed>, w': World, key: Key)
    requires NegativeOk(w, key) && Runs(w, ops, w')
    ensures NegativeOk(w', key)
    decreases |ops|
  {
    if ops != [] {
      hide Next;
      NegativeStep(w.(clock := ops[0].now), ops[0].op, key);
      NegativeRun(Tick(w, ops[0].op, ops[0].now), ops[1..], w', key);
    }
  }

  /**
   Soundness of cached absence. After any run from a mount, an online lookup that answers not-found without a
   remote call is backed by an event on this very name, less than the time-to-live and less than one second ago,
   in which the remote reported it missing or this mount removed it or renamed it away; and no later lookup found
   it, and no later create, mkdir or rename made it again.
   */
  lemma NegativeSound(config: Config, cache: CM.Cache, ops: seq<Timed>, w: World, parent: NodeId, name: string,
                      now: Time, reply: Result<FileAttributes>)
    requires Runs(Mount(config, cache), ops, w) && w.clock <= now && !w.IsOffline()
    requires ChildOf(w.session, parent, name).Ok?
    requires Lookup(w, parent, name, now, reply).1 == Err(NotFound)
    requires Lookup(w, parent, name, now, reply).0.log == w.log
    ensures exists i: nat, t: Time ::
      MissingSince(w.log, i, (parent, name), t) && t <= now < t + w.config.ttl && now < t + NEGATIVE_TTL_CAP
  {
    var key := (parent, name);
    NegativeRun(Mount(config, cache), ops, w, key);
    hide Runs, ChildOf, Intern, CM.Cache.PutAttrs, CM.Cache.Remove, CM.Cache.Attrs, MissingSince;
    assert key in w.session.negative && w.NegativeFresh(w.session.negative[key], now);
    var t := w.session.negative[key];
    var i: nat :| MissingSince(w.log, i, key, t);
  }

  /** The other side: a name this mount has just made, or just seen, is never answered from the negative cache. */
  lemma RestoredIsAsked(config: Config, cache: CM.Cache, ops: seq<Timed>, w: World, parent: NodeId, name: string,
                        i: nat)
    requires Runs(Mount(config, cache), ops, w) && i < |w.log| && Restores(w.log[i], (parent, name))
    requires forall j: nat, t: Time :: i < j < |w.log| ==> !Misses(w.log[j], (parent, name), t)
    ensures (parent, name) !in w.session.negative
  {
    var key := (parent, name);
    NegativeRun(Mount(config, cache), ops, w, key);
    hide Runs;
    assert forall k: nat, t: Time :: !MissingSince(w.log, k, key, t);
  }

  /**
   What does not bring a name back: a listing, even one that shows it. While the negative entry is trusted the name
   stays missing to lookups, and no call is made.
   */
  lemma ListingDoesNotRestore(w: World, op: Op, parent: NodeId, name: string, now: Time, reply: Result<FileAttributes>)
    requires N.SessionOk(w) && op.OpReaddir? && ChildOf(w.session, parent, name).Ok?
    requires (parent, name) in w.session.negative && w.NegativeFresh(w.session.negative[(parent, name)], now)
    ensures Lookup(Next(w, op, w.clock), parent, name, now, reply) == (Next(w, op, w.clock), Err(NotFound))
  {
    var w' := Next(w, op, w.clock);
    N.ReaddirNodes(w, op, w.clock);
    N.SameConfig(w, op, w.clock);
    assert parent in w.session.nodeToPath;
    assert w'.session.negative == w.session.negative by {
      if op.node in w.session.nodeToPath {
        var dir := w.session.nodeToPath[op.node];
        CachedNegative(w, dir);
        CachedNegative(w.Logged(ReadDirEvent(dir, w.clock, op.listing)), dir);
        if op.listing.Ok? { StampAllNegative(w.session, dir, RealChildren(op.listing.value), w.clock); }
        hide ReaddirFromCache, CM.Cache.RecordListing, StampAll, RealChildren;
      }
    }
    hide Next, Join, N.NodeTable, CM.Cache.Attrs, CM.Cache.PutAttrs, CM.Cache.Remove, Intern;
  }
}
