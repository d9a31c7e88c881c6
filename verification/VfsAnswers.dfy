/**
 What the callers of the filesystem are told: which calls an operation makes, and how its answer follows from theirs and
 from what is cached. A reachable server is always authoritative.
 */
module VfsAnswers {
  import opened Base
  import opened RemotePaths
  import CM = CacheModel
  import opened CacheAnswers
  import opened VfsModel
  import opened VfsViews
  import I = CacheIndex
  import R = VfsRemote
  import G = VfsGuarantees
  import O = VfsOffline
  import D = VfsDurable
  import L = VfsLimits

  /** The node that the tables have for `p`. */
  ghost predicate Names(s: Session, node: NodeId, p: Path) { p in s.pathToNode && s.pathToNode[p] == node }

  /** `q` is what `name` under the node `parent` is called. */
  ghost predicate IsChild(w: World, parent: NodeId, name: string, q: Path) {
    parent in w.session.nodeToPath && Join(w.session.nodeToPath[parent], name) == Ok(q)
  }

  /** Why there is no such path: an unknown directory, or a name that is not one. */
  function NoChild(w: World, parent: NodeId): Error {
    if parent in w.session.nodeToPath then InvalidInput else NotFound
  }

  lemma ChildAnswers(w: World, parent: NodeId, name: string)
    ensures var child := ChildOf(w.session, parent, name);
      && (child.Ok? ==> IsChild(w, parent, name, child.value))
      && (child.Err? ==> child.error == NoChild(w, parent) && forall q :: !IsChild(w, parent, name, q))
  {
  }

  // ---- Metadata ----------------------------------------------------------------

  /** The answer to a caller after the remote was asked for attributes, when `known` is what was cached before. */
  ghost predicate Reported(reply: Result<FileAttributes>, known: Option<FileAttributes>, r: Result<FileMetadata>) {
    match reply
    case Ok(attrs) => r.Ok? && r.value.attributes == attrs
    case Err(error) =>
      if error == Unavailable && known.Some? then r.Ok? && r.value.attributes == known.value else r == Err(error)
  }

  /** The name was found missing less than the time-to-live and less than one second ago, or the mount is offline. */
  ghost predicate KnownMissing(w: World, key: (NodeId, string)) {
    && key in w.session.negative
    && (w.IsOffline()
        || (w.clock < w.session.negative[key] + w.config.ttl && w.clock < w.session.negative[key] + 1_000_000_000))
  }

  /**
   A lookup asks the remote unless the mount is offline, the name is known to be missing, or its attributes are
   confirmed and cached. When it asks, the answer is the remote's, and only an unreachable remote is replaced by what is
   cached.
   */
  lemma LookupAnswers(w: World, parent: NodeId, name: string, p: Path, reply: Result<FileAttributes>)
    requires IsChild(w, parent, name, p)
    ensures var (w', r) := Lookup(w, parent, name, w.clock, reply);
      var known, key := w.cache.Attrs(p), (parent, name);
      && (w'.log != w.log <==> !w.IsOffline() && !KnownMissing(w, key) && !(Live(w, p) && known.Some?))
      && (w'.log != w.log ==> w'.log == w.log + [StatEvent(p, w.clock, Some(key), reply)] && Reported(reply, known, r))
      && (w'.log == w.log ==>
            if known.None? || KnownMissing(w, key) then r == Err(NotFound)
            else r.Ok? && r.value.attributes == known.value)
      && (r.Ok? ==> Names(w'.session, r.value.node, p))
  {
    hide Join, CM.Cache.PutAttrs, CM.Cache.Remove, CM.Cache.Attrs;
  }

  /** The same for getattr, for which no name is known to be missing. */
  lemma GetattrAnswers(w: World, node: NodeId, p: Path, reply: Result<FileAttributes>)
    requires PathOf(w.session, node) == Ok(p)
    ensures var (w', r) := Getattr(w, node, w.clock, reply); var known := w.cache.Attrs(p);
      && (w'.log != w.log <==> !w.IsOffline() && !(Live(w, p) && known.Some?))
      && (w'.log != w.log ==> w'.log == w.log + [StatEvent(p, w.clock, None, reply)] && Reported(reply, known, r))
      && (w'.log == w.log ==>
            if known.None? then r == Err(NotFound) else r.Ok? && r.value.attributes == known.value)
      && (r.Ok? ==> r.value.node == node)
  {
    hide CM.Cache.PutAttrs, CM.Cache.Remove, CM.Cache.Attrs;
  }

  // ---- Listings ----------------------------------------------------------------

  /** `at` are the places of the elements of `whole` that are kept, in order. */
  ghost predicate Sifts<T(!new)>(whole: seq<T>, keep: T -> bool, at: seq<nat>) {
    && (forall k :: 0 <= k < |at| ==> at[k] < |whole| && keep(whole[at[k]]))
    && (forall j, k :: 0 <= j < k < |at| ==> at[j] < at[k])
    && (forall i :: 0 <= i < |whole| && keep(whole[i]) ==> i in at)
  }

  lemma SiftsNext<T(!new)>(whole: seq<T>, keep: T -> bool, at: seq<nat>)
    requires whole != [] && Sifts(whole[..|whole| - 1], keep, at)
    ensures Sifts(whole, keep, if keep(whole[|whole| - 1]) then at + [|whole| - 1] else at)
  {
    var n := |whole| - 1;
    assert forall i :: 0 <= i < n ==> whole[..n][i] == whole[i];
    forall i | 0 <= i < |whole| && keep(whole[i])
      ensures i in if keep(whole[n]) then at + [n] else at
    {
      if i < n { assert keep(whole[..n][i]); }
    }
  }

  lemma SiftsPlaces<T(!new)>(whole: seq<T>, keep: T -> bool, at: seq<nat>)
    requires whole != [] && Sifts(whole[..|whole| - 1], keep, at)
    ensures forall k :: 0 <= k < |at| ==> at[k] < |whole| - 1 && whole[..|whole| - 1][at[k]] == whole[at[k]]
  {
  }

  /** The entry shows a child of `dir` under this name, with these attributes and its node. */
  ghost predicate EntryFor(s: Session, dir: Path, name: string, attrs: FileAttributes, e: DirectoryEntry) {
    && e.name == name && e.metadata.attributes == attrs
    && Join(dir, name).Ok? && Names(s, e.metadata.node, Join(dir, name).value)
  }

  predicate IsReal(e: (string, FileAttributes)) { e.0 != "." && e.0 != ".." }

  /** The entries the remote listed but for "." and "..", in its order. */
  ghost predicate ShowsListing(s: Session, dir: Path, listing: Listing, entries: seq<DirectoryEntry>) {
    exists at: seq<nat> :: Sifts(listing, IsReal, at)
      && |entries| == |at|
      && forall k :: 0 <= k < |at| ==> EntryFor(s, dir, listing[at[k]].0, listing[at[k]].1, entries[k])
  }

  ghost predicate HasAttrs(c: CM.Cache, dir: Path, name: string) {
    Join(dir, name).Ok? && c.Attrs(Join(dir, name).value).Some?
  }

  /** The names of the cached listing whose attributes are cached, in its order. */
  ghost predicate ShowsCached(s: Session, c: CM.Cache, dir: Path, entries: seq<DirectoryEntry>) {
    && c.Children(dir).Some?
    && var names := c.Children(dir).value;
      exists at: seq<nat> :: Sifts(names, name => HasAttrs(c, dir, name), at)
        && |entries| == |at|
        && forall k :: 0 <= k < |at| ==>
             && HasAttrs(c, dir, names[at[k]])
             && EntryFor(s, dir, names[at[k]], c.Attrs(Join(dir, names[at[k]]).value).value, entries[k])
  }

  /** A listing is cached and all its names are names. */
  ghost predicate ListingKnown(c: CM.Cache, dir: Path) {
    c.Children(dir).Some? && forall name :: name in c.Children(dir).value ==> Join(dir, name).Ok?
  }

  lemma {:induction false} RealSifts(listing: Listing) returns (at: seq<nat>)
    ensures Sifts(listing, IsReal, at)
    ensures |at| == |RealChildren(listing)| && forall k :: 0 <= k < |at| ==> RealChildren(listing)[k] == listing[at[k]]
    decreases |listing|
  {
    if listing == [] {
      at := [];
    } else {
      hide Sifts;
      var n := |listing| - 1;
      var front := RealSifts(listing[..n]);
      SiftsNext(listing, IsReal, front);
      SiftsPlaces(listing, IsReal, front);
      at := if IsReal(listing[n]) then front + [n] else front;
    }
  }

  /** `kids` are the names at these places, with their cached attributes. */
  ghost predicate KidsAt(c: CM.Cache, dir: Path, names: seq<string>, kids: Listing, at: seq<nat>) {
    && Sifts(names, name => HasAttrs(c, dir, name), at)
    && |at| == |kids|
    && forall k :: 0 <= k < |at| ==>
         && HasAttrs(c, dir, names[at[k]])
         && kids[k] == (names[at[k]], c.Attrs(Join(dir, names[at[k]]).value).value)
  }

  lemma KidsNext(c: CM.Cache, dir: Path, names: seq<string>, kids: Listing, at: seq<nat>)
    requires names != [] && KidsAt(c, dir, names[..|names| - 1], kids, at)
    ensures var n := |names| - 1;
      if HasAttrs(c, dir, names[n])
      then KidsAt(c, dir, names, kids + [(names[n], c.Attrs(Join(dir, names[n]).value).value)], at + [n])
      else KidsAt(c, dir, names, kids, at)
  {
    hide Join, CM.Cache.Attrs, Sifts, HasAttrs;
    SiftsNext(names, name => HasAttrs(c, dir, name), at);
    SiftsPlaces(names, name => HasAttrs(c, dir, name), at);
  }

  lemma {:induction false} CachedSifts(c: CM.Cache, dir: Path, names: seq<string>) returns (at: seq<nat>)
    ensures CachedChildren(c, dir, names).Some? <==> forall name :: name in names ==> Join(dir, name).Ok?
    ensures CachedChildren(c, dir, names).Some? ==> KidsAt(c, dir, names, CachedChildren(c, dir, names).value, at)
    decreases |names|
  {
    if names == [] {
      at := [];
    } else {
      hide Join, CM.Cache.Attrs, KidsAt;
      var n := |names| - 1;
      var front := CachedSifts(c, dir, names[..n]);
      assert names == names[..n] + [names[n]];
      if CachedChildren(c, dir, names).Some? {
        KidsNext(c, dir, names, CachedChildren(c, dir, names[..n]).value, front);
      }
      at := if HasAttrs(c, dir, names[n]) then front + [n] else front;
    }
  }

  /** Every node that was given out stays. */
  ghost predicate KeepsNodes(s: Session, s': Session) {
    forall p :: p in s.pathToNode ==> Names(s', s.pathToNode[p], p)
  }

  /** Each child is shown by its entry. */
  ghost predicate EntriesFor(s: Session, dir: Path, children: Listing, entries: seq<DirectoryEntry>) {
    && |entries| == |children|
    && forall i :: 0 <= i < |children| ==> EntryFor(s, dir, children[i].0, children[i].1, entries[i])
  }

  /** Nodes are given out once. */
  lemma InternKeeps(s: Session, p: Path)
    ensures var (s', node) := Intern(s, p); Names(s', node, p) && KeepsNodes(s, s')
  {
  }

  lemma EntriesKept(s: Session, s': Session, dir: Path, children: Listing, entries: seq<DirectoryEntry>)
    requires EntriesFor(s, dir, children, entries) && KeepsNodes(s, s')
    ensures EntriesFor(s', dir, children, entries)
  {
    hide Join;
  }

  /** One more child. */
  lemma EntriesNext(s: Session, s1: Session, dir: Path, children: Listing, entries: seq<DirectoryEntry>, p: Path)
    requires children != [] && EntriesFor(s1, dir, children[..|children| - 1], entries) && KeepsNodes(s, s1)
    requires Join(dir, children[|children| - 1].0) == Ok(p)
    ensures var (s2, node) := Intern(s1, p);
      var (name, attrs) := children[|children| - 1];
      && KeepsNodes(s, s2)
      && EntriesFor(s2, dir, children, entries + [DirectoryEntry(name, FileMetadata(node, attrs))])
  {
    InternKeeps(s1, p);
    hide Join, Intern;
    EntriesKept(s1, Intern(s1, p).0, dir, children[..|children| - 1], entries);
  }

  lemma {:induction false} InternAllNames(s: Session, dir: Path, children: Listing)
    requires forall i :: 0 <= i < |children| ==> Join(dir, children[i].0).Ok?
    ensures var (s', entries) := InternAll(s, dir, children);
      EntriesFor(s', dir, children, entries) && KeepsNodes(s, s')
    decreases |children|
  {
    if children != [] {
      var n := |children| - 1;
      InternAllNames(s, dir, children[..n]);
      assert Join(dir, children[n].0) == Ok(Child(dir, children[n].0));
      hide Join, Child, EntriesFor, KeepsNodes;
      var (s1, entries) := InternAll(s, dir, children[..n]);
      EntriesNext(s, s1, dir, children, entries, Child(dir, children[n].0));
    }
  }

  lemma {:induction false} StampAllNames(s: Session, dir: Path, children: Listing, now: Time)
    ensures var (s', r) := StampAll(s, dir, children, now);
      && (r.Ok? <==> forall i :: 0 <= i < |children| ==> Join(dir, children[i].0).Ok?)
      && (r.Err? ==> r.error == InvalidInput)
      && KeepsNodes(s, s')
      && (r.Ok? ==> EntriesFor(s', dir, children, r.value))
    decreases |children|
  {
    if children != [] {
      var n := |children| - 1;
      StampAllNames(s, dir, children[..n], now);
      var (s1, r) := StampAll(s, dir, children[..n], now);
      var child := Join(dir, children[n].0);
      assert child.Err? ==> child.error == InvalidInput;
      assert forall i :: 0 <= i < n ==> children[..n][i] == children[i];
      if r.Ok? && child.Ok? {
        var s2 := s1.(validated := s1.validated[child.value := now]);
        EntriesKept(s1, s2, dir, children[..n], r.value);
        EntriesNext(s, s2, dir, children, r.value, child.value);
      }
      hide Join, Intern, EntriesFor, KeepsNodes;
    }
  }

  lemma FromCache(w: World, dir: Path)
    ensures var cached := ReaddirFromCache(w, dir);
      && (cached.Some? <==> ListingKnown(w.cache, dir))
      && (cached.Some? ==>
            && cached.value.0 == w.(session := cached.value.0.session)
            && ShowsCached(cached.value.0.session, w.cache, dir, cached.value.1))
  {
    if w.cache.Children(dir).Some? {
      hide CM.Cache.Attrs, CM.Cache.Children, Join, EntryFor, Sifts;
      var names := w.cache.Children(dir).value;
      var at := CachedSifts(w.cache, dir, names);
      if CachedChildren(w.cache, dir, names).Some? {
        var kids := CachedChildren(w.cache, dir, names).value;
        InternAllNames(w.session, dir, kids);
      }
    }
  }

  /** What the remote listed is what the caller is told, and an unjoinable name is the only thing that can go wrong. */
  lemma Listed(s: Session, dir: Path, listing: Listing, now: Time)
    ensures var (s', r) := StampAll(s, dir, RealChildren(listing), now);
      && (r.Ok? <==>
            forall i :: 0 <= i < |listing| && IsReal(listing[i]) ==> Join(dir, listing[i].0).Ok?)
      && (r.Err? ==> r.error == InvalidInput)
      && (r.Ok? ==> ShowsListing(s', dir, listing, r.value))
  {
    var at := RealSifts(listing);
    StampAllNames(s, dir, RealChildren(listing), now);
    hide Join, StampAll, RealChildren, EntryFor;
  }

  /**
   A listing asks the remote unless the mount is offline or the directory is confirmed and its listing cached. When it
   asks, the caller is told what the remote lists, without the dot entries and in order, or the remote's error; only for
   an unreachable remote does the cached listing stand in.
   */
  lemma ReaddirAnswers(w: World, node: NodeId, dir: Path, reply: Result<Listing>)
    requires PathOf(w.session, node) == Ok(dir)
    ensures var (w', r) := Readdir(w, node, w.clock, reply); var known := ListingKnown(w.cache, dir);
      && (w'.log != w.log <==> !w.IsOffline() && !(Live(w, dir) && known))
      && (w'.log != w.log ==> w'.log == w.log + [ReadDirEvent(dir, w.clock, reply)])
      && (w'.log != w.log && reply.Ok? ==>
            && (r.Ok? ==> ShowsListing(w'.session, dir, reply.value, r.value))
            && (r.Err? ==> r.error == InvalidInput)
            && (r.Ok? <==>
                  forall i :: 0 <= i < |reply.value| && IsReal(reply.value[i]) ==> Join(dir, reply.value[i].0).Ok?))
      && (w'.log != w.log && reply.Err? && !(reply.error == Unavailable && known) ==> r == Err(reply.error))
      && (w'.log == w.log && !known ==> r == Err(NotFound))
      && ((w'.log == w.log || reply == Err(Unavailable)) && known ==>
            r.Ok? && ShowsCached(w'.session, w.cache, dir, r.value))
  {
    FromCache(w, dir);
    FromCache(w.Logged(ReadDirEvent(dir, w.clock, reply)), dir);
    if reply.Ok? { Listed(w.session, dir, reply.value, w.clock); }
    hide Join, ReaddirFromCache, StampAll, RealChildren, CM.Cache.RecordListing, ShowsCached, ShowsListing,
      ListingKnown, IsReal;
  }

  /** A listing that was told confirms its directory; one that broke off at a bad name does not. */
  lemma ListingConfirms(w: World, node: NodeId, dir: Path, listing: Listing)
    requires PathOf(w.session, node) == Ok(dir) && Readdir(w, node, w.clock, Ok(listing)).0.log != w.log
    ensures var (w', r) := Readdir(w, node, w.clock, Ok(listing));
      if r.Ok? then dir in w'.session.validated && w'.session.validated[dir] == w.clock
      else
        && (dir in w'.session.validated <==> dir in w.session.validated)
        && (dir in w.session.validated ==> w'.session.validated[dir] == w.session.validated[dir])
  {
    StampAllView(w.session, dir, RealChildren(listing), w.clock, dir);
    forall name ensures Join(dir, name) != Ok(dir) { L.ChildIsNotSelf(dir, name); }
    CachedStamps(w, dir);
    hide Join, ReaddirFromCache, StampAll, RealChildren, CM.Cache.RecordListing;
  }

  // ---- Files -------------------------------------------------------------------

  /** `h` was not in use; now it is, for this file, and no other handle has changed. */
  ghost predicate HandsOut(s: Session, s': Session, h: Handle, file: OpenFile) {
    && h !in s.handles && h in s'.handles && s'.handles[h] == file
    && s'.handles.Keys == s.handles.Keys + {h} && forall g :: g in s.handles ==> s'.handles[g] == s.handles[g]
  }

  /**
   Opening gives out a handle that nobody has, bound to the node and its path. Truncation is one call that sets the size
   to zero and nothing else; if it fails, so does the open, and nothing has happened.
   */
  lemma OpenAnswers(w: World, node: NodeId, flags: OpenFlags, p: Path, reply: Result<FileAttributes>)
    requires G.HandleTable(w.session) && PathOf(w.session, node) == Ok(p)
    requires !(w.config.readOnly && (flags.write || flags.append || flags.truncate))
    ensures var (w', r) := Open(w, node, flags, w.clock, reply);
      && w'.log == w.log + (if flags.truncate
                            then [SetattrEvent(p, w.clock, SetAttributes(Some(0), None, None, None), reply)] else [])
      && (flags.truncate && reply.Err? ==> r == Err(reply.error) && w'.session == w.session && w'.cache == w.cache)
      && (!(flags.truncate && reply.Err?) ==>
            r.Ok? && HandsOut(w.session, w'.session, r.value, OpenFile(node, p)))
      && (!flags.truncate ==> w'.cache == w.cache && w'.session.validated == w.session.validated)
      && (flags.truncate && reply.Ok? ==> I.Content(w'.cache.index, p).None? && !Live(w', p))
  {
  }

  /** Reads through no handle, past the cache, and without a remote. */
  lemma PlainReadAnswers(w: World, handle: Handle, offset: U64, size: U32, reply: Result<FileAttributes>,
                         direct: Result<Bytes>, script: CM.Script)
    ensures var (w', r) := Read(w, handle, offset, size, w.clock, reply, direct, script);
      && (handle !in w.session.handles ==> w' == w && r == Err(InvalidInput))
      && (handle in w.session.handles && w.config.mode.Remote? ==>
            && r == direct && w'.cache == w.cache && w'.session == w.session
            && w'.log == w.log + [ContentEvent(CM.ReadEvent(w.session.handles[handle].path, offset, size, direct))])
      && (handle in w.session.handles && w.config.mode.Offline? ==>
            w' == w && r == w.cache.ReadCached(w.session.handles[handle].path, offset, size))
  {
  }

  /** The calls of a read: those of its revalidation, then the downloads. */
  lemma ContentCalls(calls: seq<Event>, before: seq<Event>, events: seq<CM.ReadEvent>)
    requires calls == before + ContentEvents(events) && forall e :: e in before ==> !e.ContentEvent?
    ensures forall e :: e in calls <==> if e.ContentEvent? then e.read in events else e in before
    ensures events != [] ==> calls != [] && calls[|calls| - 1] == ContentEvent(events[|events| - 1])
  {
    ContentMembers(events);
    assert forall e :: e in calls <==> e in before || e in ContentEvents(events);
    hide ContentEvents;
  }

  lemma ContentMembers(events: seq<CM.ReadEvent>)
    ensures forall e :: e in ContentEvents(events) <==> e.ContentEvent? && e.read in events
    ensures |ContentEvents(events)| == |events|
    ensures events != [] ==> ContentEvents(events)[|events| - 1] == ContentEvent(events[|events| - 1])
  {
    forall e: Event | e.ContentEvent? && e.read in events
      ensures e in ContentEvents(events)
    {
      var i :| 0 <= i < |events| && events[i] == e.read;
      assert ContentEvents(events)[i] == e;
    }
  }

  lemma LaterCalls(w: World, w1: World, w': World, more: seq<Event>)
    requires w.log <= w1.log && w'.log == w1.log + more
    ensures R.CallsOf(w, w') == R.CallsOf(w, w1) + more
  {
  }

  /**
   A caching read fails only if its revalidation failed or one of its downloads did, and then with that very error; it
   succeeds if and only if the revalidation did and every download was answered.
   */
  lemma ReadAnswers(w: World, handle: Handle, offset: U64, size: U32, reply: Result<FileAttributes>,
                    direct: Result<Bytes>, script: CM.Script)
    requires D.Durable(w.cache) && handle in w.session.handles && (w.config.mode.OnDemand? || w.config.mode.Pinned?)
    ensures var (w', r) := Read(w, handle, offset, size, w.clock, reply, direct, script);
      var meta, calls := Getattr(w, w.session.handles[handle].node, w.clock, reply).1, R.CallsOf(w, w');
      && (r.Ok? <==> meta.Ok? && forall e :: e in calls && e.ContentEvent? ==> e.read.reply.Ok?)
      && (meta.Err? ==>
            r == Err(meta.error) && w' == Getattr(w, w.session.handles[handle].node, w.clock, reply).0)
      && (meta.Ok? && r.Err? ==>
            && calls != [] && calls[|calls| - 1].ContentEvent? && calls[|calls| - 1].read.reply == Err(r.error))
      && (forall e :: e in calls && e.ContentEvent? && e.read.reply.Err? ==> r == Err(e.read.reply.error))
      && (forall e :: e in calls && !e.ContentEvent? ==>
            e in R.CallsOf(w, Getattr(w, w.session.handles[handle].node, w.clock, reply).0))
  {
    var file := w.session.handles[handle];
    var (w1, meta) := Getattr(w, file.node, w.clock, reply);
    D.GetattrDurable(w, file.node, w.clock, reply);
    GetattrCalls(w, file.node, reply);
    CachingRead(w, handle, offset, size, reply, direct, script);
    hide Getattr, Read, CM.Cache.Read, ContentEvents, CM.CacheOk, Tells, R.CallsOf, FailureOf;
    if meta.Ok? {
      var s := w1.cache.Read(file.path, meta.value.attributes, offset, size, script);
      assert CM.CacheOk(w1.cache);
      ReadTells(w1.cache, file.path, meta.value.attributes, offset, size, script);
      var w' := Read(w, handle, offset, size, w.clock, reply, direct, script).0;
      LaterCalls(w, w1, w', ContentEvents(s.events));
      ContentCalls(R.CallsOf(w, w'), R.CallsOf(w, w1), s.events);
      forall e | e in s.events ensures ContentEvent(e) in R.CallsOf(w, w') { }
      LastOf(s);
    }
  }

  lemma CachingRead(w: World, handle: Handle, offset: U64, size: U32, reply: Result<FileAttributes>,
                    direct: Result<Bytes>, script: CM.Script)
    requires handle in w.session.handles && (w.config.mode.OnDemand? || w.config.mode.Pinned?)
    ensures var (w', r) := Read(w, handle, offset, size, w.clock, reply, direct, script);
      var file := w.session.handles[handle];
      var (w1, meta) := Getattr(w, file.node, w.clock, reply);
      if meta.Err? then w' == w1 && r == Err(meta.error)
      else
        var s := w1.cache.Read(file.path, meta.value.attributes, offset, size, script);
        w'.cache == s.cache && w'.log == w1.log + ContentEvents(s.events) && r == s.outcome
  {
    hide Getattr, CM.Cache.Read, ContentEvents;
  }

  lemma LastOf(s: CM.Served)
    requires Tells(FailureOf(s.outcome), s.events)
    ensures s.outcome.Err? ==> s.events != [] && s.events[|s.events| - 1].reply == Err(s.outcome.error)
    ensures forall e :: e in s.events && e.reply.Err? ==> s.outcome == Err(e.reply.error)
  {
  }

  lemma GetattrCalls(w: World, node: NodeId, reply: Result<FileAttributes>)
    ensures var w1 := Getattr(w, node, w.clock, reply).0;
      w.log <= w1.log && forall e :: e in R.CallsOf(w, w1) ==> !e.ContentEvent?
  {
    hide CM.Cache.PutAttrs, CM.Cache.Remove, CM.Cache.Attrs;
  }

  // ---- Changes -----------------------------------------------------------------

  /** Apart from the call, nothing happened. */
  ghost predicate OnlyCalled(w: World, w': World) { w' == w.(log := w'.log) }

  lemma WriteAnswers(w: World, handle: Handle, offset: nat, data: Bytes, reply: Result<nat>)
    requires !w.config.readOnly
    ensures var (w', r) := Write(w, handle, offset, data, reply);
      if handle !in w.session.handles then w' == w && r == Err(InvalidInput)
      else
        && r == reply && (reply.Err? ==> OnlyCalled(w, w'))
        && w'.log == w.log + [WriteEvent(w.session.handles[handle].path, offset, data, reply)]
  {
    hide CM.Cache.InvalidateContent;
  }

  /** Making a file tells the remote's attributes for it and gives out a handle; an error is the remote's. */
  lemma CreateAnswers(w: World, parent: NodeId, name: string, p: Path, reply: Result<FileAttributes>)
    requires G.HandleTable(w.session) && !w.config.readOnly && IsChild(w, parent, name, p)
    ensures var (w', r) := Create(w, parent, name, w.clock, reply);
      && w'.log == w.log + [CreateEvent(p, w.clock, Some((parent, name)), reply)]
      && (reply.Err? ==> r == Err(reply.error) && OnlyCalled(w, w'))
      && (reply.Ok? ==>
            && r.Ok? && r.value.metadata.attributes == reply.value && Names(w'.session, r.value.metadata.node, p)
            && HandsOut(w.session, w'.session, r.value.handle, OpenFile(r.value.metadata.node, p)))
  {
    hide Join, CM.Cache.PutAttrs, CM.Cache.InvalidateChildren;
  }

  lemma MkdirAnswers(w: World, parent: NodeId, name: string, p: Path, reply: Result<FileAttributes>)
    requires !w.config.readOnly && IsChild(w, parent, name, p)
    ensures var (w', r) := Mkdir(w, parent, name, w.clock, reply);
      && w'.log == w.log + [MkdirEvent(p, w.clock, Some((parent, name)), reply)]
      && (reply.Err? ==> r == Err(reply.error) && OnlyCalled(w, w'))
      && (reply.Ok? ==> r.Ok? && r.value.attributes == reply.value && Names(w'.session, r.value.node, p))
      && w'.session.handles == w.session.handles
  {
    hide Join, CM.Cache.PutAttrs, CM.Cache.InvalidateChildren;
  }

  lemma SetattrAnswers(w: World, node: NodeId, change: SetAttributes, p: Path, reply: Result<FileAttributes>)
    requires !w.config.readOnly && PathOf(w.session, node) == Ok(p)
    ensures var (w', r) := Setattr(w, node, change, w.clock, reply);
      && w'.log == w.log + [SetattrEvent(p, w.clock, change, reply)]
      && r == (if reply.Ok? then Ok(FileMetadata(node, reply.value)) else Err(reply.error))
      && (reply.Err? ==> OnlyCalled(w, w'))
  {
    hide CM.Cache.PutAttrs;
  }

  /** Removing and renaming answer what the remote answers. */
  lemma RemoveAnswers(w: World, parent: NodeId, name: string, p: Path, reply: Result<()>)
    requires !w.config.readOnly && IsChild(w, parent, name, p)
    ensures var (w', r) := Unlink(w, parent, name, w.clock, reply);
      && r == reply && w'.log == w.log + [UnlinkEvent(p, w.clock, Some((parent, name)), reply)]
      && (reply.Err? ==> OnlyCalled(w, w'))
    ensures var (w', r) := Rmdir(w, parent, name, w.clock, reply);
      && r == reply && w'.log == w.log + [RmdirEvent(p, w.clock, Some((parent, name)), reply)]
      && (reply.Err? ==> OnlyCalled(w, w'))
  {
    hide Join, CM.Cache.Remove, CM.Cache.InvalidateChildren;
  }

  lemma RenameAnswers(w: World, parent: NodeId, name: string, newParent: NodeId, newName: string, from: Path, to: Path,
                      reply: Result<()>)
    requires !w.config.readOnly && IsChild(w, parent, name, from) && IsChild(w, newParent, newName, to)
    ensures var (w', r) := Rename(w, parent, name, newParent, newName, w.clock, reply);
      && r == reply
      && w'.log == w.log + [RenameEvent(from, w.clock, Some((parent, name)), to, (newParent, newName), reply)]
      && (reply.Err? ==> OnlyCalled(w, w'))
  {
    hide Join, RenamePath, CM.Cache.Rename, CM.Cache.InvalidateChildren;
  }

  // ---- Every operation -----------------------------------------------------------

  /** The error that the operation reports to its caller, if it does. */
  ghost function Failure(w: World, op: Op): Option<Error> {
    var now := w.clock;
    match op
    case OpLookup(parent, name, attrs) => FailureOf(Lookup(w, parent, name, now, attrs).1)
    case OpGetattr(node, attrs) => FailureOf(Getattr(w, node, now, attrs).1)
    case OpReaddir(node, listing) => FailureOf(Readdir(w, node, now, listing).1)
    case OpOpen(node, flags, attrs) => FailureOf(Open(w, node, flags, now, attrs).1)
    case OpRead(handle, offset, size, attrs, direct, script) =>
      FailureOf(Read(w, handle, offset, size, now, attrs, direct, script).1)
    case OpWrite(handle, at, data, written) => FailureOf(Write(w, handle, at, data, written).1)
    case OpCreate(parent, name, attrs) => FailureOf(Create(w, parent, name, now, attrs).1)
    case OpMkdir(parent, name, attrs) => FailureOf(Mkdir(w, parent, name, now, attrs).1)
    case OpUnlink(parent, name, done) => FailureOf(Unlink(w, parent, name, now, done).1)
    case OpRmdir(parent, name, done) => FailureOf(Rmdir(w, parent, name, now, done).1)
    case OpRename(parent, name, newParent, newName, done) =>
      FailureOf(Rename(w, parent, name, newParent, newName, now, done).1)
    case OpSetattr(node, change, attrs) => FailureOf(Setattr(w, node, change, now, attrs).1)
    case OpRelease(_) => None
    case OpRestart(_, _, _, _) => None
  }

  /** The error with which the remote answered a call, if it did. */
  function ErrorOf(e: Event): Option<Error> {
    match e
    case StatEvent(_, _, _, reply) => FailureOf(reply)
    case ReadDirEvent(_, _, reply) => FailureOf(reply)
    case ContentEvent(read) => FailureOf(read.reply)
    case WriteEvent(_, _, _, reply) => FailureOf(reply)
    case CreateEvent(_, _, _, reply) => FailureOf(reply)
    case MkdirEvent(_, _, _, reply) => FailureOf(reply)
    case SetattrEvent(_, _, _, reply) => FailureOf(reply)
    case UnlinkEvent(_, _, _, reply) => FailureOf(reply)
    case RmdirEvent(_, _, _, reply) => FailureOf(reply)
    case RenameEvent(_, _, _, _, _, reply) => FailureOf(reply)
  }

  /** A call failed, and no cached answer can stand in for it. */
  predicate Definitive(e: Event) {
    ErrorOf(e).Some? && (e.StatEvent? || e.ReadDirEvent? ==> ErrorOf(e) != Some(Unavailable))
  }

  /** What a read-only mount denies. */
  predicate Denied(op: Op) { O.Mutates(op) || (op.OpOpen? && (op.flags.write || op.flags.append)) }

  /** On a read-only mount a change, and an open for one, is denied and nothing happens. */
  lemma ReadOnlyDenies(w: World, op: Op)
    requires w.config.readOnly && Denied(op)
    ensures Next(w, op, w.clock) == w && Failure(w, op) == Some(PermissionDenied)
  {
  }

  /** What the operation is about does not exist here: an unknown node or handle, or a name that is none. */
  ghost predicate Unresolved(w: World, op: Op) {
    match op
    case OpLookup(parent, name, _) => forall q :: !IsChild(w, parent, name, q)
    case OpCreate(parent, name, _) => forall q :: !IsChild(w, parent, name, q)
    case OpMkdir(parent, name, _) => forall q :: !IsChild(w, parent, name, q)
    case OpUnlink(parent, name, _) => forall q :: !IsChild(w, parent, name, q)
    case OpRmdir(parent, name, _) => forall q :: !IsChild(w, parent, name, q)
    case OpRename(parent, name, newParent, newName, _) =>
      (forall q :: !IsChild(w, parent, name, q)) || (forall q :: !IsChild(w, newParent, newName, q))
    case OpGetattr(node, _) => node !in w.session.nodeToPath
    case OpReaddir(node, _) => node !in w.session.nodeToPath
    case OpOpen(node, _, _) => node !in w.session.nodeToPath
    case OpSetattr(node, _, _) => node !in w.session.nodeToPath
    case OpRead(handle, _, _, _, _, _) => handle !in w.session.handles
    case OpWrite(handle, _, _, _) => handle !in w.session.handles
    case _ => false
  }

  /** What that is answered with: unknown nodes are not found, unknown handles and bad names are invalid. */
  ghost function Refusal(w: World, op: Op): Error {
    match op
    case OpLookup(parent, _, _) => NoChild(w, parent)
    case OpCreate(parent, _, _) => NoChild(w, parent)
    case OpMkdir(parent, _, _) => NoChild(w, parent)
    case OpUnlink(parent, _, _) => NoChild(w, parent)
    case OpRmdir(parent, _, _) => NoChild(w, parent)
    case OpRename(parent, _, newParent, _, _) =>
      if parent in w.session.nodeToPath then NoChild(w, newParent) else NotFound
    case OpRead(_, _, _, _, _, _) => InvalidInput
    case OpWrite(_, _, _, _) => InvalidInput
    case _ => NotFound
  }

  lemma UnresolvedRefused(w: World, op: Op)
    requires Unresolved(w, op) && !(w.config.readOnly && Denied(op))
    ensures Next(w, op, w.clock) == w && Failure(w, op) == Some(Refusal(w, op))
  {
    if op.OpLookup? || op.OpCreate? || op.OpMkdir? || op.OpUnlink? || op.OpRmdir? || op.OpRename? {
      ChildAnswers(w, op.parent, op.name);
    }
    if op.OpRename? { ChildAnswers(w, op.newParent, op.newName); }
    hide Join, IsChild, Intern, RenamePath, CM.Cache.PutAttrs, CM.Cache.Remove, CM.Cache.InvalidateChildren,
      CM.Cache.Rename, CM.Cache.Attrs;
  }

  /** How the outcome of an operation follows from the answer to a call it made. */
  ghost predicate Settles(w: World, op: Op, e: Event) {
    && (Definitive(e) ==> Failure(w, op) == ErrorOf(e))
    && (ErrorOf(e).None? ==> Failure(w, op).None? || (op.OpReaddir? && Failure(w, op) == Some(InvalidInput)))
  }

  /** An operation other than a read makes one call at most. */
  lemma QuerySettled(w: World, op: Op) returns (e: Event)
    requires (op.OpLookup? || op.OpGetattr? || op.OpReaddir?) && !Unresolved(w, op)
    requires Next(w, op, w.clock).log != w.log
    ensures Next(w, op, w.clock).log == w.log + [e] && Settles(w, op, e)
  {
    hide Join, Lookup, Getattr, Readdir, ShowsListing, ShowsCached, ListingKnown, Names, CM.Cache.Attrs;
    match op
    case OpLookup(parent, name, attrs) =>
      var p :| IsChild(w, parent, name, p);
      LookupAnswers(w, parent, name, p, attrs);
      e := StatEvent(p, w.clock, Some((parent, name)), attrs);
    case OpGetattr(node, attrs) =>
      var p := w.session.nodeToPath[node];
      GetattrAnswers(w, node, p, attrs);
      e := StatEvent(p, w.clock, None, attrs);
    case OpReaddir(node, listing) =>
      var dir := w.session.nodeToPath[node];
      ReaddirAnswers(w, node, dir, listing);
      e := ReadDirEvent(dir, w.clock, listing);
  }

  lemma ChangeSettled(w: World, op: Op) returns (e: Event)
    requires G.HandleTable(w.session) && !op.OpLookup? && !op.OpGetattr? && !op.OpReaddir? && !op.OpRead?
    requires !Unresolved(w, op) && !(w.config.readOnly && O.Mutates(op)) && Next(w, op, w.clock).log != w.log
    ensures Next(w, op, w.clock).log == w.log + [e] && Settles(w, op, e)
  {
    hide Join, Open, Write, Create, Mkdir, Unlink, Rmdir, Rename, Setattr, Names, HandsOut, OnlyCalled, G.HandleTable,
      I.Content;
    match op
    case OpOpen(node, flags, attrs) =>
      if w.config.readOnly && (flags.write || flags.append) { ReadOnlyDenies(w, op); }
      OpenAnswers(w, node, flags, w.session.nodeToPath[node], attrs);
      e := SetattrEvent(w.session.nodeToPath[node], w.clock, SetAttributes(Some(0), None, None, None), attrs);
    case OpWrite(handle, at, data, written) =>
      WriteAnswers(w, handle, at, data, written);
      e := WriteEvent(w.session.handles[handle].path, at, data, written);
    case OpCreate(parent, name, attrs) =>
      var p :| IsChild(w, parent, name, p);
      CreateAnswers(w, parent, name, p, attrs);
      e := CreateEvent(p, w.clock, Some((parent, name)), attrs);
    case OpMkdir(parent, name, attrs) =>
      var p :| IsChild(w, parent, name, p);
      MkdirAnswers(w, parent, name, p, attrs);
      e := MkdirEvent(p, w.clock, Some((parent, name)), attrs);
    case OpUnlink(parent, name, done) =>
      var p :| IsChild(w, parent, name, p);
      RemoveAnswers(w, parent, name, p, done);
      e := UnlinkEvent(p, w.clock, Some((parent, name)), done);
    case OpRmdir(parent, name, done) =>
      var p :| IsChild(w, parent, name, p);
      RemoveAnswers(w, parent, name, p, done);
      e := RmdirEvent(p, w.clock, Some((parent, name)), done);
    case OpRename(parent, name, newParent, newName, done) =>
      var from :| IsChild(w, parent, name, from);
      var to :| IsChild(w, newParent, newName, to);
      RenameAnswers(w, parent, name, newParent, newName, from, to, done);
      e := RenameEvent(from, w.clock, Some((parent, name)), to, (newParent, newName), done);
    case OpSetattr(node, change, attrs) =>
      SetattrAnswers(w, node, change, w.session.nodeToPath[node], attrs);
      e := SetattrEvent(w.session.nodeToPath[node], w.clock, change, attrs);
    case OpRelease(_) =>
    case OpRestart(_, _, _, _) =>
  }

  /** A call fails for an operation and the operation succeeds only if something is cached in place of the answer. */
  lemma CallSettles(w: World, op: Op, e: Event)
    requires D.Durable(w.cache) && G.HandleTable(w.session) && e in R.CallsOf(w, Next(w, op, w.clock)) && !op.OpRead?
    ensures Settles(w, op, e) && R.CallsOf(w, Next(w, op, w.clock)) == [e]
  {
    hide Next, Settles, G.HandleTable, D.Durable, Unresolved, O.Mutates;
    assert Next(w, op, w.clock).log != w.log;
    if Unresolved(w, op) && !(w.config.readOnly && Denied(op)) { UnresolvedRefused(w, op); }
    if w.config.readOnly && Denied(op) { ReadOnlyDenies(w, op); }
    var e': Event;
    if op.OpLookup? || op.OpGetattr? || op.OpReaddir? {
      e' := QuerySettled(w, op);
    } else {
      e' := ChangeSettled(w, op);
    }
    assert R.CallsOf(w, Next(w, op, w.clock)) == [e'];
  }

  lemma GetattrSettled(w: World, node: NodeId, reply: Result<FileAttributes>)
    ensures var (w1, r) := Getattr(w, node, w.clock, reply);
      forall e :: e in R.CallsOf(w, w1) ==>
        && e.StatEvent? && e.attrs == reply
        && (reply.Ok? ==> r.Ok?) && (reply.Err? && reply.error != Unavailable ==> r == Err(reply.error))
  {
    hide CM.Cache.Attrs, CM.Cache.PutAttrs, CM.Cache.Remove;
  }

  lemma ReadSettles(w: World, op: Op, e: Event)
    requires D.Durable(w.cache) && e in R.CallsOf(w, Next(w, op, w.clock)) && op.OpRead? && Definitive(e)
    ensures Failure(w, op) == ErrorOf(e)
  {
    hide Getattr, Read, D.Durable;
    PlainReadAnswers(w, op.handle, op.offset, op.size, op.attrs, op.direct, op.script);
    if op.handle in w.session.handles && (w.config.mode.OnDemand? || w.config.mode.Pinned?) {
      ReadAnswers(w, op.handle, op.offset, op.size, op.attrs, op.direct, op.script);
      GetattrSettled(w, w.session.handles[op.handle].node, op.attrs);
    }
  }

  lemma ReadAnswered(w: World, op: Op)
    requires D.Durable(w.cache) && op.OpRead? && R.CallsOf(w, Next(w, op, w.clock)) != []
    requires forall e :: e in R.CallsOf(w, Next(w, op, w.clock)) ==> ErrorOf(e).None?
    ensures Failure(w, op).None?
  {
    hide Getattr, Read, D.Durable;
    PlainReadAnswers(w, op.handle, op.offset, op.size, op.attrs, op.direct, op.script);
    var first := R.CallsOf(w, Next(w, op, w.clock))[0];
    assert first in R.CallsOf(w, Next(w, op, w.clock));
    if op.handle in w.session.handles && (w.config.mode.OnDemand? || w.config.mode.Pinned?) {
      ReadAnswers(w, op.handle, op.offset, op.size, op.attrs, op.direct, op.script);
      GetattrSettled(w, w.session.handles[op.handle].node, op.attrs);
    }
  }

  /**
   What a call fails with is what the caller is told, from every operation: of changes and downloads any error, of stat
   and read_dir any but that the remote could not be reached.
   */
  lemma ErrorsPassedOn(w: World, op: Op, e: Event)
    requires D.Durable(w.cache) && G.HandleTable(w.session)
    requires e in R.CallsOf(w, Next(w, op, w.clock)) && Definitive(e)
    ensures Failure(w, op) == ErrorOf(e)
  {
    hide Next, Failure, ErrorOf, D.Durable, G.HandleTable, R.CallsOf;
    if op.OpRead? { ReadSettles(w, op, e); } else { CallSettles(w, op, e); }
  }

  /** If every call was answered the operation succeeds, but for a listing with something in it that is not a name. */
  lemma AnsweredSucceeds(w: World, op: Op)
    requires D.Durable(w.cache) && G.HandleTable(w.session)
    requires R.CallsOf(w, Next(w, op, w.clock)) != []
    requires forall e :: e in R.CallsOf(w, Next(w, op, w.clock)) ==> ErrorOf(e).None?
    ensures Failure(w, op).None? || (op.OpReaddir? && Failure(w, op) == Some(InvalidInput))
  {
    hide Next, Failure, ErrorOf, D.Durable, G.HandleTable, R.CallsOf;
    if op.OpRead? { ReadAnswered(w, op); } else { CallSettles(w, op, R.CallsOf(w, Next(w, op, w.clock))[0]); }
  }

  lemma {:induction false} HandleTableRun(w: World, ops: seq<Timed>, w': World)
    requires G.HandleTable(w.session) && Runs(w, ops, w')
    ensures G.HandleTable(w'.session)
    decreases |ops|
  {
    if ops != [] {
      var w0 := w.(clock := ops[0].now);
      if !ops[0].op.OpRestart? {
        hide Next, G.HandleTable;
        G.HandlesStep(w0, ops[0].op, ops[0].now);
      }
      HandleTableRun(Tick(w, ops[0].op, ops[0].now), ops[1..], w');
    }
  }

  /**
   The server is authoritative, and nothing else makes an operation fail that calls it: after any run from an empty
   cache directory, whatever the remote answered, an operation that makes calls fails with the error of the call that
   failed, but for a stat or a read_dir that did not reach the remote; and if every call was answered it succeeds, but
   for a listing with something in it that is not a name.
   */
  lemma ServerIsAuthoritative(config: Config, cs: Positive, ops: seq<Timed>, w: World, now: Time, op: Op)
    requires Runs(Mount(config, CM.Cache(cs, I.EMPTY, I.EMPTY, map[])), ops, w)
    ensures var w0 := w.(clock := now); var calls := R.CallsOf(w0, Next(w0, op, now));
      && (forall e :: e in calls && Definitive(e) ==> Failure(w0, op) == ErrorOf(e))
      && (calls != [] && (forall e :: e in calls ==> ErrorOf(e).None?) ==>
            Failure(w0, op).None? || (op.OpReaddir? && Failure(w0, op) == Some(InvalidInput)))
  {
    var mount, w0 := Mount(config, CM.Cache(cs, I.EMPTY, I.EMPTY, map[])), w.(clock := now);
    assert D.Durable(mount.cache) && G.HandleTable(mount.session);
    hide Next, Failure, ErrorOf, D.Durable, R.CallsOf, Runs;
    D.DurableRun(mount, ops, w);
    HandleTableRun(mount, ops, w);
    hide G.HandleTable;
    assert D.Durable(w0.cache) && G.HandleTable(w0.session);
    var calls := R.CallsOf(w0, Next(w0, op, now));
    forall e | e in calls && Definitive(e)
      ensures Failure(w0, op) == ErrorOf(e)
    {
      ErrorsPassedOn(w0, op, e);
    }
    if calls != [] && forall e :: e in calls ==> ErrorOf(e).None? { AnsweredSucceeds(w0, op); }
  }
}
