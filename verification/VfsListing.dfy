/** A listing served from the cache replays the one the remote gave. */
module VfsListing {
  import opened Base
  import opened RemotePaths
  import I = CacheIndex
  import opened Chunks
  import CM = CacheModel
  import CacheReads
  import opened VfsModel
  import opened VfsViews
  import N = VfsNodes

  function NamesOf(entries: seq<DirectoryEntry>): seq<string> {
    seq(|entries|, i requires 0 <= i < |entries| => entries[i].name)
  }

  function ListingOf(entries: seq<DirectoryEntry>): Listing {
    seq(|entries|, i requires 0 <= i < |entries| => (entries[i].name, entries[i].metadata.attributes))
  }

  /** The entry's attributes and node are the cached ones. */
  ghost predicate Shown(w: World, dir: Path, e: DirectoryEntry) {
    var child := Join(dir, e.name);
    && child.Ok? && w.cache.Attrs(child.value) == Some(e.metadata.attributes)
    && child.value in w.session.pathToNode && w.session.pathToNode[child.value] == e.metadata.node
  }

  /** The cache holds this listing of `dir`. */
  ghost predicate Shows(w: World, dir: Path, entries: seq<DirectoryEntry>) {
    && w.cache.Children(dir) == Some(NamesOf(entries))
    && forall i :: 0 <= i < |entries| ==> Shown(w, dir, entries[i])
  }

  // ---- Serving from the cache ------------------------------------------------

  lemma {:induction false} ReplayChildren(w: World, dir: Path, entries: seq<DirectoryEntry>)
    requires forall i :: 0 <= i < |entries| ==> Shown(w, dir, entries[i])
    ensures CachedChildren(w.cache, dir, NamesOf(entries)) == Some(ListingOf(entries))
    decreases |entries|
  {
    if entries != [] {
      hide Join, CM.Cache.Attrs;
      var n := |entries| - 1;
      ReplayChildren(w, dir, entries[..n]);
      assert NamesOf(entries)[..n] == NamesOf(entries[..n]);
      assert ListingOf(entries) == ListingOf(entries[..n]) + [(entries[n].name, entries[n].metadata.attributes)];
      assert Shown(w, dir, entries[n]);
    }
  }

  lemma {:induction false} ReplayNodes(w: World, dir: Path, entries: seq<DirectoryEntry>)
    requires forall i :: 0 <= i < |entries| ==> Shown(w, dir, entries[i])
    ensures InternAll(w.session, dir, ListingOf(entries)) == (w.session, entries)
    decreases |entries|
  {
    if entries != [] {
      var n := |entries| - 1;
      ReplayNodes(w, dir, entries[..n]);
      assert ListingOf(entries)[..n] == ListingOf(entries[..n]);
      assert entries == entries[..n] + [entries[n]];
      assert Shown(w, dir, entries[n]);
    }
  }

  lemma ReplayFromCache(w: World, dir: Path, entries: seq<DirectoryEntry>)
    requires Shows(w, dir, entries)
    ensures ReaddirFromCache(w, dir) == Some((w, entries))
  {
    ReplayChildren(w, dir, entries);
    ReplayNodes(w, dir, entries);
  }

  // ---- An online listing -----------------------------------------------------

  ghost predicate DistinctNames(children: Listing) {
    forall i, j :: 0 <= i < j < |children| ==> children[i].0 != children[j].0
  }

  lemma JoinDistinct(dir: Path, a: string, b: string)
    requires Join(dir, a).Ok? && Join(dir, b).Ok? && a != b
    ensures Join(dir, a).value != Join(dir, b).value
  {
    assert Child(dir, a)[|Trim(dir)| + 1..] == a && Child(dir, b)[|Trim(dir)| + 1..] == b;
  }

  /** With distinct names, a child is listed with one set of attributes. */
  lemma ListedOnce(children: Listing, dir: Path, i: nat, attrs: FileAttributes)
    requires DistinctNames(children) && i < |children| && Join(dir, children[i].0).Ok?
    requires Lists(children, dir, Join(dir, children[i].0).value, attrs)
    ensures attrs == children[i].1
  {
    var p := Join(dir, children[i].0).value;
    hide Join;
    var j :| 0 <= j < |children| && Join(dir, children[j].0) == Ok(p) && children[j].1 == attrs;
    if children[j].0 != children[i].0 { JoinDistinct(dir, children[j].0, children[i].0); }
    assert i == j;
  }

  /** The entries a listing returns: names and attributes as listed, nodes as interned. */
  lemma {:induction false} StampAllEntries(s: Session, dir: Path, children: Listing, now: Time)
    requires StampAll(s, dir, children, now).1.Ok?
    ensures var (s', r) := StampAll(s, dir, children, now);
      && |r.value| == |children|
      && forall i :: 0 <= i < |children| ==>
          && r.value[i].name == children[i].0 && r.value[i].metadata.attributes == children[i].1
          && Join(dir, children[i].0).Ok? && Join(dir, children[i].0).value in s'.pathToNode
          && s'.pathToNode[Join(dir, children[i].0).value] == r.value[i].metadata.node
    decreases |children|
  {
    if children != [] {
      hide Join;
      StampAllEntries(s, dir, children[..|children| - 1], now);
    }
  }

  /** A listing answered by the remote, with distinct names, is held by the cache afterwards. */
  lemma ListingShows(w: World, node: NodeId, dir: Path, now: Time, reply: Result<Listing>)
    requires PathOf(w.session, node) == Ok(dir) && reply.Ok? && DistinctNames(RealChildren(reply.value))
    requires Readdir(w, node, now, reply).0.log != w.log && Readdir(w, node, now, reply).1.Ok?
    ensures Shows(Readdir(w, node, now, reply).0, dir, Readdir(w, node, now, reply).1.value)
  {
    var children := RealChildren(reply.value);
    var (w', r) := Readdir(w, node, now, reply);
    CachedStamps(w, dir);
    assert w'.cache == w.cache.RecordListing(dir, children) && r == StampAll(w.session, dir, children, now).1
        && w'.session.pathToNode == StampAll(w.session, dir, children, now).0.pathToNode by {
      hide StampAll, RealChildren, CM.Cache.RecordListing, ReaddirFromCache;
    }
    StampAllEntries(w.session, dir, children, now);
    assert w'.cache.Children(dir) == Some(I.Names(children));
    assert I.Names(children) == NamesOf(r.value);
    hide Readdir, StampAll, RealChildren, CM.Cache.RecordListing, Join, CM.Cache.Attrs, CM.Cache.Children;
    forall i | 0 <= i < |r.value|
      ensures Shown(w', dir, r.value[i])
    {
      var p := Join(dir, children[i].0).value;
      RecordListingView(w.cache, dir, children, p);
      assert Mentions(children, dir, p);
      ListedOnce(children, dir, i, w'.cache.Attrs(p).value);
    }
  }

  // ---- Operations that leave a path alone ------------------------------------

  ghost predicate SameAttrs(w: World, q: Path, attrs: FileAttributes) {
    w.cache.Attrs(q).Some? ==> attrs == w.cache.Attrs(q).value
  }

  /** The operation makes a remote call. */
  ghost predicate Calls(w: World, op: Op) { Next(w, op, w.clock).log != w.log }

  /** The path whose attributes the operation asks the remote for before anything else. */
  ghost function Asked(w: World, op: Op): Option<Path> {
    match op
    case OpLookup(parent, name, _) =>
      if Calls(w, op) && ChildOf(w.session, parent, name).Ok? then Some(ChildOf(w.session, parent, name).value)
      else None
    case OpGetattr(node, _) =>
      if Calls(w, op) && PathOf(w.session, node).Ok? then Some(PathOf(w.session, node).value) else None
    case OpRead(handle, _, _, reply, _, _) =>
      if handle !in w.session.handles || !(w.config.mode.OnDemand? || w.config.mode.Pinned?) then None
      else
        var node := w.session.handles[handle].node;
        var asks := Getattr(w, node, w.clock, reply).0.log != w.log;
        if asks && PathOf(w.session, node).Ok? then Some(PathOf(w.session, node).value)
        else None
    case _ => None
  }

  /** The operation neither makes, moves nor removes `q`, nor learns other attributes of it. */
  ghost predicate SparesAttrs(w: World, op: Op, q: Path) {
    match op
    case OpLookup(_, _, reply) =>
      Asked(w, op) == Some(q) ==> reply != Err(NotFound) && (reply.Ok? ==> SameAttrs(w, q, reply.value))
    case OpGetattr(_, reply) =>
      Asked(w, op) == Some(q) ==> reply != Err(NotFound) && (reply.Ok? ==> SameAttrs(w, q, reply.value))
    case OpRead(_, _, _, reply, _, _) =>
      Asked(w, op) == Some(q) ==> reply != Err(NotFound) && (reply.Ok? ==> SameAttrs(w, q, reply.value))
    case OpReaddir(node, listing) =>
      Calls(w, op) && PathOf(w.session, node).Ok? && listing.Ok? ==>
        forall a :: Lists(RealChildren(listing.value), PathOf(w.session, node).value, q, a) ==> SameAttrs(w, q, a)
    case OpSetattr(node, _, reply) =>
      Calls(w, op) && PathOf(w.session, node) == Ok(q) && reply.Ok? ==> SameAttrs(w, q, reply.value)
    case OpCreate(parent, name, reply) =>
      Calls(w, op) && ChildOf(w.session, parent, name) == Ok(q) && reply.Ok? ==> SameAttrs(w, q, reply.value)
    case OpMkdir(parent, name, reply) =>
      Calls(w, op) && ChildOf(w.session, parent, name) == Ok(q) && reply.Ok? ==> SameAttrs(w, q, reply.value)
    case OpUnlink(parent, name, done) => Calls(w, op) && done.Ok? ==> ChildOf(w.session, parent, name) != Ok(q)
    case OpRmdir(parent, name, done) => Calls(w, op) && done.Ok? ==> ChildOf(w.session, parent, name) != Ok(q)
    case OpRename(parent, name, newParent, newName, done) =>
      var from := ChildOf(w.session, parent, name);
      Calls(w, op) && done.Ok? ==>
        from != Ok(q) && ChildOf(w.session, newParent, newName) != Ok(q) && (from.Ok? ==> !(from.value + "/" <= q))
    case OpRestart(_, _, _, _) => false
    case _ => true
  }

  /** The operation neither moves nor removes `d`, nor changes a name in it, nor learns other names. */
  ghost predicate SparesNames(w: World, op: Op, d: Path) {
    match op
    case OpLookup(_, _, reply) => Asked(w, op) == Some(d) ==> reply != Err(NotFound)
    case OpGetattr(_, reply) => Asked(w, op) == Some(d) ==> reply != Err(NotFound)
    case OpRead(_, _, _, reply, _, _) => Asked(w, op) == Some(d) ==> reply != Err(NotFound)
    case OpReaddir(node, listing) =>
      Calls(w, op) && PathOf(w.session, node) == Ok(d) && listing.Ok? ==>
        w.cache.Children(d) == Some(I.Names(RealChildren(listing.value)))
    case OpCreate(parent, _, reply) => Calls(w, op) && reply.Ok? ==> PathOf(w.session, parent) != Ok(d)
    case OpMkdir(parent, _, reply) => Calls(w, op) && reply.Ok? ==> PathOf(w.session, parent) != Ok(d)
    case OpUnlink(parent, name, done) =>
      Calls(w, op) && done.Ok? ==> PathOf(w.session, parent) != Ok(d) && ChildOf(w.session, parent, name) != Ok(d)
    case OpRmdir(parent, name, done) =>
      Calls(w, op) && done.Ok? ==> PathOf(w.session, parent) != Ok(d) && ChildOf(w.session, parent, name) != Ok(d)
    case OpRename(parent, name, newParent, newName, done) =>
      var from := ChildOf(w.session, parent, name);
      Calls(w, op) && done.Ok? ==>
        && PathOf(w.session, parent) != Ok(d) && PathOf(w.session, newParent) != Ok(d)
        && from != Ok(d) && ChildOf(w.session, newParent, newName) != Ok(d) && (from.Ok? ==> !(from.value + "/" <= d))
    case OpRestart(_, _, _, _) => false
    case _ => true
  }

  ghost predicate KeepsAttrs(c: CM.Cache, c': CM.Cache, q: Path) { c.Attrs(q).Some? ==> c'.Attrs(q) == c.Attrs(q) }
  ghost predicate KeepsNames(c: CM.Cache, c': CM.Cache, d: Path) { c'.Children(d) == c.Children(d) }

  ghost predicate KeepsNode(s: Session, s': Session, q: Path) {
    q in s.pathToNode ==> q in s'.pathToNode && s'.pathToNode[q] == s.pathToNode[q]
  }

  lemma KeepsCompose(c: CM.Cache, c1: CM.Cache, c2: CM.Cache, q: Path)
    ensures KeepsAttrs(c, c1, q) && KeepsAttrs(c1, c2, q) ==> KeepsAttrs(c, c2, q)
    ensures KeepsNames(c, c1, q) && KeepsNames(c1, c2, q) ==> KeepsNames(c, c2, q)
  {
  }

  lemma KeepsSelf(c: CM.Cache, q: Path)
    ensures KeepsAttrs(c, c, q) && KeepsNames(c, c, q)
  {
  }

  lemma PutAttrsKeeps(c: CM.Cache, p: Path, attrs: FileAttributes, q: Path)
    ensures (p == q && c.Attrs(q).Some? ==> attrs == c.Attrs(q).value) ==> KeepsAttrs(c, c.PutAttrs(p, attrs), q)
    ensures KeepsNames(c, c.PutAttrs(p, attrs), q)
  {
  }

  lemma RemoveKeeps(c: CM.Cache, p: Path, q: Path)
    ensures p != q ==> KeepsAttrs(c, c.Remove(p), q) && KeepsNames(c, c.Remove(p), q)
  {
  }

  lemma InvalidateContentKeeps(c: CM.Cache, p: Path, q: Path)
    ensures KeepsAttrs(c, c.InvalidateContent(p), q) && KeepsNames(c, c.InvalidateContent(p), q)
  {
  }

  lemma InvalidateChildrenKeeps(c: CM.Cache, p: Path, q: Path)
    ensures KeepsAttrs(c, c.InvalidateChildren(p), q)
    ensures p != q ==> KeepsNames(c, c.InvalidateChildren(p), q)
  {
  }

  lemma RenameKeeps(c: CM.Cache, from: Path, to: Path, q: Path)
    ensures q != from && q != to && !(from + "/" <= q) ==>
      KeepsAttrs(c, c.Rename(from, to), q) && KeepsNames(c, c.Rename(from, to), q)
  {
  }

  lemma {:induction false} StoreChildrenListings(ix: I.Index, dir: Path, children: Listing)
    ensures I.StoreChildren(ix, dir, children).0.listings == ix.listings
    decreases |children|
  {
    if children != [] { StoreChildrenListings(ix, dir, children[..|children| - 1]); }
  }

  lemma RecordListingKeeps(c: CM.Cache, dir: Path, children: Listing, q: Path)
    ensures (c.Attrs(q).Some? ==> forall a :: Lists(children, dir, q, a) ==> a == c.Attrs(q).value) ==>
      KeepsAttrs(c, c.RecordListing(dir, children), q)
    ensures (dir == q ==> c.Children(q) == Some(I.Names(children))) ==> KeepsNames(c, c.RecordListing(dir, children), q)
  {
    RecordListingView(c, dir, children, q);
    StoreChildrenListings(c.index, dir, children);
  }

  lemma FetchListings(c: CM.Cache, p: Path, attrs: FileAttributes, chunk: nat, script: CM.Script)
    requires chunk * c.chunkSize <= attrs.size
    ensures c.FetchChunk(p, attrs, chunk, script).cache.index.listings == c.index.listings
  {
    hide CM.Download;
  }

  lemma {:induction false} HydrateListings(c: CM.Cache, p: Path, attrs: FileAttributes, i: nat, last: nat,
                                           script: CM.Script)
    requires i <= last ==> last * c.chunkSize <= attrs.size
    ensures c.Hydrate(p, attrs, i, last, script).cache.index.listings == c.index.listings
    decreases last + 1 - i
  {
    hide CM.Cache.FetchChunk;
    if i <= last {
      if c.Has(p, VersionOf(attrs), i) {
        HydrateListings(c, p, attrs, i + 1, last, script);
      } else {
        CacheReads.HydrateFetches(c, p, attrs, i, last, script);
        FetchListings(c, p, attrs, i, script);
        var f := c.FetchChunk(p, attrs, i, script);
        if f.outcome.Ok? { HydrateListings(f.cache, p, attrs, i + 1, last, f.rest); }
      }
    }
  }

  lemma ReadListings(c: CM.Cache, p: Path, attrs: FileAttributes, offset: U64, size: U32, script: CM.Script)
    ensures c.Read(p, attrs, offset, size, script).cache.index.listings == c.index.listings
  {
    hide CM.Cache.Hydrate;
    if size > 0 && offset < attrs.size {
      var cs, end := c.chunkSize, ReadEnd(offset, size, attrs.size);
      InRange(offset, end, cs, LastChunk(end, cs));
      HydrateListings(c, p, attrs, FirstChunk(offset, cs), LastChunk(end, cs), script);
    }
  }

  lemma ReadKeeps(c: CM.Cache, p: Path, attrs: FileAttributes, offset: U64, size: U32, script: CM.Script, q: Path)
    ensures var c' := c.Read(p, attrs, offset, size, script).cache; KeepsAttrs(c, c', q) && KeepsNames(c, c', q)
  {
    ReadView(c, p, attrs, offset, size, script);
    ReadListings(c, p, attrs, offset, size, script);
    hide CM.Cache.Read;
  }

  // ---- Each operation --------------------------------------------------------

  lemma RevalidateKeeps(w: World, w': World, p: Path, key: Option<(NodeId, string)>, reply: Result<FileAttributes>,
                        q: Path)
    requires Revalidates(w, w', p, key, reply)
    ensures (w'.log != w.log && p == q ==> reply != Err(NotFound) && (reply.Ok? ==> SameAttrs(w, q, reply.value))) ==>
      KeepsAttrs(w.cache, w'.cache, q)
    ensures (w'.log != w.log && p == q ==> reply != Err(NotFound)) ==> KeepsNames(w.cache, w'.cache, q)
  {
    KeepsSelf(w.cache, q);
    if reply.Ok? { PutAttrsKeeps(w.cache, p, reply.value, q); }
    RemoveKeeps(w.cache, p, q);
    hide CM.Cache.PutAttrs, CM.Cache.Remove, KeepsAttrs, KeepsNames;
  }

  lemma QueryKeeps(w: World, op: Op, q: Path)
    requires op.OpLookup? || op.OpGetattr?
    ensures SparesAttrs(w, op, q) ==> KeepsAttrs(w.cache, Next(w, op, w.clock).cache, q)
    ensures SparesNames(w, op, q) ==> KeepsNames(w.cache, Next(w, op, w.clock).cache, q)
  {
    if op.OpLookup? {
      if ChildOf(w.session, op.parent, op.name).Ok? {
        var p := ChildOf(w.session, op.parent, op.name).value;
        LookupRevalidates(w, op);
        hide Next, ChildOf, Revalidates, KeepsAttrs, KeepsNames, SameAttrs;
        RevalidateKeeps(w, Next(w, op, w.clock), p, Some((op.parent, op.name)), op.attrs, q);
      }
    } else if op.node in w.session.nodeToPath {
      GetattrRevalidates(w, op.node, op.attrs);
      hide Getattr, Revalidates, KeepsAttrs, KeepsNames, SameAttrs;
      RevalidateKeeps(w, Next(w, op, w.clock), w.session.nodeToPath[op.node], None, op.attrs, q);
    }
  }

  lemma ReaddirKeeps(w: World, op: Op, q: Path)
    requires op.OpReaddir?
    ensures SparesAttrs(w, op, q) ==> KeepsAttrs(w.cache, Next(w, op, w.clock).cache, q)
    ensures SparesNames(w, op, q) ==> KeepsNames(w.cache, Next(w, op, w.clock).cache, q)
  {
    KeepsSelf(w.cache, q);
    if op.node in w.session.nodeToPath {
      ReaddirEffect(w, op);
      if op.listing.Ok? {
        RecordListingKeeps(w.cache, w.session.nodeToPath[op.node], RealChildren(op.listing.value), q);
      }
      hide Next, CM.Cache.RecordListing, RealChildren, Lists, StampAll, CM.Cache.Attrs, CM.Cache.Children, KeepsAttrs,
        KeepsNames;
    }
  }

  lemma FileKeeps(w: World, op: Op, q: Path)
    requires op.OpOpen? || op.OpWrite? || op.OpRelease? || op.OpSetattr?
    ensures SparesAttrs(w, op, q) ==> KeepsAttrs(w.cache, Next(w, op, w.clock).cache, q)
    ensures KeepsNames(w.cache, Next(w, op, w.clock).cache, q)
  {
    KeepsSelf(w.cache, q);
    if op.OpWrite? && op.handle in w.session.handles {
      InvalidateContentKeeps(w.cache, w.session.handles[op.handle].path, q);
    }
    if (op.OpOpen? || op.OpSetattr?) && op.node in w.session.nodeToPath {
      InvalidateContentKeeps(w.cache, w.session.nodeToPath[op.node], q);
      if op.OpSetattr? && op.attrs.Ok? { PutAttrsKeeps(w.cache, w.session.nodeToPath[op.node], op.attrs.value, q); }
    }
    hide CM.Cache.InvalidateContent, CM.Cache.PutAttrs, CM.Cache.Attrs, CM.Cache.Children, KeepsAttrs, KeepsNames;
  }

  lemma ReadOpKeeps(w: World, op: Op, q: Path)
    requires op.OpRead?
    ensures SparesAttrs(w, op, q) ==> KeepsAttrs(w.cache, Next(w, op, w.clock).cache, q)
    ensures SparesNames(w, op, q) ==> KeepsNames(w.cache, Next(w, op, w.clock).cache, q)
  {
    KeepsSelf(w.cache, q);
    if op.handle in w.session.handles {
      var file := w.session.handles[op.handle];
      var (w1, meta) := Getattr(w, file.node, w.clock, op.attrs);
      if file.node in w.session.nodeToPath {
        GetattrRevalidates(w, file.node, op.attrs);
        RevalidateKeeps(w, w1, w.session.nodeToPath[file.node], None, op.attrs, q);
      }
      if meta.Ok? {
        ReadKeeps(w1.cache, file.path, meta.value.attributes, op.offset, op.size, op.script, q);
        var read := w1.cache.Read(file.path, meta.value.attributes, op.offset, op.size, op.script);
        KeepsCompose(w.cache, w1.cache, read.cache, q);
      }
      hide Getattr, CM.Cache.Read, CM.Cache.ReadCached, KeepsAttrs, KeepsNames, SameAttrs, Revalidates;
    }
  }

  lemma CreateKeeps(w: World, op: Op, q: Path)
    requires (op.OpCreate? || op.OpMkdir?) && Next(w, op, w.clock).log != w.log
    ensures SparesAttrs(w, op, q) ==> KeepsAttrs(w.cache, Next(w, op, w.clock).cache, q)
    ensures SparesNames(w, op, q) ==> KeepsNames(w.cache, Next(w, op, w.clock).cache, q)
  {
    KeepsSelf(w.cache, q);
    CreateEffect(w, op);
    var p, dir := ChildOf(w.session, op.parent, op.name).value, w.session.nodeToPath[op.parent];
    hide Next, CM.Cache.PutAttrs, CM.Cache.InvalidateChildren, KeepsAttrs, KeepsNames, ChildOf;
    if op.attrs.Ok? {
      var c := w.cache.PutAttrs(p, op.attrs.value);
      PutAttrsKeeps(w.cache, p, op.attrs.value, q);
      InvalidateChildrenKeeps(c, dir, q);
      KeepsCompose(w.cache, c, c.InvalidateChildren(dir), q);
    }
  }

  lemma RemoveNameKeeps(w: World, op: Op, q: Path)
    requires (op.OpUnlink? || op.OpRmdir?) && Next(w, op, w.clock).log != w.log
    ensures SparesAttrs(w, op, q) ==> KeepsAttrs(w.cache, Next(w, op, w.clock).cache, q)
    ensures SparesNames(w, op, q) ==> KeepsNames(w.cache, Next(w, op, w.clock).cache, q)
  {
    KeepsSelf(w.cache, q);
    RemoveEffect(w, op);
    var p, dir := ChildOf(w.session, op.parent, op.name).value, w.session.nodeToPath[op.parent];
    hide Next, CM.Cache.Remove, CM.Cache.InvalidateChildren, KeepsAttrs, KeepsNames, ChildOf;
    if op.done.Ok? {
      RemoveKeeps(w.cache, p, q);
      InvalidateChildrenKeeps(w.cache.Remove(p), dir, q);
      KeepsCompose(w.cache, w.cache.Remove(p), w.cache.Remove(p).InvalidateChildren(dir), q);
    }
  }

  lemma NameKeeps(w: World, op: Op, q: Path)
    requires op.OpCreate? || op.OpMkdir? || op.OpUnlink? || op.OpRmdir?
    ensures SparesAttrs(w, op, q) ==> KeepsAttrs(w.cache, Next(w, op, w.clock).cache, q)
    ensures SparesNames(w, op, q) ==> KeepsNames(w.cache, Next(w, op, w.clock).cache, q)
  {
    if Next(w, op, w.clock).log == w.log {
      QuietNames(w, op);
      hide Next, SparesAttrs, SparesNames;
    } else {
      hide Next, SparesAttrs, SparesNames, KeepsAttrs, KeepsNames;
      if op.OpCreate? || op.OpMkdir? { CreateKeeps(w, op, q); } else { RemoveNameKeeps(w, op, q); }
    }
  }

  lemma RenameOpKeeps(w: World, op: Op, q: Path)
    requires op.OpRename?
    ensures SparesAttrs(w, op, q) ==> KeepsAttrs(w.cache, Next(w, op, w.clock).cache, q)
    ensures SparesNames(w, op, q) ==> KeepsNames(w.cache, Next(w, op, w.clock).cache, q)
    ensures SparesAttrs(w, op, q) ==> KeepsNode(w.session, Next(w, op, w.clock).session, q)
  {
    KeepsSelf(w.cache, q);
    if Next(w, op, w.clock).log == w.log {
      QuietNames(w, op);
    } else {
      RenameEffect(w, op);
      RenameNode(w, op, q);
      var from, to := ChildOf(w.session, op.parent, op.name).value, ChildOf(w.session, op.newParent, op.newName).value;
      var a, b := w.session.nodeToPath[op.parent], w.session.nodeToPath[op.newParent];
      hide Next, CM.Cache.Rename, CM.Cache.InvalidateChildren, KeepsAttrs, KeepsNames, ChildOf, KeepsNode;
      if op.done.Ok? {
        var c := w.cache.Rename(from, to);
        RenameKeeps(w.cache, from, to, q);
        InvalidateChildrenKeeps(c, a, q);
        InvalidateChildrenKeeps(c.InvalidateChildren(a), b, q);
        KeepsCompose(w.cache, c, c.InvalidateChildren(a), q);
        KeepsCompose(w.cache, c.InvalidateChildren(a), c.InvalidateChildren(a).InvalidateChildren(b), q);
      }
    }
  }

  lemma RenameNode(w: World, op: Op, q: Path)
    requires op.OpRename?
    ensures (op.done.Ok? ==>
               ChildOf(w.session, op.parent, op.name) != Ok(q)
                 && ChildOf(w.session, op.newParent, op.newName) != Ok(q)) ==>
      KeepsNode(w.session, Next(w, op, w.clock).session, q)
  {
    var from, to := ChildOf(w.session, op.parent, op.name), ChildOf(w.session, op.newParent, op.newName);
    assert from.Ok? ==> op.parent in w.session.nodeToPath;
    assert to.Ok? ==> op.newParent in w.session.nodeToPath;
    hide ChildOf, CM.Cache.Rename, CM.Cache.InvalidateChildren;
  }

  /** Attributes and node of a spared path, and the names in a spared directory, are what they were. */
  lemma SparesKeeps(w: World, op: Op, q: Path)
    requires N.SessionOk(w)
    ensures SparesAttrs(w, op, q) ==>
      KeepsAttrs(w.cache, Next(w, op, w.clock).cache, q) && KeepsNode(w.session, Next(w, op, w.clock).session, q)
    ensures SparesNames(w, op, q) ==> KeepsNames(w.cache, Next(w, op, w.clock).cache, q)
  {
    N.NodesStep(w, op, w.clock);
    hide Next, KeepsAttrs, KeepsNames, Asked, Calls;
    match op
    case OpLookup(_, _, _) => QueryKeeps(w, op, q);
    case OpGetattr(_, _) => QueryKeeps(w, op, q);
    case OpReaddir(_, _) => ReaddirKeeps(w, op, q);
    case OpRead(_, _, _, _, _, _) => ReadOpKeeps(w, op, q);
    case OpRename(_, _, _, _, _) => RenameOpKeeps(w, op, q);
    case OpOpen(_, _, _) => FileKeeps(w, op, q);
    case OpWrite(_, _, _, _) => FileKeeps(w, op, q);
    case OpRelease(_) => FileKeeps(w, op, q);
    case OpSetattr(_, _, _) => FileKeeps(w, op, q);
    case OpCreate(_, _, _) => NameKeeps(w, op, q);
    case OpMkdir(_, _, _) => NameKeeps(w, op, q);
    case OpUnlink(_, _, _) => NameKeeps(w, op, q);
    case OpRmdir(_, _, _) => NameKeeps(w, op, q);
    case OpRestart(_, _, _, _) =>
  }

  // ---- Whole runs ------------------------------------------------------------

  /**
   The operation leaves the names in the directory alone, and the attributes and node of every child of the listing.
   */
  ghost predicate SparesListing(w: World, op: Op, dir: Path, entries: seq<DirectoryEntry>) {
    && SparesNames(w, op, dir)
    && forall i :: 0 <= i < |entries| && Join(dir, entries[i].name).Ok? ==>
         SparesAttrs(w, op, Join(dir, entries[i].name).value)
  }

  ghost predicate SparingRun(w: World, ops: seq<Timed>, dir: Path, entries: seq<DirectoryEntry>)
    decreases |ops|
  {
    ops == [] || (SparesListing(w.(clock := ops[0].now), ops[0].op, dir, entries)
                  && SparingRun(Tick(w, ops[0].op, ops[0].now), ops[1..], dir, entries))
  }

  lemma ShowsStep(w: World, op: Op, dir: Path, entries: seq<DirectoryEntry>)
    requires N.SessionOk(w) && Shows(w, dir, entries) && SparesListing(w, op, dir, entries)
    ensures Shows(Next(w, op, w.clock), dir, entries)
  {
    hide Next, SparesAttrs, SparesNames, CM.Cache.Attrs, CM.Cache.Children, Join, NamesOf;
    SparesKeeps(w, op, dir);
    forall i | 0 <= i < |entries|
      ensures Shown(Next(w, op, w.clock), dir, entries[i])
    {
      assert Shown(w, dir, entries[i]);
      SparesKeeps(w, op, Join(dir, entries[i].name).value);
    }
  }

  lemma {:induction false} ShowsRun(w: World, ops: seq<Timed>, w': World, dir: Path, entries: seq<DirectoryEntry>)
    requires N.SessionOk(w) && Shows(w, dir, entries) && Runs(w, ops, w') && SparingRun(w, ops, dir, entries)
    ensures Shows(w', dir, entries)
    decreases |ops|
  {
    if ops != [] {
      hide Next, SparesListing, N.NodeTable;
      var w0 := w.(clock := ops[0].now);
      assert Shows(w0, dir, entries) by {
        assert forall i :: 0 <= i < |entries| ==> Shown(w, dir, entries[i]) && Shown(w0, dir, entries[i]);
      }
      N.NodesStep(w0, ops[0].op, ops[0].now);
      ShowsStep(w0, ops[0].op, dir, entries);
      hide Shows;
      ShowsRun(Tick(w, ops[0].op, ops[0].now), ops[1..], w', dir, entries);
    }
  }

  /**
   Replay. A listing that the remote gave with distinct names is served again by the cache (while its stamp is live, in
   offline mode, or when the remote cannot be reached): the same names in the same order with the same nodes and
   attributes, after any run that leaves the directory and its children alone.
   */
  lemma ListingReplays(w: World, node: NodeId, dir: Path, now: Time, reply: Result<Listing>, ops: seq<Timed>, w': World,
                       node': NodeId, later: Time, reply': Result<Listing>)
    requires N.SessionOk(w) && PathOf(w.session, node) == Ok(dir) && reply.Ok?
    requires DistinctNames(RealChildren(reply.value))
    requires Readdir(w, node, now, reply).0.log != w.log && Readdir(w, node, now, reply).1.Ok?
    requires Runs(Readdir(w, node, now, reply).0, ops, w')
    requires SparingRun(Readdir(w, node, now, reply).0, ops, dir, Readdir(w, node, now, reply).1.value)
    requires PathOf(w'.session, node') == Ok(dir) && (w'.MetadataFresh(dir, later) || reply' == Err(Unavailable))
    ensures Readdir(w', node', later, reply').1 == Readdir(w, node, now, reply).1
    ensures Readdir(w', node', later, reply').0.session == w'.session
  {
    var (w1, entries) := Readdir(w, node, now, reply);
    ListingShows(w, node, dir, now, reply);
    N.ReaddirNodes(w, OpReaddir(node, reply), now);
    assert N.SessionOk(w1);
    ShowsRun(w1, ops, w', dir, entries.value);
    ReplayFromCache(w', dir, entries.value);
    var w2 := w'.Logged(ReadDirEvent(dir, later, reply'));
    assert Shows(w2, dir, entries.value) by {
      assert forall i :: 0 <= i < |entries.value| ==>
        Shown(w', dir, entries.value[i]) && Shown(w2, dir, entries.value[i]);
    }
    ReplayFromCache(w2, dir, entries.value);
    hide Runs, SparingRun, Shows, ReaddirFromCache, StampAll, RealChildren, CM.Cache.RecordListing, N.NodeTable;
  }
}
