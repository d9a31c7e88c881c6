/** What the operations do to the cache, to the stamps and to the log: small facts for the run-wide proofs. */
module VfsViews {
  import opened Base
  import opened RemotePaths
  import opened Chunks
  import I = CacheIndex
  import CM = CacheModel
  import CacheReads
  import opened VfsModel

  lemma PutAttrsView(c: CM.Cache, p: Path, attrs: FileAttributes, q: Path)
    ensures c.PutAttrs(p, attrs).Attrs(q) == if q == p then Some(attrs) else c.Attrs(q)
  {
  }

  lemma RemoveView(c: CM.Cache, p: Path, q: Path)
    ensures c.Remove(p).Attrs(q) == if q == p then None else c.Attrs(q)
  {
  }

  lemma InvalidateView(c: CM.Cache, p: Path, q: Path)
    ensures c.InvalidateContent(p).Attrs(q) == c.Attrs(q)
    ensures c.InvalidateChildren(p).Attrs(q) == c.Attrs(q)
  {
  }

  /** After a rename a path is gone, or it is the target and has what the source had, or nothing changed. */
  lemma RenameView(c: CM.Cache, from: Path, to: Path, q: Path)
    ensures var a := c.Rename(from, to).Attrs(q);
      || a == None
      || a == (if q == to && c.Attrs(from).Some? then c.Attrs(from) else c.Attrs(q))
    ensures from != to ==> c.Rename(from, to).Attrs(from) == None
    ensures from != to && !(from + "/" <= to) && c.Attrs(from).Some? ==> c.Rename(from, to).Attrs(to) == c.Attrs(from)
  {
  }

  /** A child listed with these attributes. */
  ghost predicate Lists(listing: Listing, dir: Path, p: Path, attrs: FileAttributes) {
    exists i :: 0 <= i < |listing| && Join(dir, listing[i].0) == Ok(p) && listing[i].1 == attrs
  }

  ghost predicate Mentions(listing: Listing, dir: Path, p: Path) {
    exists i :: 0 <= i < |listing| && Join(dir, listing[i].0) == Ok(p)
  }

  /** What the last entry of a listing adds. */
  lemma ListsLast(children: Listing, dir: Path, q: Path)
    requires children != []
    ensures var n := |children| - 1;
      && (Mentions(children, dir, q) <==> Mentions(children[..n], dir, q) || Join(dir, children[n].0) == Ok(q))
      && (forall a :: Lists(children[..n], dir, q, a) ==> Lists(children, dir, q, a))
      && (Join(dir, children[n].0) == Ok(q) ==> Lists(children, dir, q, children[n].1))
  {
    hide Join;
    var n := |children| - 1;
    var front := children[..n];
    assert forall i :: 0 <= i < n ==> front[i] == children[i];
    forall a | Lists(front, dir, q, a)
      ensures Lists(children, dir, q, a)
    {
      var i :| 0 <= i < n && Join(dir, front[i].0) == Ok(q) && front[i].1 == a;
      assert children[i] == front[i];
    }
    if Mentions(front, dir, q) {
      var i :| 0 <= i < n && Join(dir, front[i].0) == Ok(q);
      assert children[i] == front[i];
    }
  }

  lemma {:induction false} StoreChildrenView(ix: I.Index, dir: Path, children: Listing, q: Path)
    ensures var e, e' := ix.entries, I.StoreChildren(ix, dir, children).0.entries;
      if Mentions(children, dir, q) then q in e' && Lists(children, dir, q, e'[q].attrs)
      else (q in e' <==> q in e) && (q in e ==> e'[q] == e[q])
    decreases |children|
  {
    if children != [] {
      ListsLast(children, dir, q);
      hide Join, Lists, Mentions;
      StoreChildrenView(ix, dir, children[..|children| - 1], q);
    }
  }

  lemma RecordListingView(c: CM.Cache, dir: Path, children: Listing, q: Path)
    ensures var a := c.RecordListing(dir, children).Attrs(q);
      if Mentions(children, dir, q) then a.Some? && Lists(children, dir, q, a.value) else a == c.Attrs(q)
  {
    StoreChildrenView(c.index, dir, children, q);
  }

  /** Dropping the dot entries drops no real child and adds none. */
  lemma {:induction false} RealChildrenIn(listing: Listing)
    ensures forall e :: e in RealChildren(listing) <==> e in listing && e.0 != "." && e.0 != ".."
    decreases |listing|
  {
    if listing != [] {
      RealChildrenIn(listing[..|listing| - 1]);
      assert listing == listing[..|listing| - 1] + [listing[|listing| - 1]];
    }
  }

  lemma RealListed(listing: Listing, dir: Path, p: Path, attrs: FileAttributes)
    requires Lists(RealChildren(listing), dir, p, attrs)
    ensures Lists(listing, dir, p, attrs)
  {
    RealChildrenIn(listing);
    var kids := RealChildren(listing);
    var i :| 0 <= i < |kids| && Join(dir, kids[i].0) == Ok(p) && kids[i].1 == attrs;
    assert kids[i] in listing;
    var j :| 0 <= j < |listing| && listing[j] == kids[i];
  }

  /** The stamps a listing leaves: only its own children are touched, and they are stamped now. */
  lemma {:induction false} StampAllView(s: Session, dir: Path, children: Listing, now: Time, q: Path)
    ensures var v, v' := s.validated, StampAll(s, dir, children, now).0.validated;
      || (Mentions(children, dir, q) && q in v' && v'[q] == now)
      || ((q in v' <==> q in v) && (q in v ==> v'[q] == v[q]))
    ensures StampAll(s, dir, children, now).1.Ok? && Mentions(children, dir, q) ==>
      var v' := StampAll(s, dir, children, now).0.validated; q in v' && v'[q] == now
    decreases |children|
  {
    if children != [] {
      ListsLast(children, dir, q);
      hide Join, Lists, Mentions;
      StampAllView(s, dir, children[..|children| - 1], now, q);
    }
  }

  /** A fetch keeps the attributes of every known path; an unknown one can only get those it was fetched under. */
  ghost predicate FetchView(c: CM.Cache, c': CM.Cache, p: Path, attrs: FileAttributes) {
    forall q :: c'.Attrs(q) == c.Attrs(q) || (q == p && c.Attrs(q).None? && c'.Attrs(q) == Some(attrs))
  }

  lemma FetchChunkView(c: CM.Cache, p: Path, attrs: FileAttributes, chunk: nat, script: CM.Script)
    requires chunk * c.chunkSize <= attrs.size
    ensures FetchView(c, c.FetchChunk(p, attrs, chunk, script).cache, p, attrs)
  {
    hide CM.Download;
  }

  lemma {:induction false} HydrateView(c: CM.Cache, p: Path, attrs: FileAttributes, i: nat, last: nat,
                                       script: CM.Script)
    requires i <= last ==> last * c.chunkSize <= attrs.size
    ensures FetchView(c, c.Hydrate(p, attrs, i, last, script).cache, p, attrs)
    decreases last + 1 - i
  {
    hide CM.Cache.FetchChunk;
    if i > last {
    } else if c.Has(p, VersionOf(attrs), i) {
      HydrateView(c, p, attrs, i + 1, last, script);
    } else {
      CacheReads.HydrateFetches(c, p, attrs, i, last, script);
      FetchChunkView(c, p, attrs, i, script);
      var f := c.FetchChunk(p, attrs, i, script);
      if f.outcome.Ok? { HydrateView(f.cache, p, attrs, i + 1, last, f.rest); }
    }
  }

  lemma ReadView(c: CM.Cache, p: Path, attrs: FileAttributes, offset: U64, size: U32, script: CM.Script)
    ensures FetchView(c, c.Read(p, attrs, offset, size, script).cache, p, attrs)
  {
    hide CM.Cache.Hydrate, FetchView;
    if size > 0 && offset < attrs.size {
      var cs, end := c.chunkSize, ReadEnd(offset, size, attrs.size);
      InRange(offset, end, cs, LastChunk(end, cs));
      HydrateView(c, p, attrs, FirstChunk(offset, cs), LastChunk(end, cs), script);
    } else {
      FetchViewSelf(c, p, attrs);
    }
  }

  lemma FetchViewSelf(c: CM.Cache, p: Path, attrs: FileAttributes)
    ensures FetchView(c, c, p, attrs)
  {
  }

  lemma InternStamps(s: Session, p: Path)
    ensures Intern(s, p).0.validated == s.validated && Intern(s, p).0.handles == s.handles
  {
  }

  lemma CachedStamps(w: World, dir: Path)
    ensures ReaddirFromCache(w, dir).Some? ==>
      var w' := ReaddirFromCache(w, dir).value.0;
      w' == w.(session := w'.session) && w'.session.validated == w.session.validated
  {
    if ReaddirFromCache(w, dir).Some? {
      InternAllStamps(w.session, dir, CachedChildren(w.cache, dir, w.cache.Children(dir).value).value);
    }
  }

  lemma {:induction false} InternAllStamps(s: Session, dir: Path, children: Listing)
    ensures InternAll(s, dir, children).0.validated == s.validated
    decreases |children|
  {
    if children != [] { InternAllStamps(s, dir, children[..|children| - 1]); }
  }

  // ---- What each operation does to the cache, the stamps and the log ---------

  /** What `lookup` and `getattr` do about the path `q`: nothing, or one stat and what follows from its answer. */
  ghost predicate Revalidates(w: World, w': World, q: Path, key: Option<(NodeId, string)>,
                              reply: Result<FileAttributes>) {
    && w'.config == w.config && w'.clock == w.clock
    && if w'.log == w.log then w'.cache == w.cache && w'.session.validated == w.session.validated
       else
         && w'.log == w.log + [StatEvent(q, w.clock, key, reply)]
         && match reply
            case Ok(attrs) =>
              w'.cache == w.cache.PutAttrs(q, attrs) && w'.session.validated == w.session.validated[q := w.clock]
            case Err(NotFound) => w'.cache == w.cache.Remove(q) && w'.session.validated == w.session.validated
            case Err(_) => w'.cache == w.cache && w'.session.validated == w.session.validated
  }

  lemma LookupRevalidates(w: World, op: Op)
    requires op.OpLookup? && ChildOf(w.session, op.parent, op.name).Ok?
    ensures Revalidates(w, Next(w, op, w.clock), ChildOf(w.session, op.parent, op.name).value,
                        Some((op.parent, op.name)), op.attrs)
  {
    var q, key := ChildOf(w.session, op.parent, op.name).value, (op.parent, op.name);
    InternStamps(w.session.(validated := w.session.validated[q := w.clock], negative := w.session.negative - {key}), q);
    InternStamps(w.session, q);
    hide ChildOf, Intern, CM.Cache.PutAttrs, CM.Cache.Remove, CM.Cache.Attrs;
  }

  lemma GetattrRevalidates(w: World, node: NodeId, reply: Result<FileAttributes>)
    requires node in w.session.nodeToPath
    ensures Revalidates(w, Getattr(w, node, w.clock, reply).0, w.session.nodeToPath[node], None, reply)
  {
    hide CM.Cache.PutAttrs, CM.Cache.Remove, CM.Cache.Attrs;
  }

  /** What `readdir` does to the cache and the stamps. */
  lemma ReaddirEffect(w: World, op: Op)
    requires op.OpReaddir? && op.node in w.session.nodeToPath
    ensures var w', dir := Next(w, op, w.clock), w.session.nodeToPath[op.node];
      && w'.config == w.config && w'.clock == w.clock
      && (w'.log == w.log || w'.log == w.log + [ReadDirEvent(dir, w.clock, op.listing)])
      && (w'.log == w.log || op.listing.Err? ==> w'.cache == w.cache && w'.session.validated == w.session.validated)
      && (w'.log != w.log && op.listing.Ok? ==>
            var v := StampAll(w.session, dir, RealChildren(op.listing.value), w.clock).0.validated;
            w'.cache == w.cache.RecordListing(dir, RealChildren(op.listing.value))
            && (w'.session.validated == v || w'.session.validated == v[dir := w.clock]))
  {
    var dir := w.session.nodeToPath[op.node];
    CachedStamps(w, dir);
    CachedStamps(w.Logged(ReadDirEvent(dir, w.clock, op.listing)), dir);
    hide ReaddirFromCache, StampAll, RealChildren, CM.Cache.RecordListing;
  }

  /** What `create` and `mkdir` do to the cache and the stamps. */
  lemma CreateEffect(w: World, op: Op)
    requires (op.OpCreate? || op.OpMkdir?) && Next(w, op, w.clock).log != w.log
    ensures ChildOf(w.session, op.parent, op.name).Ok? && op.parent in w.session.nodeToPath
    ensures var w', q, key := Next(w, op, w.clock), ChildOf(w.session, op.parent, op.name).value, (op.parent, op.name);
      && w'.config == w.config && w'.clock == w.clock
      && w'.log == w.log + [if op.OpCreate? then CreateEvent(q, w.clock, Some(key), op.attrs)
                            else MkdirEvent(q, w.clock, Some(key), op.attrs)]
      && (op.attrs.Err? ==> w'.cache == w.cache && w'.session.validated == w.session.validated)
      && (op.attrs.Ok? ==>
            w'.cache == w.cache.PutAttrs(q, op.attrs.value).InvalidateChildren(w.session.nodeToPath[op.parent])
            && w'.session.validated == w.session.validated[q := w.clock])
  {
    var child, key := ChildOf(w.session, op.parent, op.name), (op.parent, op.name);
    if child.Ok? {
      InternStamps(w.session.(validated := w.session.validated[child.value := w.clock],
                              negative := w.session.negative - {key}), child.value);
    }
    assert child.Ok? ==> op.parent in w.session.nodeToPath;
    hide ChildOf, Intern, CM.Cache.PutAttrs, CM.Cache.InvalidateChildren;
  }

  /** A name operation that never reached the remote did nothing. */
  lemma QuietNames(w: World, op: Op)
    requires op.OpCreate? || op.OpMkdir? || op.OpUnlink? || op.OpRmdir? || op.OpRename?
    requires Next(w, op, w.clock).log == w.log
    ensures Next(w, op, w.clock) == w
  {
    if op.OpRename? {
      var from, to := ChildOf(w.session, op.parent, op.name), ChildOf(w.session, op.newParent, op.newName);
      assert from.Ok? ==> op.parent in w.session.nodeToPath;
      assert to.Ok? ==> op.newParent in w.session.nodeToPath;
    } else {
      assert ChildOf(w.session, op.parent, op.name).Ok? ==> op.parent in w.session.nodeToPath;
    }
    hide ChildOf, Intern, RenamePath, CM.Cache.PutAttrs, CM.Cache.Remove, CM.Cache.InvalidateChildren, CM.Cache.Rename;
  }

  lemma RemoveEffect(w: World, op: Op)
    requires (op.OpUnlink? || op.OpRmdir?) && Next(w, op, w.clock).log != w.log
    ensures ChildOf(w.session, op.parent, op.name).Ok? && op.parent in w.session.nodeToPath
    ensures var w', q, key := Next(w, op, w.clock), ChildOf(w.session, op.parent, op.name).value, (op.parent, op.name);
      && w'.config == w.config && w'.clock == w.clock && w'.session.validated == w.session.validated
      && w'.log == w.log + [if op.OpUnlink? then UnlinkEvent(q, w.clock, Some(key), op.done)
                            else RmdirEvent(q, w.clock, Some(key), op.done)]
      && w'.cache == if op.done.Ok? then w.cache.Remove(q).InvalidateChildren(w.session.nodeToPath[op.parent])
        else w.cache
  {
    assert ChildOf(w.session, op.parent, op.name).Ok? ==> op.parent in w.session.nodeToPath;
    hide ChildOf, CM.Cache.Remove, CM.Cache.InvalidateChildren;
  }

  lemma RenameEffect(w: World, op: Op)
    requires op.OpRename? && Next(w, op, w.clock).log != w.log
    ensures ChildOf(w.session, op.parent, op.name).Ok? && op.parent in w.session.nodeToPath
    ensures ChildOf(w.session, op.newParent, op.newName).Ok? && op.newParent in w.session.nodeToPath
    ensures var from, to :=
      ChildOf(w.session, op.parent, op.name).value, ChildOf(w.session, op.newParent, op.newName).value;
      var w' := Next(w, op, w.clock);
      && w'.config == w.config && w'.clock == w.clock
      && w'.log == w.log + [RenameEvent(from, w.clock, Some((op.parent, op.name)), to, (op.newParent, op.newName),
                                        op.done)]
      && (op.done.Err? ==> w'.cache == w.cache && w'.session.validated == w.session.validated)
      && (op.done.Ok? ==>
            w'.cache == w.cache.Rename(from, to).InvalidateChildren(w.session.nodeToPath[op.parent])
                                                .InvalidateChildren(w.session.nodeToPath[op.newParent])
            && w'.session.validated == w.session.validated - {from})
  {
    var from, to := ChildOf(w.session, op.parent, op.name), ChildOf(w.session, op.newParent, op.newName);
    assert from.Ok? ==> op.parent in w.session.nodeToPath;
    assert to.Ok? ==> op.newParent in w.session.nodeToPath;
    if from.Ok? && to.Ok? { RenamePathStamps(w.session, from.value, to.value); }
    hide ChildOf, RenamePath, CM.Cache.Rename, CM.Cache.InvalidateChildren;
  }

  lemma RenamePathStamps(s: Session, from: Path, to: Path)
    ensures RenamePath(s, from, to).validated == s.validated
  {
  }

  /** What a successful rename does, all in one. */
  lemma RenameCalls(w: World, op: Op, from: Path, to: Path)
    requires op.OpRename? && op.done.Ok? && !w.config.readOnly
    requires ChildOf(w.session, op.parent, op.name) == Ok(from)
    requires ChildOf(w.session, op.newParent, op.newName) == Ok(to)
    ensures op.parent in w.session.nodeToPath && op.newParent in w.session.nodeToPath
    ensures var w', moved := Next(w, op, w.clock), RenamePath(w.session, from, to);
      && w'.config == w.config && w'.clock == w.clock
      && w'.log == w.log + [RenameEvent(from, w.clock, Some((op.parent, op.name)), to, (op.newParent, op.newName),
                                        op.done)]
      && w'.cache == w.cache.Rename(from, to).InvalidateChildren(w.session.nodeToPath[op.parent])
                                             .InvalidateChildren(w.session.nodeToPath[op.newParent])
      && w'.session.pathToNode == moved.pathToNode && w'.session.nodeToPath == moved.nodeToPath
      && w'.session.nextNode == w.session.nextNode
      && w'.session.handles == w.session.handles && w'.session.nextHandle == w.session.nextHandle
      && w'.session.validated == w.session.validated - {from}
  {
    RenamePathRest(w.session, from, to);
    hide RenamePath, Join, CM.Cache.Rename, CM.Cache.InvalidateChildren;
  }

  lemma RenamePathRest(s: Session, from: Path, to: Path)
    ensures var s' := RenamePath(s, from, to);
      s' == s.(pathToNode := s'.pathToNode, nodeToPath := s'.nodeToPath)
  {
  }
}
