/** With a single writer the cache mirrors the remote: the invariant and each operation that keeps it. */
module VfsMirror {
  import opened Base
  import opened RemotePaths
  import I = CacheIndex
  import CM = CacheModel
  import opened CacheReads
  import opened VfsModel
  import opened VfsViews
  import opened VfsDurable
  import opened VfsRemote

  /** The cached content of `p` is content of the remote file, under its current version. */
  ghost predicate ContentMirrors(c: CM.Cache, r: Tree, p: Path) {
    var content := I.Content(c.index, p);
    content.Some? ==>
      p in r && r[p].FileNode? && content.value.version == r[p].version && ChunksTrue(content.value, c.disk, r[p].bytes)
  }

  /** A cached path exists remotely; if its stamp is live its cached version is current; its content is true. */
  ghost predicate MirrorsAt(w: World, r: Tree, p: Path) {
    && (w.cache.Attrs(p).Some? ==> p in r)
    && (w.cache.Attrs(p).Some? && Live(w, p) ==> Describes(r, p, w.cache.Attrs(p).value))
    && ContentMirrors(w.cache, r, p)
  }

  ghost predicate Mirrors(w: World, r: Tree) {
    && TreeOk(r) && Durable(w.cache)
    && forall p :: MirrorsAt(w, r, p)
  }

  // ---- Moving content between caches ----------------------------------------

  /** Objects were only deleted. */
  ghost predicate Shrinks(c: CM.Cache, c': CM.Cache) {
    forall o :: o in c'.disk ==> o in c.disk && c'.disk[o] == c.disk[o]
  }

  /** Content carried over from key `q` of `c` to key `p` of `c'`, or dropped. */
  ghost predicate Carries(c: CM.Cache, c': CM.Cache, p: Path, q: Path) {
    I.Content(c'.index, p) == None || I.Content(c'.index, p) == I.Content(c.index, q)
  }

  lemma CarriedMirrors(c: CM.Cache, c': CM.Cache, r: Tree, r': Tree, p: Path, q: Path)
    requires CM.CacheOk(c') && Shrinks(c, c') && Carries(c, c', p, q)
    requires ContentMirrors(c, r, q)
    requires q in r && r[q].FileNode? && I.Content(c'.index, p).Some? ==> p in r' && r'[p] == r[q]
    ensures ContentMirrors(c', r', p)
  {
    var content := I.Content(c'.index, p);
    if content.Some? {
      forall k | k in content.value.chunks
        ensures content.value.chunks[k] in c'.disk
      {
        assert content.value.chunks[k] in I.Held(c'.index, p);
        assert content.value.chunks[k] in I.Owned(c'.index);
      }
    }
  }

  /** Nothing the operation did concerns `p`. */
  lemma KeptAt(w: World, w': World, r: Tree, r': Tree, p: Path)
    requires MirrorsAt(w, r, p) && Durable(w'.cache) && Shrinks(w.cache, w'.cache)
    requires w'.cache.Attrs(p) == w.cache.Attrs(p) && Carries(w.cache, w'.cache, p, p)
    requires (p in r' <==> p in r) && (p in r ==> r'[p] == r[p])
    requires Live(w', p) ==> Live(w, p)
    ensures MirrorsAt(w', r', p)
  {
    hide CM.CacheOk, NonEmpty;
    CarriedMirrors(w.cache, w'.cache, r, r', p, p);
  }

  /**
   The operation left `p` with attributes that are those of the remote, and with old content only under the same
   version.
   */
  lemma DescribedAt(w: World, w': World, r: Tree, p: Path)
    requires MirrorsAt(w, r, p) && Durable(w'.cache) && Shrinks(w.cache, w'.cache)
    requires w'.cache.Attrs(p).Some? && Describes(r, p, w'.cache.Attrs(p).value)
    requires Carries(w.cache, w'.cache, p, p)
    ensures MirrorsAt(w', r, p)
  {
    hide CM.CacheOk, NonEmpty;
    CarriedMirrors(w.cache, w'.cache, r, r, p, p);
  }

  /** The operation left `p` without content, and without a stamp or with true attributes, or without an entry. */
  lemma EmptiedAt(w': World, r': Tree, p: Path)
    requires I.Content(w'.cache.index, p) == None
    requires w'.cache.Attrs(p).Some? ==> p in r' && (Live(w', p) ==> Describes(r', p, w'.cache.Attrs(p).value))
    ensures MirrorsAt(w', r', p)
  {
  }

  // ---- Content views of the cache operations --------------------------------

  lemma PutAttrsCarries(c: CM.Cache, p: Path, attrs: FileAttributes, q: Path)
    ensures Shrinks(c, c.PutAttrs(p, attrs)) && Carries(c, c.PutAttrs(p, attrs), q, q)
    ensures I.Content(c.PutAttrs(p, attrs).index, p).Some? ==>
      I.Content(c.PutAttrs(p, attrs).index, p).value.version == VersionOf(attrs)
  {
  }

  lemma RemoveCarries(c: CM.Cache, p: Path, q: Path)
    ensures Shrinks(c, c.Remove(p)) && Carries(c, c.Remove(p), q, q)
    ensures I.Content(c.Remove(p).index, p) == None
  {
  }

  lemma InvalidateContentCarries(c: CM.Cache, p: Path, q: Path)
    ensures Shrinks(c, c.InvalidateContent(p)) && Carries(c, c.InvalidateContent(p), q, q)
    ensures I.Content(c.InvalidateContent(p).index, p) == None
  {
  }

  lemma InvalidateChildrenCarries(c: CM.Cache, p: Path, q: Path)
    ensures Shrinks(c, c.InvalidateChildren(p)) && I.Content(c.InvalidateChildren(p).index, q) == I.Content(c.index, q)
  {
  }

  lemma {:induction false} StoreChildrenCarries(ix: I.Index, dir: Path, children: Listing, q: Path)
    ensures var ix' := I.StoreChildren(ix, dir, children).0;
      I.Content(ix', q) == None || I.Content(ix', q) == I.Content(ix, q)
    decreases |children|
  {
    if children != [] { StoreChildrenCarries(ix, dir, children[..|children| - 1], q); }
  }

  lemma RecordListingCarries(c: CM.Cache, dir: Path, children: Listing, q: Path)
    ensures Shrinks(c, c.RecordListing(dir, children)) && Carries(c, c.RecordListing(dir, children), q, q)
  {
    StoreChildrenCarries(c.index, dir, children, q);
  }

  lemma RenameCarries(c: CM.Cache, from: Path, to: Path, q: Path)
    ensures Shrinks(c, c.Rename(from, to))
    ensures Carries(c, c.Rename(from, to), q, if q == to && c.Attrs(from).Some? then from else q)
    ensures from + "/" <= q ==> c.Rename(from, to).Attrs(q) == None
  {
  }

  lemma ShrinksCompose(c: CM.Cache, c1: CM.Cache, c2: CM.Cache)
    requires Shrinks(c, c1) && Shrinks(c1, c2)
    ensures Shrinks(c, c2)
  {
  }

  lemma AttrsContent(c: CM.Cache, p: Path)
    ensures c.Attrs(p).None? ==> I.Content(c.index, p) == None
  {
  }

  // ---- Each operation --------------------------------------------------------

  /** The operation in world `w` was answered by the remote, which went from `r` to `r'`. */
  ghost predicate Served(w: World, op: Op, r: Tree, r': Tree) {
    Answers(r, CallsOf(w, Next(w, op, w.clock)), r')
  }

  lemma SameCache(c: CM.Cache, p: Path)
    ensures Shrinks(c, c) && Carries(c, c, p, p)
  {
  }

  lemma RevalidateMirrors(w: World, w': World, q: Path, key: Option<(NodeId, string)>, reply: Result<FileAttributes>,
                          r: Tree, p: Path)
    requires Mirrors(w, r) && Revalidates(w, w', q, key, reply) && Durable(w'.cache)
    requires w'.log != w.log ==> Truthful(r, StatEvent(q, w.clock, key, reply))
    ensures MirrorsAt(w', r, p)
  {
    assert MirrorsAt(w, r, p);
    if reply.Ok? {
      PutAttrsView(w.cache, q, reply.value, p);
      PutAttrsCarries(w.cache, q, reply.value, p);
    }
    RemoveView(w.cache, q, p);
    RemoveCarries(w.cache, q, p);
    SameCache(w.cache, p);
    hide CM.Cache.PutAttrs, CM.Cache.Remove, CM.Cache.Attrs, Mirrors, MirrorsAt, Durable, Carries, Describes, Shrinks;
    if w'.log != w.log && reply.Ok? && p == q {
      DescribedAt(w, w', r, p);
    } else if w'.log != w.log && reply == Err(NotFound) && p == q {
      EmptiedAt(w', r, p);
    } else {
      KeptAt(w, w', r, r, p);
    }
  }

  lemma LookupMirrors(w: World, op: Op, r: Tree, r': Tree, p: Path)
    requires Mirrors(w, r) && op.OpLookup? && Served(w, op, r, r')
    ensures MirrorsAt(Next(w, op, w.clock), r', p)
  {
    LookupDurable(w, op, w.clock);
    var child := ChildOf(w.session, op.parent, op.name);
    if child.Ok? {
      LookupRevalidates(w, op);
      hide Mirrors, MirrorsAt, Durable, Answers, Next, Truthful;
      var w' := Next(w, op, w.clock);
      var e := StatEvent(child.value, w.clock, Some((op.parent, op.name)), op.attrs);
      if w'.log == w.log { NoCall(w, w', r, r'); } else { OneCall(w, w', e, r, r'); }
      RevalidateMirrors(w, w', child.value, Some((op.parent, op.name)), op.attrs, r, p);
    } else {
      assert MirrorsAt(w, r, p);
      NoCall(w, w, r, r');
    }
  }

  lemma GetattrMirrors(w: World, op: Op, r: Tree, r': Tree, p: Path)
    requires Mirrors(w, r) && op.OpGetattr? && Served(w, op, r, r')
    ensures MirrorsAt(Next(w, op, w.clock), r', p)
  {
    GetattrDurable(w, op.node, w.clock, op.attrs);
    if op.node in w.session.nodeToPath {
      GetattrRevalidates(w, op.node, op.attrs);
      hide Mirrors, MirrorsAt, Durable, Answers, Getattr, Truthful;
      var q := w.session.nodeToPath[op.node];
      var w' := Next(w, op, w.clock);
      if w'.log == w.log {
        NoCall(w, w', r, r');
      } else {
        OneCall(w, w', StatEvent(q, w.clock, None, op.attrs), r, r');
      }
      RevalidateMirrors(w, w', q, None, op.attrs, r, p);
    } else {
      assert MirrorsAt(w, r, p);
      NoCall(w, w, r, r');
    }
  }

  /** A listing that was answered: children get true attributes, the directory itself a stamp. */
  lemma ListedMirrors(w: World, w': World, dir: Path, listing: Listing, r: Tree, p: Path)
    requires Mirrors(w, r) && Durable(w'.cache) && Truthful(r, ReadDirEvent(dir, w.clock, Ok(listing)))
    requires w'.config == w.config && w'.clock == w.clock
    requires w'.cache == w.cache.RecordListing(dir, RealChildren(listing))
    requires var v := StampAll(w.session, dir, RealChildren(listing), w.clock).0.validated;
      w'.session.validated == v || w'.session.validated == v[dir := w.clock]
    ensures MirrorsAt(w', r, p)
  {
    assert MirrorsAt(w, r, p);
    var children := RealChildren(listing);
    RecordListingView(w.cache, dir, children, p);
    RecordListingCarries(w.cache, dir, children, p);
    StampAllView(w.session, dir, children, w.clock, p);
    if Mentions(children, dir, p) {
      var i :| 0 <= i < |children| && Join(dir, children[i].0) == Ok(p) && children[i].1 == w'.cache.Attrs(p).value;
      assert Describes(r, p, w'.cache.Attrs(p).value);
      hide *;
      DescribedAt(w, w', r, p);
    } else if p == dir {
      hide CM.Cache.RecordListing, Mirrors, Durable, Shrinks, Carries, StampAll, RealChildren, CM.CacheOk,
        CM.Cache.Attrs, ChunksTrue, Lists;
      assert CM.CacheOk(w'.cache);
      CarriedMirrors(w.cache, w'.cache, r, r, p, p);
    } else {
      hide CM.Cache.RecordListing, Mirrors, MirrorsAt, Durable, Shrinks, Carries, StampAll, RealChildren,
        CM.Cache.Attrs, Lists;
      KeptAt(w, w', r, r, p);
    }
  }

  lemma ReaddirMirrors(w: World, op: Op, r: Tree, r': Tree, p: Path)
    requires Mirrors(w, r) && op.OpReaddir? && Served(w, op, r, r')
    ensures MirrorsAt(Next(w, op, w.clock), r', p)
  {
    assert MirrorsAt(w, r, p);
    ReaddirDurable(w, op, w.clock);
    if op.node in w.session.nodeToPath {
      ReaddirEffect(w, op);
      SameCache(w.cache, p);
      hide Mirrors, MirrorsAt, Durable, Answers, Next, Truthful, Shrinks, Carries, CM.Cache.RecordListing, StampAll,
        RealChildren;
      var w', dir := Next(w, op, w.clock), w.session.nodeToPath[op.node];
      if w'.log == w.log {
        NoCall(w, w', r, r');
      } else {
        OneCall(w, w', ReadDirEvent(dir, w.clock, op.listing), r, r');
      }
      if w'.log == w.log || op.listing.Err? {
        KeptAt(w, w', r, r, p);
      } else {
        ListedMirrors(w, w', dir, op.listing.value, r, p);
      }
    } else {
      NoCall(w, w, r, r');
    }
  }

  /** A write or a truncation: the content of `q` is dropped and its stamp removed, whatever the remote did to `q`. */
  lemma InvalidatedMirrors(w: World, w': World, q: Path, r: Tree, r': Tree, p: Path)
    requires Mirrors(w, r) && Durable(w'.cache) && w'.config == w.config && w'.clock == w.clock
    requires w'.cache == w.cache.InvalidateContent(q) && w'.session.validated == w.session.validated - {q}
    requires q in r' && r' == r[q := r'[q]]
    ensures MirrorsAt(w', r', p)
  {
    assert MirrorsAt(w, r, p);
    InvalidateView(w.cache, q, p);
    InvalidateContentCarries(w.cache, q, p);
    hide CM.Cache.InvalidateContent, Mirrors, MirrorsAt, Durable, Shrinks, Carries, CM.Cache.Attrs, Describes;
    if p == q { EmptiedAt(w', r', p); } else { KeptAt(w, w', r, r', p); }
  }

  lemma OpenMirrors(w: World, op: Op, r: Tree, r': Tree, p: Path)
    requires Mirrors(w, r) && op.OpOpen? && Served(w, op, r, r')
    ensures MirrorsAt(Next(w, op, w.clock), r', p)
  {
    assert MirrorsAt(w, r, p);
    FileDurable(w, op, w.clock);
    SameCache(w.cache, p);
    hide Mirrors, MirrorsAt, Durable, Answers, Shrinks, Carries, CM.Cache.InvalidateContent, CM.Cache.Attrs;
    var w' := Next(w, op, w.clock);
    if w'.log == w.log {
      NoCall(w, w', r, r');
      KeptAt(w, w', r, r, p);
    } else {
      var q := w.session.nodeToPath[op.node];
      OneCall(w, w', SetattrEvent(q, w.clock, TRUNCATE, op.attrs), r, r');
      if op.attrs.Ok? { InvalidatedMirrors(w, w', q, r, r', p); } else { KeptAt(w, w', r, r, p); }
    }
  }

  lemma WriteMirrors(w: World, op: Op, r: Tree, r': Tree, p: Path)
    requires Mirrors(w, r) && (op.OpWrite? || op.OpRelease?) && Served(w, op, r, r')
    ensures MirrorsAt(Next(w, op, w.clock), r', p)
  {
    assert MirrorsAt(w, r, p);
    FileDurable(w, op, w.clock);
    SameCache(w.cache, p);
    hide Mirrors, MirrorsAt, Durable, Answers, Shrinks, Carries, CM.Cache.InvalidateContent, CM.Cache.Attrs, Overwrite;
    var w' := Next(w, op, w.clock);
    if w'.log == w.log {
      NoCall(w, w', r, r');
      KeptAt(w, w', r, r, p);
    } else {
      var q := w.session.handles[op.handle].path;
      OneCall(w, w', WriteEvent(q, op.at, op.data, op.written), r, r');
      if op.written.Ok? { InvalidatedMirrors(w, w', q, r, r', p); } else { KeptAt(w, w', r, r, p); }
    }
  }

  lemma ResizeSame(file: Bytes)
    ensures Resize(file, |file|) == file
  {
  }

  /** Content that survives a `setattr` belongs to a file whose bytes the `setattr` did not change. */
  lemma SetattrKeepsBytes(c: CM.Cache, q: Path, change: SetAttributes, at: Time, attrs: FileAttributes, r: Tree,
                          r': Tree)
    requires TreeOk(r) && TreeOk(r') && ContentMirrors(c, r, q)
    requires Changes(r, SetattrEvent(q, at, change, Ok(attrs)), r')
    requires I.Content(c.PutAttrs(q, attrs).index, q).Some?
    ensures r' == r
  {
    PutAttrsCarries(c, q, attrs, q);
    assert r[q].version == VersionOf(attrs) && r'[q].version == VersionOf(attrs);
    ResizeSame(r[q].bytes);
    if change.size.Some? { assert |Resize(r[q].bytes, change.size.value)| == change.size.value; }
    assert r'[q] == r[q];
  }

  lemma SetattrMirrors(w: World, op: Op, r: Tree, r': Tree, p: Path)
    requires Mirrors(w, r) && op.OpSetattr? && Served(w, op, r, r')
    ensures MirrorsAt(Next(w, op, w.clock), r', p)
  {
    assert MirrorsAt(w, r, p);
    FileDurable(w, op, w.clock);
    SameCache(w.cache, p);
    var w' := Next(w, op, w.clock);
    if w'.log == w.log {
      hide Mirrors, MirrorsAt, Durable, Answers, Shrinks, Carries, CM.Cache.PutAttrs, CM.Cache.Attrs;
      NoCall(w, w', r, r');
      KeptAt(w, w', r, r, p);
    } else {
      var q := w.session.nodeToPath[op.node];
      assert MirrorsAt(w, r, q);
      OneCall(w, w', SetattrEvent(q, w.clock, op.change, op.attrs), r, r');
      if op.attrs.Ok? {
        PutAttrsView(w.cache, q, op.attrs.value, p);
        PutAttrsCarries(w.cache, q, op.attrs.value, p);
        if I.Content(w'.cache.index, q).Some? {
          SetattrKeepsBytes(w.cache, q, op.change, w.clock, op.attrs.value, r, r');
        }
        assert Describes(r', q, op.attrs.value);
      }
      hide Mirrors, MirrorsAt, Durable, Answers, Shrinks, Carries, CM.Cache.PutAttrs, CM.Cache.Attrs, Resize,
        Describes, I.Content;
      if op.attrs.Err? { KeptAt(w, w', r, r, p); }
      else if p != q { KeptAt(w, w', r, r', p); }
      else if I.Content(w'.cache.index, q).Some? { DescribedAt(w, w', r, p); }
      else { EmptiedAt(w', r', p); }
    }
  }

  /** A new path with true attributes. */
  lemma CreatedMirrors(w: World, w': World, q: Path, attrs: FileAttributes, dir: Path, r: Tree, r': Tree, p: Path)
    requires Mirrors(w, r) && Durable(w'.cache) && w'.config == w.config && w'.clock == w.clock
    requires w'.cache == w.cache.PutAttrs(q, attrs).InvalidateChildren(dir)
    requires w'.session.validated == w.session.validated[q := w.clock]
    requires q !in r && q in r' && r' == r[q := r'[q]] && Describes(r', q, attrs)
    ensures MirrorsAt(w', r', p)
  {
    assert MirrorsAt(w, r, p);
    assert MirrorsAt(w, r, q);
    AttrsContent(w.cache, q);
    var c := w.cache.PutAttrs(q, attrs);
    PutAttrsView(w.cache, q, attrs, p);
    PutAttrsCarries(w.cache, q, attrs, p);
    InvalidateView(c, dir, p);
    InvalidateChildrenCarries(c, dir, p);
    ShrinksCompose(w.cache, c, w'.cache);
    hide CM.Cache.PutAttrs, CM.Cache.InvalidateChildren, Mirrors, MirrorsAt, Durable, Shrinks, CM.Cache.Attrs,
      Describes, I.Content;
    if p == q { EmptiedAt(w', r', p); } else { KeptAt(w, w', r, r', p); }
  }

  lemma CreateMirrors(w: World, op: Op, r: Tree, r': Tree, p: Path)
    requires Mirrors(w, r) && (op.OpCreate? || op.OpMkdir?) && Served(w, op, r, r')
    ensures MirrorsAt(Next(w, op, w.clock), r', p)
  {
    assert MirrorsAt(w, r, p);
    NameDurable(w, op, w.clock);
    SameCache(w.cache, p);
    var w' := Next(w, op, w.clock);
    if w'.log == w.log {
      QuietNames(w, op);
      NoCall(w, w', r, r');
      hide Next, Mirrors, MirrorsAt, Durable, Answers, Shrinks, Carries, CM.Cache.Attrs;
      KeptAt(w, w', r, r, p);
    } else {
      CreateEffect(w, op);
      hide ChildOf, Next, Mirrors, MirrorsAt, Durable, Answers, Shrinks, Carries, CM.Cache.PutAttrs,
        CM.Cache.InvalidateChildren, CM.Cache.Attrs;
      OneCall(w, w', w'.log[|w.log|], r, r');
      if op.attrs.Ok? {
        CreatedMirrors(w, w', ChildOf(w.session, op.parent, op.name).value, op.attrs.value,
                       w.session.nodeToPath[op.parent], r, r', p);
      } else {
        KeptAt(w, w', r, r', p);
      }
    }
  }

  lemma RemovedMirrors(w: World, w': World, q: Path, dir: Path, r: Tree, r': Tree, p: Path)
    requires Mirrors(w, r) && Durable(w'.cache) && w'.config == w.config && w'.clock == w.clock
    requires w'.cache == w.cache.Remove(q).InvalidateChildren(dir) && w'.session.validated == w.session.validated
    requires r' == r - {q}
    ensures MirrorsAt(w', r', p)
  {
    assert MirrorsAt(w, r, p);
    var c := w.cache.Remove(q);
    RemoveView(w.cache, q, p);
    RemoveCarries(w.cache, q, p);
    InvalidateView(c, dir, p);
    InvalidateChildrenCarries(c, dir, p);
    ShrinksCompose(w.cache, c, w'.cache);
    hide CM.Cache.Remove, CM.Cache.InvalidateChildren, Mirrors, MirrorsAt, Durable, Shrinks, CM.Cache.Attrs, Describes,
      I.Content;
    if p == q { EmptiedAt(w', r', p); } else { KeptAt(w, w', r, r', p); }
  }

  lemma RemoveMirrors(w: World, op: Op, r: Tree, r': Tree, p: Path)
    requires Mirrors(w, r) && (op.OpUnlink? || op.OpRmdir?) && Served(w, op, r, r')
    ensures MirrorsAt(Next(w, op, w.clock), r', p)
  {
    assert MirrorsAt(w, r, p);
    NameDurable(w, op, w.clock);
    SameCache(w.cache, p);
    var w' := Next(w, op, w.clock);
    if w'.log == w.log {
      QuietNames(w, op);
      NoCall(w, w', r, r');
      hide Next, Mirrors, MirrorsAt, Durable, Answers, Shrinks, Carries, CM.Cache.Attrs;
      KeptAt(w, w', r, r, p);
    } else {
      RemoveEffect(w, op);
      hide ChildOf, Next, Mirrors, MirrorsAt, Durable, Answers, Shrinks, Carries, CM.Cache.Remove,
        CM.Cache.InvalidateChildren, CM.Cache.Attrs;
      OneCall(w, w', w'.log[|w.log|], r, r');
      if op.done.Ok? {
        RemovedMirrors(w, w', ChildOf(w.session, op.parent, op.name).value, w.session.nodeToPath[op.parent], r, r', p);
      } else {
        KeptAt(w, w', r, r', p);
      }
    }
  }

  /** The cache after all sections of a rename. */
  lemma RenamedCache(c: CM.Cache, from: Path, to: Path, a: Path, b: Path, p: Path)
    ensures var c1, c' := c.Rename(from, to), c.Rename(from, to).InvalidateChildren(a).InvalidateChildren(b);
      && c'.Attrs(p) == c1.Attrs(p) && Shrinks(c, c')
      && I.Content(c'.index, p) == I.Content(c1.index, p)
  {
    var c1 := c.Rename(from, to);
    var c2 := c1.InvalidateChildren(a);
    RenameCarries(c, from, to, p);
    InvalidateView(c1, a, p);
    InvalidateView(c2, b, p);
    InvalidateChildrenCarries(c1, a, p);
    InvalidateChildrenCarries(c2, b, p);
    hide CM.Cache.Rename, CM.Cache.InvalidateChildren, Shrinks, CM.Cache.Attrs, I.Content;
    ShrinksCompose(c, c1, c2);
    ShrinksCompose(c, c2, c2.InvalidateChildren(b));
  }

  /** After a move, the target is what the source was, and paths outside both are what they were. */
  lemma MovedAt(r: Tree, from: Path, to: Path, r': Tree, p: Path)
    requires TreeMoved(r, from, to, r') && from in r
    ensures to in r' && r'[to] == r[from]
    ensures !Under(to, p) && !Under(from, p) ==> (p in r' <==> p in r) && (p in r ==> r'[p] == r[p])
  {
    assert Under(to, to) && from + to[|to|..] == from;
  }

  /** Attributes of `to` after the rename, when the remote had nothing at `to` before. */
  lemma RenamedMirrors(w: World, w': World, from: Path, to: Path, a: Path, b: Path, r: Tree, r': Tree, p: Path)
    requires Mirrors(w, r) && Durable(w'.cache) && w'.config == w.config && w'.clock == w.clock
    requires w'.cache == w.cache.Rename(from, to).InvalidateChildren(a).InvalidateChildren(b)
    requires w'.session.validated == w.session.validated - {from}
    requires from in r && (forall k :: k in r ==> !Under(to, k)) && !Under(from, to) && TreeMoved(r, from, to, r')
    requires w.cache.Attrs(from).Some? ==> !Live(w, to) || Live(w, from)
    ensures MirrorsAt(w', r', p)
  {
    assert MirrorsAt(w, r, p);
    assert MirrorsAt(w, r, from);
    RenameView(w.cache, from, to, p);
    RenameCarries(w.cache, from, to, p);
    RenamedCache(w.cache, from, to, a, b, p);
    MovedAt(r, from, to, r', p);
    AttrsContent(w'.cache, p);
    AttrsContent(w.cache, p);
    assert p in r ==> !Under(to, p);
    hide CM.Cache.Rename, CM.Cache.InvalidateChildren, Mirrors, Durable, Shrinks, CM.Cache.Attrs, I.Content, TreeMoved,
      ChunksTrue, CM.CacheOk, NonEmpty;
    if p == to && w.cache.Attrs(from).Some? {
      assert CM.CacheOk(w'.cache);
      CarriedMirrors(w.cache, w'.cache, r, r', to, from);
      assert w'.cache.Attrs(to) == w.cache.Attrs(from);
    } else if w'.cache.Attrs(p).None? {
      EmptiedAt(w', r', p);
    } else {
      KeptAt(w, w', r, r', p);
    }
  }
}
