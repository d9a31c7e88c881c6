/** With a single writer, a cached listing names exactly the children the remote has. */
module VfsDirectories {
  import opened Base
  import opened RemotePaths
  import I = CacheIndex
  import CM = CacheModel
  import opened VfsModel
  import opened VfsViews
  import opened VfsDurable
  import opened VfsRemote
  import N = VfsNodes
  import E = VfsEviction
  import G = VfsGuarantees
  import L = VfsListing
  import F = VfsFreshness
  import M = VfsMirror
  import X = VfsLimits

  /** A cached listing belongs to a directory and has exactly the names that join to something there. */
  ghost predicate ListingAt(c: CM.Cache, r: Tree, d: Path) {
    d in c.index.listings ==>
      && d in r && r[d].DirNode?
      && forall name :: Join(d, name).Ok? ==> (name in c.index.listings[d] <==> Join(d, name).value in r)
  }

  ghost predicate ListingsTrue(w: World, r: Tree) {
    && N.SessionOk(w) && E.KeysWithin(w.cache, w.config.root) && Durable(w.cache)
    && forall d :: ListingAt(w.cache, r, d)
  }

  /** The answer lists every child there is. */
  ghost predicate Complete(r: Tree, e: Event) {
    e.ReadDirEvent? && e.listing.Ok? ==>
      forall name :: Join(e.path, name).Ok? && Join(e.path, name).value in r ==>
        name in I.Names(RealChildren(e.listing.value))
  }

  ghost predicate ServedFully(w: World, op: Op, r: Tree, r': Tree) {
    M.Served(w, op, r, r') && forall e :: e in CallsOf(w, Next(w, op, w.clock)) ==> Complete(r, e)
  }

  /** No directory below the renamed one has a cached listing without cached attributes. */
  ghost predicate NoOrphans(w: World, op: Op) {
    op.OpRename? && ChildOf(w.session, op.parent, op.name).Ok? ==>
      forall d :: d in w.cache.index.listings && ChildOf(w.session, op.parent, op.name).value + "/" <= d ==>
        d in w.cache.index.entries
  }

  // ---- What the cache operations do to listings ------------------------------

  /** Listings were only dropped. */
  ghost predicate OnlyDrops(c: CM.Cache, c': CM.Cache) {
    forall d :: d in c'.index.listings ==> d in c.index.listings && c'.index.listings[d] == c.index.listings[d]
  }

  /** The same paths exist, and the same of them are directories. */
  ghost predicate SameShape(r: Tree, r': Tree) {
    forall k :: (k in r' <==> k in r) && (k in r ==> r'[k].DirNode? == r[k].DirNode?)
  }

  lemma KeptListing(c: CM.Cache, c': CM.Cache, r: Tree, r': Tree, d: Path)
    requires ListingAt(c, r, d) && OnlyDrops(c, c') && SameShape(r, r')
    ensures ListingAt(c', r', d)
  {
    hide Join;
  }

  lemma PutAttrsDrops(c: CM.Cache, p: Path, attrs: FileAttributes)
    ensures OnlyDrops(c, c.PutAttrs(p, attrs)) && c.PutAttrs(p, attrs).index.listings == c.index.listings
  {
  }

  lemma RemoveDrops(c: CM.Cache, p: Path)
    ensures OnlyDrops(c, c.Remove(p)) && p !in c.Remove(p).index.listings
  {
  }

  lemma InvalidateDrops(c: CM.Cache, p: Path)
    ensures OnlyDrops(c, c.InvalidateContent(p))
    ensures OnlyDrops(c, c.InvalidateChildren(p)) && p !in c.InvalidateChildren(p).index.listings
  {
  }

  lemma DropsCompose(c: CM.Cache, c1: CM.Cache, c2: CM.Cache)
    requires OnlyDrops(c, c1) && OnlyDrops(c1, c2)
    ensures OnlyDrops(c, c2)
  {
  }

  lemma SameDrops(c: CM.Cache)
    ensures OnlyDrops(c, c)
  {
  }

  // ---- Operations that do not change names -----------------------------------

  lemma RevalidateDrops(w: World, w': World, p: Path, key: Option<(NodeId, string)>, reply: Result<FileAttributes>)
    requires Revalidates(w, w', p, key, reply)
    ensures OnlyDrops(w.cache, w'.cache)
  {
    hide CM.Cache.PutAttrs, CM.Cache.Remove;
    SameDrops(w.cache);
    if reply.Ok? { PutAttrsDrops(w.cache, p, reply.value); }
    RemoveDrops(w.cache, p);
  }

  /** Queries other than listings, and file operations. */
  predicate Nameless(op: Op) {
    op.OpLookup? || op.OpGetattr? || op.OpRead? || op.OpOpen? || op.OpWrite? || op.OpRelease? || op.OpSetattr?
  }

  lemma GetattrDrops(w: World, node: NodeId, reply: Result<FileAttributes>)
    ensures OnlyDrops(w.cache, Getattr(w, node, w.clock, reply).0.cache)
  {
    SameDrops(w.cache);
    if node in w.session.nodeToPath {
      GetattrRevalidates(w, node, reply);
      RevalidateDrops(w, Getattr(w, node, w.clock, reply).0, w.session.nodeToPath[node], None, reply);
    }
  }

  lemma ReadDrops(w: World, op: Op)
    requires op.OpRead?
    ensures OnlyDrops(w.cache, Next(w, op, w.clock).cache)
  {
    SameDrops(w.cache);
    if op.handle in w.session.handles {
      var file := w.session.handles[op.handle];
      GetattrDrops(w, file.node, op.attrs);
      var (w1, meta) := Getattr(w, file.node, w.clock, op.attrs);
      if meta.Ok? {
        var c2 := w1.cache.Read(file.path, meta.value.attributes, op.offset, op.size, op.script).cache;
        L.ReadListings(w1.cache, file.path, meta.value.attributes, op.offset, op.size, op.script);
        SameDrops(w1.cache);
        assert OnlyDrops(w1.cache, c2);
        DropsCompose(w.cache, w1.cache, c2);
      }
      hide Getattr, CM.Cache.Read, CM.Cache.ReadCached, OnlyDrops, ContentEvents;
    }
  }

  lemma NamelessDrops(w: World, op: Op)
    requires Nameless(op)
    ensures OnlyDrops(w.cache, Next(w, op, w.clock).cache)
  {
    SameDrops(w.cache);
    if op.OpLookup? {
      if ChildOf(w.session, op.parent, op.name).Ok? {
        LookupRevalidates(w, op);
        RevalidateDrops(w, Next(w, op, w.clock), ChildOf(w.session, op.parent, op.name).value,
                        Some((op.parent, op.name)), op.attrs);
      }
    } else if op.OpGetattr? {
      GetattrDrops(w, op.node, op.attrs);
      hide Getattr;
    } else if op.OpRead? {
      ReadDrops(w, op);
    } else {
      if op.OpWrite? && op.handle in w.session.handles { InvalidateDrops(w.cache, w.session.handles[op.handle].path); }
      if (op.OpOpen? || op.OpSetattr?) && op.node in w.session.nodeToPath {
        InvalidateDrops(w.cache, w.session.nodeToPath[op.node]);
        if op.attrs.Ok? { PutAttrsDrops(w.cache, w.session.nodeToPath[op.node], op.attrs.value); }
      }
      hide OnlyDrops, CM.Cache.InvalidateContent, CM.Cache.PutAttrs;
    }
  }

  /** Such operations leave the shape of the tree alone. */
  lemma NamelessShape(w: World, op: Op, r: Tree, r': Tree)
    requires Nameless(op) && M.Served(w, op, r, r')
    ensures SameShape(r, r')
  {
    var w' := Next(w, op, w.clock);
    if op.OpRead? || op.OpLookup? || op.OpGetattr? {
      if op.OpRead? { G.ReadCalls(w, op, w.clock); } else { G.QueryCalls(w, op, w.clock); }
      hide Next;
    } else {
      hide Answers, CM.Cache.InvalidateContent, CM.Cache.PutAttrs, Overwrite, Resize;
      if w'.log == w.log { NoCall(w, w', r, r'); } else { OneCall(w, w', w'.log[|w.log|], r, r'); }
    }
  }

  lemma NamelessListing(w: World, op: Op, r: Tree, r': Tree, d: Path)
    requires ListingsTrue(w, r) && Nameless(op) && M.Served(w, op, r, r')
    ensures ListingAt(Next(w, op, w.clock).cache, r', d)
  {
    hide Next, OnlyDrops, SameShape, ListingAt;
    NamelessDrops(w, op);
    NamelessShape(w, op, r, r');
    assert ListingAt(w.cache, r, d);
    KeptListing(w.cache, Next(w, op, w.clock).cache, r, r', d);
  }

  // ---- Listings --------------------------------------------------------------

  lemma RecordedListing(c: CM.Cache, r: Tree, dir: Path, at: Time, listing: Listing, d: Path)
    requires ListingAt(c, r, d) && Truthful(r, ReadDirEvent(dir, at, Ok(listing)))
    requires Complete(r, ReadDirEvent(dir, at, Ok(listing)))
    ensures ListingAt(c.RecordListing(dir, RealChildren(listing)), r, d)
  {
    var children := RealChildren(listing);
    L.StoreChildrenListings(c.index, dir, children);
    var c' := c.RecordListing(dir, children);
    assert c'.index.listings == c.index.listings[dir := I.Names(children)];
    hide CM.Cache.RecordListing, RealChildren, Join;
    if d == dir {
      forall name | Join(dir, name).Ok? && name in I.Names(children)
        ensures Join(dir, name).value in r
      {
        var i :| 0 <= i < |children| && I.Names(children)[i] == name;
        assert Describes(r, Join(dir, children[i].0).value, children[i].1);
      }
    }
  }

  lemma ReaddirListing(w: World, op: Op, r: Tree, r': Tree, d: Path)
    requires ListingsTrue(w, r) && op.OpReaddir? && ServedFully(w, op, r, r')
    ensures ListingAt(Next(w, op, w.clock).cache, r', d)
  {
    assert ListingAt(w.cache, r, d);
    var w' := Next(w, op, w.clock);
    if op.node in w.session.nodeToPath {
      ReaddirEffect(w, op);
      hide Next, Answers, Truthful, Complete, ListingAt, CM.Cache.RecordListing, StampAll, RealChildren;
      var dir := w.session.nodeToPath[op.node];
      var e := ReadDirEvent(dir, w.clock, op.listing);
      if w'.log == w.log {
        NoCall(w, w', r, r');
        SameListing(w.cache, w'.cache, r, d);
      } else {
        OneCall(w, w', e, r, r');
        assert e in CallsOf(w, w');
        if op.listing.Ok? {
          RecordedListing(w.cache, r, dir, w.clock, op.listing.value, d);
        } else {
          SameListing(w.cache, w'.cache, r, d);
        }
      }
    } else {
      NoCall(w, w', r, r');
    }
  }

  lemma SameListing(c: CM.Cache, c': CM.Cache, r: Tree, d: Path)
    requires ListingAt(c, r, d) && c' == c
    ensures ListingAt(c', r, d)
  {
  }

  // ---- Making and removing names ---------------------------------------------

  /** One name of `dir` changed and its listing was dropped: other listings do not notice. */
  lemma OneNameChanged(root: Path, c: CM.Cache, c': CM.Cache, r: Tree, r': Tree, dir: Path, name: string, d: Path)
    requires ListingAt(c, r, d) && OnlyDrops(c, c') && dir !in c'.index.listings && I.Confined(c.index, root)
    requires Within(root, dir) && ValidName(name) && Child(dir, name) !in c'.index.listings
    requires forall k :: k != Child(dir, name) ==> (k in r' <==> k in r) && (k in r ==> r'[k] == r[k])
    ensures ListingAt(c', r', d)
  {
    if d in c'.index.listings {
      assert Within(root, d);
      forall n | Join(d, n).Ok?
        ensures Join(d, n).value in r' <==> Join(d, n).value in r
      {
        if Child(d, n) == Child(dir, name) { OneParent(root, d, n, dir, name); }
      }
    }
  }

  /** What the two kinds of name operations do to listings. */
  lemma CreateDrops(c: CM.Cache, p: Path, attrs: FileAttributes, dir: Path)
    ensures var c' := c.PutAttrs(p, attrs).InvalidateChildren(dir);
      OnlyDrops(c, c') && dir !in c'.index.listings
  {
    PutAttrsDrops(c, p, attrs);
    InvalidateDrops(c.PutAttrs(p, attrs), dir);
    hide CM.Cache.PutAttrs, CM.Cache.InvalidateChildren;
    DropsCompose(c, c.PutAttrs(p, attrs), c.PutAttrs(p, attrs).InvalidateChildren(dir));
  }

  lemma RemoveNameDrops(c: CM.Cache, p: Path, dir: Path)
    ensures var c' := c.Remove(p).InvalidateChildren(dir);
      OnlyDrops(c, c') && dir !in c'.index.listings && p !in c'.index.listings
  {
    RemoveDrops(c, p);
    InvalidateDrops(c.Remove(p), dir);
    hide CM.Cache.Remove, CM.Cache.InvalidateChildren;
    DropsCompose(c, c.Remove(p), c.Remove(p).InvalidateChildren(dir));
  }

  lemma CreateListing(w: World, op: Op, r: Tree, r': Tree, d: Path)
    requires ListingsTrue(w, r) && (op.OpCreate? || op.OpMkdir?) && M.Served(w, op, r, r')
    requires Next(w, op, w.clock).log != w.log
    ensures ListingAt(Next(w, op, w.clock).cache, r', d)
  {
    CreateEffect(w, op);
    hide Next;
    var w', root := Next(w, op, w.clock), w.config.root;
    N.ChildConfined(w.session, root, op.parent, op.name);
    var p, dir := ChildOf(w.session, op.parent, op.name).value, w.session.nodeToPath[op.parent];
    assert Within(root, dir);
    assert ListingAt(w.cache, r, p) && ListingAt(w.cache, r, d);
    hide ChildOf, Join, Child, Within, Answers, CM.Cache.PutAttrs, CM.Cache.InvalidateChildren, N.NodeTable, Durable,
      ListingsTrue, ValidName;
    OneCall(w, w', w'.log[|w.log|], r, r');
    if op.attrs.Ok? {
      CreateDrops(w.cache, p, op.attrs.value, dir);
      assert p !in w'.cache.index.listings;
      hide ListingAt, OnlyDrops;
      OneNameChanged(root, w.cache, w'.cache, r, r', dir, op.name, d);
    }
  }

  lemma RemoveListing(w: World, op: Op, r: Tree, r': Tree, d: Path)
    requires ListingsTrue(w, r) && (op.OpUnlink? || op.OpRmdir?) && M.Served(w, op, r, r')
    requires Next(w, op, w.clock).log != w.log
    ensures ListingAt(Next(w, op, w.clock).cache, r', d)
  {
    RemoveEffect(w, op);
    hide Next;
    var w', root := Next(w, op, w.clock), w.config.root;
    N.ChildConfined(w.session, root, op.parent, op.name);
    var p, dir := ChildOf(w.session, op.parent, op.name).value, w.session.nodeToPath[op.parent];
    assert Within(root, dir);
    assert ListingAt(w.cache, r, d);
    hide ChildOf, Join, Child, Within, Answers, CM.Cache.Remove, CM.Cache.InvalidateChildren, N.NodeTable, Durable,
      ListingsTrue, ValidName, ListingAt;
    OneCall(w, w', w'.log[|w.log|], r, r');
    if op.done.Ok? {
      RemoveNameDrops(w.cache, p, dir);
      hide OnlyDrops;
      OneNameChanged(root, w.cache, w'.cache, r, r', dir, op.name, d);
    }
  }

  lemma NameListing(w: World, op: Op, r: Tree, r': Tree, d: Path)
    requires ListingsTrue(w, r) && (op.OpCreate? || op.OpMkdir? || op.OpUnlink? || op.OpRmdir?)
    requires M.Served(w, op, r, r')
    ensures ListingAt(Next(w, op, w.clock).cache, r', d)
  {
    if Next(w, op, w.clock).log == w.log {
      assert ListingAt(w.cache, r, d);
      QuietNames(w, op);
      hide Next, ListingAt;
      NoCall(w, w, r, r');
    } else {
      hide Next, ListingsTrue, ListingAt, Answers;
      if op.OpCreate? || op.OpMkdir? { CreateListing(w, op, r, r', d); } else { RemoveListing(w, op, r, r', d); }
    }
  }

  // ---- Renaming --------------------------------------------------------------

  /** Listings after all sections of a rename. */
  ghost predicate MovesListings(c: CM.Cache, c': CM.Cache, from: Path, to: Path, a: Path, b: Path) {
    && a !in c'.index.listings && b !in c'.index.listings
    && (forall d :: d in c'.index.listings && (d != to || from !in c.index.listings) ==>
          d in c.index.listings && c'.index.listings[d] == c.index.listings[d])
    && (to in c'.index.listings && from in c.index.listings ==> c'.index.listings[to] == c.index.listings[from])
    && from !in c'.index.listings
    && (forall d :: d in c.index.listings && from + "/" <= d && d in c.index.entries ==> d !in c'.index.listings)
  }

  lemma RenameMovesListings(c: CM.Cache, from: Path, to: Path, a: Path, b: Path)
    requires from != to && !(from + "/" <= to)
    ensures MovesListings(c, c.Rename(from, to).InvalidateChildren(a).InvalidateChildren(b), from, to, a, b)
  {
    var c1 := c.Rename(from, to);
    var c2 := c1.InvalidateChildren(a);
    InvalidateDrops(c1, a);
    InvalidateDrops(c2, b);
    assert forall d :: d in c1.index.listings && (d != to || from !in c.index.listings) ==>
      d in c.index.listings && c1.index.listings[d] == c.index.listings[d];
    assert from !in c1.index.listings;
    assert forall d :: d in c.index.listings && from + "/" <= d && d in c.index.entries ==> d !in c1.index.listings by {
      assert !(from + "/" <= from);
    }
    hide CM.Cache.Rename, CM.Cache.InvalidateChildren;
  }

  /** A child of `to` after the move was a child of `from`, and a path outside both is what it was. */
  lemma MovedChildren(root: Path, r: Tree, from: Path, to: Path, r': Tree, name: string)
    requires TreeMoved(r, from, to, r') && Below(root, from) && Below(root, to) && ValidName(name)
    ensures Child(to, name) in r' <==> Child(from, name) in r
  {
    BelowTrim(root, from);
    BelowTrim(root, to);
    assert Child(to, name) == to + "/" + name && Under(to, Child(to, name));
    assert Child(to, name)[|to|..] == "/" + name;
  }

  /** A listing that the rename neither moved nor dropped is of a directory whose children did not move. */
  lemma OtherChildren(root: Path, r: Tree, from: Path, to: Path, r': Tree, a: Path, name: string, b: Path,
                      name': string, d: Path, n: string)
    requires TreeMoved(r, from, to, r') && Within(root, a) && Within(root, b) && Within(root, d)
    requires ValidName(name) && ValidName(name') && ValidName(n) && from == Child(a, name) && to == Child(b, name')
    requires d != a && d != b && !Under(from, d) && !Under(to, d)
    ensures Child(d, n) in r' <==> Child(d, n) in r
  {
    WithinChild(root, a, name);
    WithinChild(root, b, name');
    if Under(from, Child(d, n)) {
      if Child(d, n) == from { OneParent(root, d, n, a, name); } else { ParentUnder(root, from, d, n); }
    }
    if Under(to, Child(d, n)) {
      if Child(d, n) == to { OneParent(root, d, n, b, name'); } else { ParentUnder(root, to, d, n); }
    }
  }

  lemma JoinIsChild(base: Path, name: string)
    ensures Join(base, name).Ok? ==> ValidName(name) && Join(base, name).value == Child(base, name)
    ensures Accepted(base) && ValidName(name) ==> Join(base, name).Ok?
  {
    if Accepted(base) { JoinAccepted(base, name); }
  }

  /** The listing that moved with its directory. */
  lemma MovedListing(root: Path, c: CM.Cache, c': CM.Cache, r: Tree, r': Tree, from: Path, to: Path)
    requires ListingAt(c, r, from) && from in c.index.listings && to in c'.index.listings
    requires c'.index.listings[to] == c.index.listings[from]
    requires TreeMoved(r, from, to, r') && Below(root, from) && Below(root, to) && Accepted(from) && from in r
    ensures ListingAt(c', r', to)
  {
    M.MovedAt(r, from, to, r', to);
    forall name | Join(to, name).Ok?
      ensures name in c'.index.listings[to] <==> Join(to, name).value in r'
    {
      hide TreeMoved, Accepted, Join, Child;
      JoinIsChild(to, name);
      JoinIsChild(from, name);
      MovedChildren(root, r, from, to, r', name);
    }
  }

  /** A listing elsewhere. */
  lemma UnmovedListing(root: Path, c: CM.Cache, c': CM.Cache, r: Tree, r': Tree, from: Path, to: Path,
                       a: Path, name: string, b: Path, name': string, d: Path)
    requires ListingAt(c, r, d) && d in c.index.listings && d in c'.index.listings
    requires c'.index.listings[d] == c.index.listings[d]
    requires TreeMoved(r, from, to, r') && from in r && Within(root, a) && Within(root, b) && Within(root, d)
    requires ValidName(name) && ValidName(name') && from == Child(a, name) && to == Child(b, name')
    requires d != a && d != b && !Under(from, d) && !Under(to, d)
    ensures ListingAt(c', r', d)
  {
    M.MovedAt(r, from, to, r', d);
    forall n | Join(d, n).Ok?
      ensures n in c'.index.listings[d] <==> Join(d, n).value in r'
    {
      hide TreeMoved, Join, Child, Within, Under;
      JoinIsChild(d, n);
      OtherChildren(root, r, from, to, r', a, name, b, name', d, n);
    }
  }

  lemma RenamedListing(root: Path, c: CM.Cache, c': CM.Cache, r: Tree, r': Tree, from: Path, to: Path,
                       a: Path, name: string, b: Path, name': string, d: Path)
    requires ListingAt(c, r, d) && ListingAt(c, r, from) && MovesListings(c, c', from, to, a, b)
    requires I.Confined(c.index, root)
    requires Within(root, a) && Within(root, b) && ValidName(name) && ValidName(name') && from == Child(a, name)
    requires to == Child(b, name')
    requires Accepted(from) && from in r && (forall k :: k in r ==> !Under(to, k)) && !Under(from, to)
    requires TreeMoved(r, from, to, r')
    requires from + "/" <= d && d in c.index.listings ==> d in c.index.entries
    ensures ListingAt(c', r', d)
  {
    WithinChild(root, a, name);
    WithinChild(root, b, name');
    hide TreeMoved, Accepted, Join, Child, Within, Below, ValidName;
    if d in c'.index.listings {
      if d == to && from in c.index.listings {
        MovedListing(root, c, c', r, r', from, to);
      } else {
        assert d in r;
        UnmovedListing(root, c, c', r, r', from, to, a, name, b, name', d);
      }
    }
  }

  lemma RenameListing(w: World, op: Op, r: Tree, r': Tree, d: Path)
    requires ListingsTrue(w, r) && op.OpRename? && M.Served(w, op, r, r') && NoOrphans(w, op)
    ensures ListingAt(Next(w, op, w.clock).cache, r', d)
  {
    assert ListingAt(w.cache, r, d);
    var w', root := Next(w, op, w.clock), w.config.root;
    if w'.log == w.log {
      QuietNames(w, op);
      NoCall(w, w', r, r');
    } else {
      RenameEffect(w, op);
      N.ChildConfined(w.session, root, op.parent, op.name);
      N.ChildConfined(w.session, root, op.newParent, op.newName);
      var from, to := ChildOf(w.session, op.parent, op.name).value, ChildOf(w.session, op.newParent, op.newName).value;
      var a, b := w.session.nodeToPath[op.parent], w.session.nodeToPath[op.newParent];
      assert Within(root, a) && Within(root, b) && Accepted(from);
      assert ListingAt(w.cache, r, from);
      hide Next, ChildOf, Answers, CM.Cache.Rename, CM.Cache.InvalidateChildren, N.NodeTable, Durable, ListingAt,
        Within, Below, Join, Child, ValidName, Accepted, TreeMoved;
      var e := RenameEvent(from, w.clock, Some((op.parent, op.name)), to, (op.newParent, op.newName), op.done);
      OneCall(w, w', e, r, r');
      if op.done.Ok? {
        RenameMovesListings(w.cache, from, to, a, b);
        hide MovesListings, Under;
        RenamedListing(root, w.cache, w'.cache, r, r', from, to, a, op.name, b, op.newName, d);
      } else {
        SameListing(w.cache, w'.cache, r, d);
      }
    }
  }

  // ---- Whole runs ------------------------------------------------------------

  lemma RestartListing(w: World, op: Op, r: Tree, r': Tree, d: Path)
    requires ListingsTrue(w, r) && op.OpRestart? && M.Served(w, op, r, r')
    ensures ListingAt(Next(w, op, w.clock).cache, r', d)
  {
    assert ListingAt(w.cache, r, d);
    NoCall(w, Next(w, op, w.clock), r, r');
    hide Join;
  }

  lemma ListingStepAt(w: World, op: Op, r: Tree, r': Tree, d: Path)
    requires ListingsTrue(w, r) && ServedFully(w, op, r, r') && NoOrphans(w, op)
    ensures ListingAt(Next(w, op, w.clock).cache, r', d)
  {
    hide Next, ListingsTrue, ListingAt, Answers, NoOrphans, Complete;
    match op
    case OpReaddir(_, _) => ReaddirListing(w, op, r, r', d);
    case OpCreate(_, _, _) => NameListing(w, op, r, r', d);
    case OpMkdir(_, _, _) => NameListing(w, op, r, r', d);
    case OpUnlink(_, _, _) => NameListing(w, op, r, r', d);
    case OpRmdir(_, _, _) => NameListing(w, op, r, r', d);
    case OpRename(_, _, _, _, _) => RenameListing(w, op, r, r', d);
    case OpRestart(_, _, _, _) => RestartListing(w, op, r, r', d);
    case _ => NamelessListing(w, op, r, r', d);
  }

  lemma ListingStep(w: World, op: Op, r: Tree, r': Tree)
    requires ListingsTrue(w, r) && ServedFully(w, op, r, r') && NoOrphans(w, op)
    ensures ListingsTrue(Next(w, op, w.clock), r')
  {
    hide Next, ListingAt, NoOrphans, ServedFully, E.KeysWithin, Durable, N.NodeTable;
    N.NodesStep(w, op, w.clock);
    E.WithinStep(w, op);
    DurableStep(w, op, w.clock);
    forall d ensures ListingAt(Next(w, op, w.clock).cache, r', d) { ListingStepAt(w, op, r, r', d); }
  }

  /** A run against a remote that only this mount changes and that lists completely. */
  ghost predicate SingleWriter(w: World, ops: seq<Timed>, trees: seq<Tree>, w': World)
    decreases |ops|
  {
    && |trees| == |ops| + 1
    && if ops == [] then w' == w
       else
         var w0 := w.(clock := ops[0].now);
         && w.clock <= ops[0].now
         && ServedFully(w0, ops[0].op, trees[0], trees[1]) && NoOrphans(w0, ops[0].op)
         && SingleWriter(Tick(w, ops[0].op, ops[0].now), ops[1..], trees[1..], w')
  }

  lemma {:induction false} ListingRun(w: World, ops: seq<Timed>, trees: seq<Tree>, w': World)
    requires |trees| > 0 && ListingsTrue(w, trees[0]) && SingleWriter(w, ops, trees, w')
    ensures ListingsTrue(w', trees[|trees| - 1])
    decreases |ops|
  {
    if ops != [] {
      hide Next, ListingAt, NoOrphans, ServedFully, E.KeysWithin, Durable, N.NodeTable;
      var w0 := w.(clock := ops[0].now);
      ListingStep(w0, ops[0].op, trees[0], trees[1]);
      ListingRun(Tick(w, ops[0].op, ops[0].now), ops[1..], trees[1..], w');
    }
  }

  lemma EmptyListings(config: Config, cs: Positive, r: Tree)
    ensures ListingsTrue(Mount(config, CM.Cache(cs, I.EMPTY, I.EMPTY, map[])), r)
  {
    N.MountOk(config, CM.Cache(cs, I.EMPTY, I.EMPTY, map[]));
  }

  // ---- What a cached listing shows -------------------------------------------

  ghost predicate Shows(entries: seq<DirectoryEntry>, name: string) {
    exists i :: 0 <= i < |entries| && entries[i].name == name
  }

  lemma {:induction false} CachedNames(cache: CM.Cache, dir: Path, names: seq<string>, name: string)
    requires CachedChildren(cache, dir, names).Some?
    ensures var children := CachedChildren(cache, dir, names).value;
      (exists i :: 0 <= i < |children| && children[i].0 == name)
      <==> name in names && Join(dir, name).Ok? && cache.Attrs(Join(dir, name).value).Some?
    ensures name in names ==> Join(dir, name).Ok?
    decreases |names|
  {
    if names != [] {
      hide Join, CM.Cache.Attrs;
      var n := |names| - 1;
      CachedNames(cache, dir, names[..n], name);
      var front, children := CachedChildren(cache, dir, names[..n]).value, CachedChildren(cache, dir, names).value;
      assert name in names <==> name in names[..n] || name == names[n];
      assert forall i :: 0 <= i < |front| ==> children[i] == front[i];
      if i :| 0 <= i < |children| && children[i].0 == name && i < |front| { assert front[i].0 == name; }
      if i :| 0 <= i < |front| && front[i].0 == name { assert children[i].0 == name; }
      if |children| > |front| { assert children[|front|].0 == names[n]; }
    }
  }

  lemma ShownNames(w: World, dir: Path, name: string)
    requires ReaddirFromCache(w, dir).Some?
    ensures Shows(ReaddirFromCache(w, dir).value.1, name)
      <==> name in w.cache.index.listings[dir] && Join(dir, name).Ok? && w.cache.Attrs(Join(dir, name).value).Some?
  {
    hide Join, CM.Cache.Attrs, InternAll, CachedChildren;
    var names := w.cache.index.listings[dir];
    CachedNames(w.cache, dir, names, name);
    var children := CachedChildren(w.cache, dir, names).value;
    F.InternAllEntries(w.session, dir, children);
    var entries := InternAll(w.session, dir, children).1;
    if i :| 0 <= i < |entries| && entries[i].name == name { assert children[i].0 == name; }
    if i :| 0 <= i < |children| && children[i].0 == name { assert entries[i].name == name; }
  }

  /**
   Listings refine the remote. After any single-writer run from an empty cache, restarts included, a listing served from
   the cache shows a name if and only if the remote has that child now and its attributes are cached: never a
   name that is gone, and a present one is missing only while its attributes are not known.
   */
  lemma CachedListingTrue(config: Config, cs: Positive, ops: seq<Timed>, trees: seq<Tree>, w: World, dir: Path,
                          name: string)
    requires |trees| > 0 && SingleWriter(Mount(config, CM.Cache(cs, I.EMPTY, I.EMPTY, map[])), ops, trees, w)
    requires ReaddirFromCache(w, dir).Some?
    ensures Shows(ReaddirFromCache(w, dir).value.1, name) <==>
      Join(dir, name).Ok? && Join(dir, name).value in trees[|trees| - 1] && w.cache.Attrs(Join(dir, name).value).Some?
  {
    var r := trees[|trees| - 1];
    EmptyListings(config, cs, trees[0]);
    ListingRun(Mount(config, CM.Cache(cs, I.EMPTY, I.EMPTY, map[])), ops, trees, w);
    assert ListingAt(w.cache, r, dir);
    hide SingleWriter, ListingsTrue, Shows, Join, CM.Cache.Attrs;
    ShownNames(w, dir, name);
  }

  /**
   Why `NoOrphans`: eviction goes by the keys that have attributes. A listing below the renamed directory is true after
   the rename if and only if its directory's attributes were cached; otherwise it stays behind although the directory is
   gone.
   */
  lemma OrphanListingStays(w: World, op: Op, r: Tree, r': Tree, d: Path)
    requires ListingsTrue(w, r) && op.OpRename? && op.done.Ok? && M.Served(w, op, r, r')
    requires Next(w, op, w.clock).log != w.log
    requires ChildOf(w.session, op.parent, op.name).Ok? && d in w.cache.index.listings
    requires ChildOf(w.session, op.parent, op.name).value + "/" <= d
    requires PathOf(w.session, op.parent) != Ok(d) && PathOf(w.session, op.newParent) != Ok(d)
    ensures ListingAt(Next(w, op, w.clock).cache, r', d) <==> d in w.cache.index.entries
  {
    RenameEffect(w, op);
    var w' := Next(w, op, w.clock);
    var from, to := ChildOf(w.session, op.parent, op.name).value, ChildOf(w.session, op.newParent, op.newName).value;
    var a, b := w.session.nodeToPath[op.parent], w.session.nodeToPath[op.newParent];
    assert ListingAt(w.cache, r, d);
    hide Next, ChildOf, Answers, N.NodeTable, Durable, Join, E.KeysWithin, ListingsTrue, CM.Cache.Rename,
      CM.Cache.InvalidateChildren;
    var e := RenameEvent(from, w.clock, Some((op.parent, op.name)), to, (op.newParent, op.newName), op.done);
    OneCall(w, w', e, r, r');
    assert Under(from, d) && d != from && d in r;
    assert !Under(to, d) && !Under(from, to);
    GoneFromUnder(r, from, to, r', d);
    hide TreeMoved;
    RenameMovesListings(w.cache, from, to, a, b);
    if d !in w.cache.index.entries { OrphanKept(w.cache, from, to, a, b, d); }
  }

  /** How such a listing comes about: listing a directory records its children without its own attributes. */
  lemma ListingWithoutAttributes(w: World, op: Op, dir: Path)
    requires op.OpReaddir? && PathOf(w.session, op.node) == Ok(dir) && op.listing.Ok?
    requires Next(w, op, w.clock).log != w.log
    ensures dir in Next(w, op, w.clock).cache.index.listings
    ensures Next(w, op, w.clock).cache.Attrs(dir) == w.cache.Attrs(dir)
  {
    ReaddirEffect(w, op);
    var children := RealChildren(op.listing.value);
    RecordListingView(w.cache, dir, children, dir);
    L.StoreChildrenListings(w.cache.index, dir, children);
    hide Next, StampAll, RealChildren;
    forall name ensures Join(dir, name) != Ok(dir) { X.ChildIsNotSelf(dir, name); }
  }

  /** What was under `from` and is not under `to` is gone. */
  lemma GoneFromUnder(r: Tree, from: Path, to: Path, r': Tree, d: Path)
    requires TreeMoved(r, from, to, r') && d in r && Under(from, d) && forall k :: k in r ==> !Under(to, k)
    ensures d !in r'
  {
  }

  lemma OrphanKept(c: CM.Cache, from: Path, to: Path, a: Path, b: Path, d: Path)
    requires d in c.index.listings && d !in c.index.entries && d != from && d != to && d != a && d != b
    ensures d in c.Rename(from, to).InvalidateChildren(a).InvalidateChildren(b).index.listings
  {
  }

  // ---- Which nodes a rename leaves behind --------------------------------------

  /** The node that a rename re-points: the one its old path maps to. */
  predicate Repointed(s: Session, from: Path, node: NodeId) { from in s.pathToNode && s.pathToNode[from] == node }

  /**
   Nodes after a rename. Exactly one node follows the renamed path. A node names an existing path afterwards if and only
   if it is that one, or it named a path outside the renamed one that existed, or its path, which named nothing before,
   lies at or under the new name and the tree brought something there.
   */
  lemma NodesAfterRename(w: World, op: Op, r: Tree, r': Tree, node: NodeId)
    requires op.OpRename? && op.done.Ok? && M.Served(w, op, r, r') && Next(w, op, w.clock).log != w.log
    requires node in w.session.nodeToPath
    ensures ChildOf(w.session, op.parent, op.name).Ok? && ChildOf(w.session, op.newParent, op.newName).Ok?
    ensures node in Next(w, op, w.clock).session.nodeToPath
    ensures var from, to :=
      ChildOf(w.session, op.parent, op.name).value, ChildOf(w.session, op.newParent, op.newName).value;
      var p, p' := w.session.nodeToPath[node], Next(w, op, w.clock).session.nodeToPath[node];
      && p' == (if Repointed(w.session, from, node) then to else p)
      && (p' in r' <==>
            || Repointed(w.session, from, node)
            || (p in r && !Under(from, p))
            || (Under(to, p) && from + p[|to|..] in r))
  {
    RenameEffect(w, op);
    var w' := Next(w, op, w.clock);
    var from, to := ChildOf(w.session, op.parent, op.name).value, ChildOf(w.session, op.newParent, op.newName).value;
    WasWritable(w, op);
    RenameCalls(w, op, from, to);
    hide Next, ChildOf, Answers, Under;
    var e := RenameEvent(from, w.clock, Some((op.parent, op.name)), to, (op.newParent, op.newName), op.done);
    OneCall(w, w', e, r, r');
    M.MovedAt(r, from, to, r', to);
  }

  lemma WasWritable(w: World, op: Op)
    requires op.OpRename? && Next(w, op, w.clock).log != w.log
    ensures !w.config.readOnly
  {
  }

  /**
   So every other node at or below the renamed directory is left naming nothing, and no answer to a getattr can be true.
   */
  lemma DescendantsAreStale(w: World, op: Op, r: Tree, r': Tree, node: NodeId, at: Time, attrs: FileAttributes)
    requires op.OpRename? && op.done.Ok? && M.Served(w, op, r, r') && Next(w, op, w.clock).log != w.log
    requires node in w.session.nodeToPath && w.session.nodeToPath[node] in r
    requires ChildOf(w.session, op.parent, op.name).Ok?
    requires Under(ChildOf(w.session, op.parent, op.name).value, w.session.nodeToPath[node])
    requires !Repointed(w.session, ChildOf(w.session, op.parent, op.name).value, node)
    ensures var w' := Next(w, op, w.clock);
      && node in w'.session.nodeToPath && w'.session.nodeToPath[node] == w.session.nodeToPath[node]
      && w'.session.nodeToPath[node] !in r'
      && !Truthful(r', StatEvent(w'.session.nodeToPath[node], at, None, Ok(attrs)))
  {
    NodesAfterRename(w, op, r, r', node);
    RenameEffect(w, op);
    var w' := Next(w, op, w.clock);
    var from, to := ChildOf(w.session, op.parent, op.name).value, ChildOf(w.session, op.newParent, op.newName).value;
    hide Next, ChildOf, Answers, Under, TreeMoved;
    var e := RenameEvent(from, w.clock, Some((op.parent, op.name)), to, (op.newParent, op.newName), op.done);
    OneCall(w, w', e, r, r');
    assert !Under(to, w.session.nodeToPath[node]);
  }
}
