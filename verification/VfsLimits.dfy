/** Where freshness and mirroring end: exact conditions, and runs that go past them. */
module VfsLimits {
  import opened Base
  import opened RemotePaths
  import opened Chunks
  import I = CacheIndex
  import CM = CacheModel
  import CacheReads
  import opened VfsModel
  import opened VfsViews
  import opened VfsDurable
  import opened VfsRemote
  import F = VfsFreshness
  import M = VfsMirror

  // ---- Renaming onto a path that keeps a stamp --------------------------------

  /** A successful rename of a cached path to a path outside it. */
  ghost predicate MovesCached(w: World, op: Op, from: Path, to: Path) {
    && op.OpRename? && op.done.Ok? && !w.config.readOnly
    && ChildOf(w.session, op.parent, op.name) == Ok(from) && ChildOf(w.session, op.newParent, op.newName) == Ok(to)
    && !Under(from, to) && w.cache.Attrs(from).Some?
  }

  lemma MovedView(w: World, op: Op, from: Path, to: Path)
    requires MovesCached(w, op, from, to)
    ensures var w' := Next(w, op, w.clock);
      && w'.cache.Attrs(to) == w.cache.Attrs(from) && (Live(w', to) <==> Live(w, to))
      && F.SameStamp(w.session, w'.session, to) && w'.config == w.config && w'.clock == w.clock
      && w'.log == w.log + [RenameEvent(from, w.clock, Some((op.parent, op.name)), to, (op.newParent, op.newName),
                                        op.done)]
  {
    var a, b := w.session.nodeToPath[op.parent], w.session.nodeToPath[op.newParent];
    RenameView(w.cache, from, to, to);
    F.RenamedView(w.cache, from, to, a, b, to);
    hide ChildOf, CM.Cache.Rename, CM.Cache.InvalidateChildren, CM.Cache.Attrs;
  }

  /**
   The stamp of the target survives a rename. If the remote never reported the moved attributes for the target, then
   they are served as fresh after the rename if and only if that stamp is still live.
   */
  lemma RenameFreshExactly(w: World, op: Op, from: Path, to: Path)
    requires MovesCached(w, op, from, to) && F.FreshAt(w, to)
    requires forall i: int, t: Time :: 0 <= i < |w.log| ==> !F.Reports(w.log[i], to, w.cache.Attrs(from).value, t)
    ensures F.FreshAt(Next(w, op, w.clock), to) <==> !Live(w, to)
  {
    MovedView(w, op, from, to);
    hide Next, Live, CM.Cache.Attrs;
    var w' := Next(w, op, w.clock);
    assert forall i: int, t: Time :: 0 <= i < |w'.log| ==> !F.Reports(w'.log[i], to, w.cache.Attrs(from).value, t);
  }

  /**
   The same for mirroring: it breaks exactly when the target's stamp is live and the moved attributes are out of date.
   */
  lemma RenameMirrorsExactly(w: World, op: Op, from: Path, to: Path, r: Tree, r': Tree)
    requires M.Mirrors(w, r) && MovesCached(w, op, from, to) && M.Served(w, op, r, r')
    ensures M.MirrorsAt(Next(w, op, w.clock), r', to) <==> !Live(w, to) || Describes(r, from, w.cache.Attrs(from).value)
  {
    MovedView(w, op, from, to);
    assert M.MirrorsAt(w, r, from) && M.MirrorsAt(w, r, to);
    var w' := Next(w, op, w.clock);
    RenameOpDurable(w, op, w.clock);
    RenameEffect(w, op);
    M.RenameCarries(w.cache, from, to, to);
    M.RenamedCache(w.cache, from, to, w.session.nodeToPath[op.parent], w.session.nodeToPath[op.newParent], to);
    var e := RenameEvent(from, w.clock, Some((op.parent, op.name)), to, (op.newParent, op.newName), op.done);
    OneCall(w, w', e, r, r');
    assert CM.CacheOk(w'.cache);
    hide Next, Live, CM.Cache.Attrs, CM.CacheOk, Durable, CM.Cache.Rename, CM.Cache.InvalidateChildren, M.Mirrors,
      I.Content, M.Shrinks, Under, Answers;
    M.MovedAt(r, from, to, r', to);
    hide TreeMoved;
    M.CarriedMirrors(w.cache, w'.cache, r, r', to, from);
  }

  // ---- Listing a directory ---------------------------------------------------

  /** No child of a directory is the directory. */
  lemma ChildIsNotSelf(dir: Path, name: string)
    ensures Join(dir, name) != Ok(dir)
  {
    if Join(dir, name).Ok? {
      WithinSelf(dir);
      WithinChild(dir, dir, name);
      BelowNotRoot(dir, Child(dir, name));
    }
  }

  /**
   A listing answered by the remote stamps the directory anew without new attributes for it. Unless it had been
   confirmed at the same instant, the directory's own attributes then count as fresh beyond their time-to-live, if and
   only if the time-to-live is not zero.
   */
  lemma ListingFreshExactly(w: World, op: Op, dir: Path)
    requires op.OpReaddir? && PathOf(w.session, op.node) == Ok(dir) && op.listing.Ok? && w.cache.Attrs(dir).Some?
    requires Readdir(w, op.node, w.clock, op.listing).1.Ok? && Readdir(w, op.node, w.clock, op.listing).0.log != w.log
    requires forall i: int, t: Time :: 0 <= i < |w.log| && w.clock <= t ==>
      !F.Reports(w.log[i], dir, w.cache.Attrs(dir).value, t)
    ensures F.FreshAt(Next(w, op, w.clock), dir) <==> w.config.ttl == 0
  {
    var w', children := Next(w, op, w.clock), RealChildren(op.listing.value);
    ReaddirEffect(w, op);
    RecordListingView(w.cache, dir, children, dir);
    forall name ensures Join(dir, name) != Ok(dir) { ChildIsNotSelf(dir, name); }
    assert w'.session.validated[dir] == w.clock by {
      hide StampAll, RealChildren, ReaddirFromCache, CM.Cache.RecordListing;
      CachedStamps(w, dir);
    }
    hide Next, Readdir, StampAll, RealChildren, CM.Cache.RecordListing, Join, CM.Cache.Attrs;
    assert w'.cache.Attrs(dir) == w.cache.Attrs(dir);
    forall i: int, t: Time | 0 <= i < |w'.log| && w.clock <= t
      ensures !F.Reports(w'.log[i], dir, w.cache.Attrs(dir).value, t)
    {
      if i < |w.log| { assert w'.log[i] == w.log[i]; }
    }
  }

  // ---- Reading through a renamed handle --------------------------------------

  /**
   A handle keeps the path it was opened with, while the size that clips the read comes from the node's path of today.
   If the node has moved to a file no longer than the offset, nothing is read of the file that now has the old path,
   however long that file is.
   */
  lemma RenamedHandleIsClipped(w: World, op: Op, r: Tree)
    requires op.OpRead? && op.size > 0 && (w.config.mode.OnDemand? || w.config.mode.Pinned?)
    requires op.handle in w.session.handles
    requires var file := w.session.handles[op.handle];
      && file.node in w.session.nodeToPath && w.session.nodeToPath[file.node] != file.path
      && file.path in r && r[file.path].FileNode?
      && Live(w, w.session.nodeToPath[file.node]) && w.cache.Attrs(w.session.nodeToPath[file.node]).Some?
      && w.cache.Attrs(w.session.nodeToPath[file.node]).value.size <= op.offset < |r[file.path].bytes|
    ensures var file := w.session.handles[op.handle];
      Read(w, op.handle, op.offset, op.size, w.clock, op.attrs, op.direct, op.script).1 == Ok([])
      && Slice(r[file.path].bytes, op.offset, op.size) != []
  {
    hide CM.Cache.Hydrate, CM.Cache.ReadRange;
  }

  /**
   Such a read can also give the old path attributes that were never reported for it. If it has none, and the read
   fetches anything, it gets those of the node's new path; and they count as fresh if and only if an old stamp is still
   live.
   */
  lemma BorrowedFreshExactly(w: World, op: Op, p: Path)
    requires op.OpRead? && (w.config.mode.OnDemand? || w.config.mode.Pinned?) && op.handle in w.session.handles
    requires w.session.handles[op.handle].path == p && PathOf(w.session, w.session.handles[op.handle].node) != Ok(p)
    requires F.FreshAt(w, p) && w.cache.Attrs(p).None?
    requires var meta := Getattr(w, w.session.handles[op.handle].node, w.clock, op.attrs).1;
      && meta.Ok? && op.size > 0 && op.offset < meta.value.attributes.size
      && Read(w, op.handle, op.offset, op.size, w.clock, op.attrs, op.direct, op.script).1.Ok?
      && forall i: int, t: Time :: 0 <= i < |w.log| ==> !F.Reports(w.log[i], p, meta.value.attributes, t)
    ensures F.FreshAt(Next(w, op, w.clock), p) <==> !Live(w, p)
  {
    var file, w' := w.session.handles[op.handle], Next(w, op, w.clock);
    var (w1, meta) := Getattr(w, file.node, w.clock, op.attrs);
    var attrs := meta.value.attributes;
    var s := w1.cache.Read(p, attrs, op.offset, op.size, op.script);
    assert w' == w1.(cache := s.cache, log := w1.log + ContentEvents(s.events)) && s.outcome.Ok? by {
      hide Getattr, CM.Cache.Read, ContentEvents;
    }
    F.GetattrElsewhere(w, file.node, w.clock, op.attrs, p);
    GetattrRevalidates(w, file.node, op.attrs);
    FetchRecords(w1.cache, p, attrs, op.offset, op.size, op.script);
    ReadView(w1.cache, p, attrs, op.offset, op.size, op.script);
    hide Getattr, CM.Cache.Read, CM.Cache.Attrs, Next, Lists;
    assert w'.cache.Attrs(p) == Some(attrs);
    forall i: int, t: Time | 0 <= i < |w'.log|
      ensures !F.Reports(w'.log[i], p, attrs, t)
    {
      if i < |w.log| { assert w'.log[i] == w.log[i]; }
    }
  }

  /** A read that got past the end check leaves an entry behind. */
  lemma FetchRecords(c: CM.Cache, p: Path, attrs: FileAttributes, offset: U64, size: U32, script: CM.Script)
    requires size > 0 && offset < attrs.size && c.Read(p, attrs, offset, size, script).outcome.Ok?
    ensures c.Read(p, attrs, offset, size, script).cache.Attrs(p).Some?
  {
    CacheReads.ReadMinimal(c, p, attrs, offset, size, script);
    hide CM.Cache.Read;
    var cs, end := c.chunkSize, ReadEnd(offset, size, attrs.size);
    InRange(offset, end, cs, LastChunk(end, cs));
    assert CacheReads.Needs(c, attrs, offset, size, LastChunk(end, cs));
  }

  // ---- Runs that go past the limits ------------------------------------------

  function Attributes(kind: FileKind, size: U64): FileAttributes {
    FileAttributes(kind, size, 0, 0, 0, Some(0), None, None)
  }

  function FreshMount(): World {
    Mount(Config("/", false, OnDemand, 10), CM.Cache(4, I.EMPTY, I.EMPTY, map[]))
  }

  lemma RootChildren()
    ensures Join("/", "a") == Ok("/a") && Join("/", "b") == Ok("/b")
    ensures Child("/", "a") == "/a" && Child("/", "b") == "/b"
  {
    assert Trim("/") == "" by { assert "/"[..0] == ""; }
    assert Split("/", '/') == ["", ""] by {
      assert "/"[1..] == "";
    }
    assert Accepted("/");
    JoinAccepted("/", "a");
    JoinAccepted("/", "b");
    assert Child("/", "a") == "/a" && Child("/", "b") == "/b";
  }

  /** The directory's attributes, reported at 0 and valid for 10, are served without a call at 15. */
  lemma ListedDirectoryStaysFresh()
    ensures var root := Attributes(Directory, 0);
      var ops := [Timed(OpGetattr(ROOT, Ok(root)), 0), Timed(OpReaddir(ROOT, Ok([])), 9)];
      exists w :: Runs(FreshMount(), ops, w)
        && Getattr(w, ROOT, 15, Err(Unavailable)) == (w, Ok(FileMetadata(ROOT, root)))
        && !F.Recent(w, "/", root, 15)
  {
    var root := Attributes(Directory, 0);
    var ops := [Timed(OpGetattr(ROOT, Ok(root)), 0), Timed(OpReaddir(ROOT, Ok([])), 9)];
    var w1 := Tick(FreshMount(), ops[0].op, 0);
    var w2 := Tick(w1, ops[1].op, 9);
    assert w1.cache.Attrs("/") == Some(root);
    assert RealChildren([]) == [];
    assert w2.log == [StatEvent("/", 0, None, Ok(root)), ReadDirEvent("/", 9, Ok([]))];
    assert w2.session.validated["/"] == 9;
    assert w2.cache.Attrs("/") == Some(root);
    assert ops[1..][1..] == [];
    assert Runs(w2, [], w2);
    assert Runs(w1, ops[1..], w2);
    assert Runs(FreshMount(), ops, w2);
  }

  /**
   The child's attributes, reported at 0 and valid for 10, are listed without a call at 15, because a stat re-stamped
   the directory.
   */
  lemma CachedListingOutlivesItsTtl()
    ensures var root, a := Attributes(Directory, 0), Attributes(File, 1);
      var ops := [Timed(OpReaddir(ROOT, Ok([("a", a)])), 0), Timed(OpGetattr(ROOT, Ok(root)), 9)];
      exists w :: Runs(FreshMount(), ops, w)
        && Readdir(w, ROOT, 15, Err(Unavailable)) == (w, Ok([DirectoryEntry("a", FileMetadata(2, a))]))
        && !F.Recent(w, "/a", a, 15)
  {
    RootChildren();
    hide Join, Child;
    var root, a := Attributes(Directory, 0), Attributes(File, 1);
    var listing := [("a", a)];
    var ops := [Timed(OpReaddir(ROOT, Ok(listing)), 0), Timed(OpGetattr(ROOT, Ok(root)), 9)];
    assert listing[..0] == [];
    assert RealChildren([]) == [];
    assert RealChildren(listing) == listing;
    var w1 := Tick(FreshMount(), ops[0].op, 0);
    var w2 := Tick(w1, ops[1].op, 9);
    var s := FreshSession("/");
    assert StampAll(s, "/", [], 0) == (s, Ok([]));
    assert w1.cache.Attrs("/a") == Some(a) by { assert I.StoreChildren(I.EMPTY, "/", []) == (I.EMPTY, {}); }
    assert I.Names(listing) == ["a"];
    assert w1.cache.Children("/") == Some(["a"]);
    assert w1.log == [ReadDirEvent("/", 0, Ok(listing))];
    assert |"/"| != |"/a"|;
    assert w1.cache.index.entries == map["/a" := I.Entry(a, None)] by {
      assert I.StoreChildren(I.EMPTY, "/", []) == (I.EMPTY, {});
    }
    assert w1.cache.Attrs("/") == None;
    assert "/a" in w1.session.pathToNode && w1.session.pathToNode["/a"] == 2;
    assert w2.log == [ReadDirEvent("/", 0, Ok(listing)), StatEvent("/", 9, None, Ok(root))];
    assert w2.session.validated["/"] == 9;
    assert w2.cache.Attrs("/a") == Some(a);
    assert w2.cache.Children("/") == Some(["a"]);
    assert ["a"][..0] == [];
    assert CachedChildren(w2.cache, "/", []) == Some([]);
    assert CachedChildren(w2.cache, "/", ["a"]) == Some(listing);
    assert InternAll(w2.session, "/", []) == (w2.session, []);
    assert Intern(w2.session, "/a") == (w2.session, 2);
    var entry := DirectoryEntry("a", FileMetadata(2, a));
    assert listing[..|listing| - 1] == [] && listing[|listing| - 1] == ("a", a);
    assert [] + [entry] == [entry];
    assert InternAll(w2.session, "/", listing) == (w2.session, [DirectoryEntry("a", FileMetadata(2, a))]);
    assert ops[1..][1..] == [];
    assert Runs(w2, [], w2);
    assert Runs(w1, ops[1..], w2);
    assert Runs(FreshMount(), ops, w2);
  }

  const ONE: FileAttributes := Attributes(File, 1)

  /** A cache directory in which `a` is known with one byte. */
  function Remembered(): CM.Cache {
    var ix := I.Index(0, map["/a" := I.Entry(ONE, None)], map[]);
    CM.Cache(4, ix, ix, map[])
  }

  function Started(): World { Mount(Config("/", false, OnDemand, 10), Remembered()) }

  /** By now `a` has two bytes. */
  function Grown(): Tree {
    map["/" := DirNode, "/a" := FileNode(Version(2, Some(0)), [1, 2]), "/b" := FileNode(VersionOf(ONE), [9])]
  }

  /** What the cache remembers of `a` is out of date, but a mirror: it has no stamp. */
  lemma StartedMirrors()
    ensures M.Mirrors(Started(), Grown()) && !Describes(Grown(), "/a", ONE)
  {
    assert "/a"[1] != "/b"[1] && |"/"| != |"/a"| && |"/"| != |"/b"|;
    assert Grown()["/a"] == FileNode(Version(2, Some(0)), [1, 2]);
  }

  /** `b` has been looked up, and is known next to `a`. */
  ghost predicate BothKnown(w: World) {
    && w.config == Started().config && w.clock == 0
    && w.cache.index == Remembered().index.(entries := map["/a" := I.Entry(ONE, None), "/b" := I.Entry(ONE, None)])
    && w.session.validated == map["/b" := 0]
    && w.session.nodeToPath == map[1 := "/", 2 := "/b"] && w.session.pathToNode == map["/" := 1, "/b" := 2]
  }

  lemma LooksUp()
    ensures BothKnown(Next(Started(), OpLookup(ROOT, "b", Ok(ONE)), 0))
  {
    RootChildren();
    hide Join;
    assert |"/"| != |"/b"| && "/a"[1] != "/b"[1];
  }

  lemma Unlinks(w: World)
    requires BothKnown(w)
    ensures var w' := Next(w, OpUnlink(ROOT, "b", Ok(())), 0);
      && w'.config == Started().config && w'.clock == 0
      && w'.cache.index == Remembered().index
      && w'.session.validated == map["/b" := 0] && w'.session.nodeToPath == map[1 := "/", 2 := "/b"]
      && "/a" !in w'.session.pathToNode
  {
    RootChildren();
    hide Join;
    assert |"/"| != |"/b"| && "/a"[1] != "/b"[1];
    assert w.cache.index.entries - {"/b"} == map["/a" := I.Entry(ONE, None)];
  }

  lemma StampLeftBehind()
    ensures var w := Next(Next(Started(), OpLookup(ROOT, "b", Ok(ONE)), 0), OpUnlink(ROOT, "b", Ok(())), 0);
      && w.config == Started().config && w.clock == 0
      && w.cache.index == Remembered().index
      && w.session.validated == map["/b" := 0] && w.session.nodeToPath == map[1 := "/", 2 := "/b"]
      && "/a" !in w.session.pathToNode
  {
    hide Next, BothKnown;
    LooksUp();
    Unlinks(Next(Started(), OpLookup(ROOT, "b", Ok(ONE)), 0));
  }

  /**
   `b` is looked up and removed, and `a`, which has two bytes by now, takes its name: the next lookup of `b` is
   answered without a call, with the one byte `a` used to have.
   */
  lemma RenameOntoAStampServesTheOldSize()
    ensures M.Mirrors(Started(), Grown()) && !Describes(Grown(), "/a", ONE)
    ensures var w := Next(Next(Started(), OpLookup(ROOT, "b", Ok(ONE)), 0), OpUnlink(ROOT, "b", Ok(())), 0);
      var op := OpRename(ROOT, "a", ROOT, "b", Ok(()));
      var w' := Next(w, op, 0);
      && Lookup(w', ROOT, "b", 5, Err(Unavailable)).0.log == w'.log
      && Lookup(w', ROOT, "b", 5, Err(Unavailable)).1.Ok?
      && Lookup(w', ROOT, "b", 5, Err(Unavailable)).1.value.attributes == ONE
  {
    StartedMirrors();
    StampLeftBehind();
    hide M.Mirrors, Next, Lookup;
    ServedFromStamp(Next(Next(Started(), OpLookup(ROOT, "b", Ok(ONE)), 0), OpUnlink(ROOT, "b", Ok(())), 0));
  }

  lemma ServedFromStamp(w: World)
    requires w.config == Started().config && w.clock == 0 && w.cache.index == Remembered().index
    requires w.session.validated == map["/b" := 0] && w.session.nodeToPath == map[1 := "/", 2 := "/b"]
    requires "/a" !in w.session.pathToNode
    ensures var w' := Next(w, OpRename(ROOT, "a", ROOT, "b", Ok(())), 0);
      && Lookup(w', ROOT, "b", 5, Err(Unavailable)).0.log == w'.log
      && Lookup(w', ROOT, "b", 5, Err(Unavailable)).1.Ok?
      && Lookup(w', ROOT, "b", 5, Err(Unavailable)).1.value.attributes == ONE
  {
    RootChildren();
    hide Join;
    assert |"/"| != |"/b"| && "/a"[1] != "/b"[1];
    var op := OpRename(ROOT, "a", ROOT, "b", Ok(()));
    assert !Under("/a", "/b");
    MovedView(w, op, "/a", "/b");
    var w' := Next(w, op, 0);
    assert (ROOT, "b") !in w'.session.negative;
    assert w'.session.nodeToPath[ROOT] == "/";
    assert w'.MetadataFresh("/b", 5);
    hide Next;
  }
}
