/** Every key of the cache lies within the mount root, so directory renames evict exactly, in every run. */
module VfsEviction {
  import opened Base
  import opened Chunks
  import opened RemotePaths
  import I = CacheIndex
  import CM = CacheModel
  import CacheReads
  import opened VfsModel
  import N = VfsNodes
  import opened VfsViews

  /** All keys, in memory and on disk, are paths of the mount. */
  ghost predicate KeysWithin(c: CM.Cache, root: Path) {
    I.Confined(c.index, root) && I.Confined(c.saved, root)
  }

  lemma PutAttrsWithin(c: CM.Cache, root: Path, p: Path, attrs: FileAttributes)
    requires KeysWithin(c, root) && Within(root, p)
    ensures KeysWithin(c.PutAttrs(p, attrs), root)
  {
    hide Within;
  }

  lemma ShrinkWithin(c: CM.Cache, root: Path, p: Path)
    requires KeysWithin(c, root)
    ensures KeysWithin(c.Remove(p), root) && KeysWithin(c.InvalidateChildren(p), root)
    ensures KeysWithin(c.InvalidateContent(p), root)
  {
    hide Within;
  }

  lemma {:induction false} StoreChildrenWithin(ix: I.Index, root: Path, dir: Path, children: Listing)
    requires I.Confined(ix, root) && Within(root, dir)
    ensures I.Confined(I.StoreChildren(ix, dir, children).0, root)
    decreases |children|
  {
    if children != [] {
      var n := |children| - 1;
      StoreChildrenWithin(ix, root, dir, children[..n]);
      if Join(dir, children[n].0).Ok? { N.JoinWithin(root, dir, children[n].0); }
      hide Within, Join;
    }
  }

  lemma RecordListingWithin(c: CM.Cache, root: Path, dir: Path, children: Listing)
    requires KeysWithin(c, root) && Within(root, dir)
    ensures KeysWithin(c.RecordListing(dir, children), root)
  {
    hide Within;
    StoreChildrenWithin(c.index, root, dir, children);
  }

  lemma RenameWithin(c: CM.Cache, root: Path, from: Path, to: Path)
    requires KeysWithin(c, root) && Within(root, to)
    ensures KeysWithin(c.Rename(from, to), root)
  {
    hide Within;
  }

  lemma FetchWithin(c: CM.Cache, root: Path, p: Path, attrs: FileAttributes, chunk: nat, script: CM.Script)
    requires KeysWithin(c, root) && Within(root, p) && chunk * c.chunkSize <= attrs.size
    ensures KeysWithin(c.FetchChunk(p, attrs, chunk, script).cache, root)
  {
    hide Within, CM.Download;
  }

  lemma {:induction false} HydrateWithin(c: CM.Cache, root: Path, p: Path, attrs: FileAttributes, i: nat, last: nat,
                                         script: CM.Script)
    requires KeysWithin(c, root) && Within(root, p) && (i <= last ==> last * c.chunkSize <= attrs.size)
    ensures KeysWithin(c.Hydrate(p, attrs, i, last, script).cache, root)
    decreases last + 1 - i
  {
    hide KeysWithin, Within, CM.Cache.FetchChunk;
    if i > last {
    } else if c.Has(p, VersionOf(attrs), i) {
      HydrateWithin(c, root, p, attrs, i + 1, last, script);
    } else {
      CacheReads.HydrateFetches(c, p, attrs, i, last, script);
      FetchWithin(c, root, p, attrs, i, script);
      var f := c.FetchChunk(p, attrs, i, script);
      if f.outcome.Ok? { HydrateWithin(f.cache, root, p, attrs, i + 1, last, f.rest); }
    }
  }

  lemma ReadWithin(c: CM.Cache, root: Path, p: Path, attrs: FileAttributes, offset: U64, size: U32, script: CM.Script)
    requires KeysWithin(c, root) && Within(root, p)
    ensures KeysWithin(c.Read(p, attrs, offset, size, script).cache, root)
  {
    hide KeysWithin, Within, CM.Cache.Hydrate;
    if size > 0 && offset < attrs.size {
      var cs, end := c.chunkSize, ReadEnd(offset, size, attrs.size);
      InRange(offset, end, cs, LastChunk(end, cs));
      HydrateWithin(c, root, p, attrs, FirstChunk(offset, cs), LastChunk(end, cs), script);
    }
  }

  // ---- Every operation -------------------------------------------------------

  lemma RevalidateWithin(w: World, w': World, p: Path, key: Option<(NodeId, string)>, reply: Result<FileAttributes>)
    requires Revalidates(w, w', p, key, reply) && KeysWithin(w.cache, w.config.root) && Within(w.config.root, p)
    ensures KeysWithin(w'.cache, w.config.root)
  {
    hide KeysWithin, Within, CM.Cache.PutAttrs, CM.Cache.Remove;
    if reply.Ok? { PutAttrsWithin(w.cache, w.config.root, p, reply.value); }
    ShrinkWithin(w.cache, w.config.root, p);
  }

  lemma QueryWithin(w: World, op: Op)
    requires N.SessionOk(w) && KeysWithin(w.cache, w.config.root) && (op.OpLookup? || op.OpGetattr? || op.OpReaddir?)
    ensures KeysWithin(Next(w, op, w.clock).cache, w.config.root)
  {
    var root := w.config.root;
    if op.OpLookup? {
      if ChildOf(w.session, op.parent, op.name).Ok? {
        N.ChildConfined(w.session, root, op.parent, op.name);
        LookupRevalidates(w, op);
        hide KeysWithin, Within, Next;
        RevalidateWithin(w, Next(w, op, w.clock), ChildOf(w.session, op.parent, op.name).value,
                         Some((op.parent, op.name)), op.attrs);
      }
    } else if op.node in w.session.nodeToPath {
      var p := w.session.nodeToPath[op.node];
      assert Within(root, p);
      if op.OpGetattr? {
        GetattrRevalidates(w, op.node, op.attrs);
        hide KeysWithin, Within, Getattr;
        RevalidateWithin(w, Next(w, op, w.clock), p, None, op.attrs);
      } else {
        ReaddirEffect(w, op);
        hide KeysWithin, Within, Next, CM.Cache.RecordListing, StampAll, RealChildren;
        if op.listing.Ok? { RecordListingWithin(w.cache, root, p, RealChildren(op.listing.value)); }
      }
    }
  }

  lemma FileWithin(w: World, op: Op)
    requires N.SessionOk(w) && KeysWithin(w.cache, w.config.root)
    requires (op.OpOpen? || op.OpWrite? || op.OpRelease? || op.OpSetattr?)
    ensures KeysWithin(Next(w, op, w.clock).cache, w.config.root)
  {
    var root := w.config.root;
    if op.OpWrite? && op.handle in w.session.handles { ShrinkWithin(w.cache, root, w.session.handles[op.handle].path); }
    if (op.OpOpen? || op.OpSetattr?) && op.node in w.session.nodeToPath {
      ShrinkWithin(w.cache, root, w.session.nodeToPath[op.node]);
      if op.attrs.Ok? { PutAttrsWithin(w.cache, root, w.session.nodeToPath[op.node], op.attrs.value); }
    }
    hide KeysWithin, Within, CM.Cache.InvalidateContent, CM.Cache.PutAttrs;
  }

  lemma ReadOpWithin(w: World, op: Op)
    requires N.SessionOk(w) && KeysWithin(w.cache, w.config.root) && op.OpRead?
    ensures KeysWithin(Next(w, op, w.clock).cache, w.config.root)
  {
    if op.handle in w.session.handles {
      var root, file := w.config.root, w.session.handles[op.handle];
      assert Within(root, file.path);
      var (w1, meta) := Getattr(w, file.node, w.clock, op.attrs);
      if file.node in w.session.nodeToPath {
        assert Within(root, w.session.nodeToPath[file.node]);
        GetattrRevalidates(w, file.node, op.attrs);
        RevalidateWithin(w, w1, w.session.nodeToPath[file.node], None, op.attrs);
      }
      hide KeysWithin, Within, Getattr, CM.Cache.Read, CM.Cache.ReadCached;
      if meta.Ok? { ReadWithin(w1.cache, root, file.path, meta.value.attributes, op.offset, op.size, op.script); }
    }
  }

  lemma NameWithin(w: World, op: Op)
    requires N.SessionOk(w) && KeysWithin(w.cache, w.config.root)
    requires (op.OpCreate? || op.OpMkdir? || op.OpUnlink? || op.OpRmdir?)
    ensures KeysWithin(Next(w, op, w.clock).cache, w.config.root)
  {
    var root := w.config.root;
    if Next(w, op, w.clock).log == w.log {
      QuietNames(w, op);
    } else {
      if op.OpCreate? || op.OpMkdir? { CreateEffect(w, op); } else { RemoveEffect(w, op); }
      N.ChildConfined(w.session, root, op.parent, op.name);
      hide KeysWithin, Within, Next, ChildOf, CM.Cache.PutAttrs, CM.Cache.Remove, CM.Cache.InvalidateChildren;
      var p, dir := ChildOf(w.session, op.parent, op.name).value, w.session.nodeToPath[op.parent];
      if (op.OpCreate? || op.OpMkdir?) && op.attrs.Ok? {
        PutAttrsWithin(w.cache, root, p, op.attrs.value);
        ShrinkWithin(w.cache.PutAttrs(p, op.attrs.value), root, dir);
      }
      ShrinkWithin(w.cache, root, p);
      ShrinkWithin(w.cache.Remove(p), root, dir);
    }
  }

  lemma RenameOpWithin(w: World, op: Op)
    requires N.SessionOk(w) && KeysWithin(w.cache, w.config.root) && op.OpRename?
    ensures KeysWithin(Next(w, op, w.clock).cache, w.config.root)
  {
    var root := w.config.root;
    if Next(w, op, w.clock).log == w.log {
      QuietNames(w, op);
    } else {
      RenameEffect(w, op);
      N.ChildConfined(w.session, root, op.newParent, op.newName);
      hide KeysWithin, Within, Next, ChildOf, CM.Cache.Rename, CM.Cache.InvalidateChildren;
      var from, to := ChildOf(w.session, op.parent, op.name).value, ChildOf(w.session, op.newParent, op.newName).value;
      var a, b := w.session.nodeToPath[op.parent], w.session.nodeToPath[op.newParent];
      RenameWithin(w.cache, root, from, to);
      ShrinkWithin(w.cache.Rename(from, to), root, a);
      ShrinkWithin(w.cache.Rename(from, to).InvalidateChildren(a), root, b);
    }
  }

  lemma RestartWithin(w: World, op: Op)
    requires KeysWithin(w.cache, w.config.root) && op.OpRestart?
    ensures KeysWithin(Next(w, op, w.clock).cache, w.config.root)
  {
  }

  lemma WithinStep(w: World, op: Op)
    requires N.SessionOk(w) && KeysWithin(w.cache, w.config.root)
    ensures KeysWithin(Next(w, op, w.clock).cache, w.config.root)
  {
    hide KeysWithin, Next, N.NodeTable;
    match op
    case OpLookup(_, _, _) => QueryWithin(w, op);
    case OpGetattr(_, _) => QueryWithin(w, op);
    case OpReaddir(_, _) => QueryWithin(w, op);
    case OpRead(_, _, _, _, _, _) => ReadOpWithin(w, op);
    case OpRename(_, _, _, _, _) => RenameOpWithin(w, op);
    case OpCreate(_, _, _) => NameWithin(w, op);
    case OpMkdir(_, _, _) => NameWithin(w, op);
    case OpUnlink(_, _, _) => NameWithin(w, op);
    case OpRmdir(_, _, _) => NameWithin(w, op);
    case OpRestart(_, _, _, _) => RestartWithin(w, op);
    case _ => FileWithin(w, op);
  }

  lemma {:induction false} WithinRun(w: World, ops: seq<Timed>, w': World)
    requires N.SessionOk(w) && KeysWithin(w.cache, w.config.root) && Runs(w, ops, w')
    ensures N.SessionOk(w') && KeysWithin(w'.cache, w'.config.root) && w'.config.root == w.config.root
    decreases |ops|
  {
    if ops != [] {
      hide Next, KeysWithin, N.NodeTable;
      var w0 := w.(clock := ops[0].now);
      N.NodesStep(w0, ops[0].op, ops[0].now);
      WithinStep(w0, ops[0].op);
      WithinRun(Tick(w, ops[0].op, ops[0].now), ops[1..], w');
    }
  }

  /**
   Exact eviction in every run. After any run from a mount on an empty cache, a successful rename to a path outside the
   renamed one drops exactly the entries below it (reachable by one or more joins), moves its own entry, and changes
   no other entry, siblings that share its text included.
   */
  lemma RenameEvictsExactly(config: Config, cs: Positive, ops: seq<Timed>, w: World, op: Op, key: Path)
    requires Runs(Mount(config, CM.Cache(cs, I.EMPTY, I.EMPTY, map[])), ops, w)
    requires op.OpRename? && op.done.Ok? && !w.config.readOnly
    requires ChildOf(w.session, op.parent, op.name).Ok? && ChildOf(w.session, op.newParent, op.newName).Ok?
    requires var from, to :=
      ChildOf(w.session, op.parent, op.name).value, ChildOf(w.session, op.newParent, op.newName).value;
      from != to && !Below(from, to)
    requires Within(w.config.root, key)
    ensures var from, to :=
      ChildOf(w.session, op.parent, op.name).value, ChildOf(w.session, op.newParent, op.newName).value;
      var e, e' := w.cache.index.entries, Next(w, op, w.clock).cache.index.entries;
      && (key == from || Below(from, key) ==> key !in e')
      && (key == to && from in e ==> key in e' && e'[key] == e[from])
      && (key != from && !Below(from, key) && (key != to || from !in e) ==>
            (key in e' <==> key in e) && (key in e ==> e'[key] == e[key]))
  {
    var mount := Mount(config, CM.Cache(cs, I.EMPTY, I.EMPTY, map[]));
    N.MountOk(config, mount.cache);
    WithinRun(mount, ops, w);
    hide Runs;
    assert Next(w, op, w.clock).log != w.log by {
      hide ChildOf, CM.Cache.Rename, CM.Cache.InvalidateChildren, RenamePath;
    }
    RenameEffect(w, op);
    hide Next;
    var root := w.config.root;
    var from, to := ChildOf(w.session, op.parent, op.name).value, ChildOf(w.session, op.newParent, op.newName).value;
    N.ChildConfined(w.session, root, op.parent, op.name);
    N.ChildConfined(w.session, root, op.newParent, op.newName);
    hide ChildOf, Within, Below, N.NodeTable, I.Rename, CM.Cache.Rename;
    I.RenameExact(w.cache.index, root, from, to, key);
    RenamedEntries(w.cache, from, to, w.session.nodeToPath[op.parent], w.session.nodeToPath[op.newParent]);
  }

  lemma RenamedEntries(c: CM.Cache, from: Path, to: Path, a: Path, b: Path)
    ensures c.Rename(from, to).InvalidateChildren(a).InvalidateChildren(b).index.entries ==
      I.Rename(c.index, from, to).0.entries
  {
    hide I.Rename;
  }
}
