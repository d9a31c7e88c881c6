/**
 `CacheVfs` itself: an object whose methods update the node table, the handle table and the freshness maps in place, and
 a store beside them. Every method is proved against the function of `VfsModel` that says what it does.
 */
module VfsModule {
  import opened Base
  import opened RemotePaths
  import I = CacheIndex
  import CM = CacheModel
  import opened StoreModule
  import opened VfsModel

  class CacheVfs {
    const root: Path
    const readOnly: bool
    const cacheMode: CacheMode
    const metadataTtl: Time
    const negativeTtl: Time
    const store: Store

    var nextNode: NodeId
    var nextHandle: Handle
    var pathToNode: map<Path, NodeId>
    var nodeToPath: map<NodeId, Path>
    var handles: map<Handle, OpenFile>
    var validated: map<Path, Time>
    var negative: map<(NodeId, string), Time>

    /** The remote calls made so far. */
    ghost var log: seq<Event>

    ghost predicate Valid() { negativeTtl == Min(metadataTtl, NEGATIVE_TTL_CAP) }

    ghost function State(): Session
      reads this
    {
      Session(nextNode, nextHandle, pathToNode, nodeToPath, handles, validated, negative)
    }

    ghost function Now(now: Time): World
      reads this, store
    {
      World(Config(root, readOnly, cacheMode, metadataTtl), store.State(), State(), log, now)
    }

    /** `CacheVfs::new` on a cache directory. */
    constructor (root: Path, readOnly: bool, mode: CacheMode, ttl: Time, saved: I.Index, disk: map<ObjectId, Bytes>,
                 chunkSize: nat)
      ensures Valid() && fresh(store)
      ensures Now(0) == Mount(Config(root, readOnly, mode, ttl), CM.Cache(Max(chunkSize, 1), saved, saved, disk))
    {
      this.root, this.readOnly, cacheMode, metadataTtl := root, readOnly, mode, ttl;
      negativeTtl := Min(ttl, NEGATIVE_TTL_CAP);
      store := new Store(saved, disk, chunkSize);
      nextNode, nextHandle := ROOT + 1, 1;
      pathToNode, nodeToPath := map[root := ROOT], map[ROOT := root];
      handles, validated, negative := map[], map[], map[];
      log := [];
    }

    // ---- Tables --------------------------------------------------------------

    method PathOf(node: NodeId) returns (r: Result<Path>)
      ensures r == VfsModel.PathOf(State(), node)
    {
      r := if node in nodeToPath then Ok(nodeToPath[node]) else Err(NotFound);
    }

    method Intern(path: Path) returns (node: NodeId)
      modifies this`nextNode, this`pathToNode, this`nodeToPath
      ensures (State(), node) == VfsModel.Intern(old(State()), path)
    {
      if path in pathToNode {
        return pathToNode[path];
      }
      node := nextNode;
      nextNode := nextNode + 1;
      pathToNode := pathToNode[path := node];
      nodeToPath := nodeToPath[node := path];
    }

    method OpenHandle(node: NodeId, path: Path) returns (handle: Handle)
      modifies this`nextHandle, this`handles
      ensures (State(), handle) == VfsModel.OpenHandle(old(State()), node, path)
    {
      handle := nextHandle;
      nextHandle := nextHandle + 1;
      handles := handles[handle := OpenFile(node, path)];
    }

    method RenamePath(from: Path, to: Path)
      modifies this`pathToNode, this`nodeToPath
      ensures State() == VfsModel.RenamePath(old(State()), from, to)
    {
      if from in pathToNode {
        var node := pathToNode[from];
        pathToNode := pathToNode - {from};
        pathToNode := pathToNode[to := node];
        nodeToPath := nodeToPath[node := to];
      }
    }

    // ---- Freshness -----------------------------------------------------------

    method MetadataFresh(path: Path, now: Time) returns (r: bool)
      ensures r == Now(now).MetadataFresh(path, now)
    {
      if cacheMode == Offline {
        return true;
      }
      r := path in validated && now < validated[path] + metadataTtl;
    }

    method FreshNegative(at: Time, now: Time) returns (r: bool)
      requires Valid()
      ensures r == Now(now).NegativeFresh(at, now)
    {
      r := cacheMode == Offline || now < at + negativeTtl;
    }

    method ChildPath(parent: NodeId, name: string) returns (r: Result<Path>)
      ensures r == ChildOf(State(), parent, name)
    {
      var path := PathOf(parent);
      if path.Err? {
        return path;
      }
      r := Join(path.value, name);
    }

    // ---- Metadata ------------------------------------------------------------

    /** `reply` is the remote's answer, should it be asked. */
    method Lookup(parent: NodeId, name: string, now: Time, reply: Result<FileAttributes>)
      returns (r: Result<FileMetadata>)
      requires Valid()
      modifies this, store
      ensures (Now(now), r) == VfsModel.Lookup(old(Now(now)), parent, name, now, reply)
    {
      hide Join, VfsModel.Intern, CM.Cache.PutAttrs, CM.Cache.Remove, CM.Cache.Attrs;
      var child := ChildPath(parent, name);
      if child.Err? {
        return Err(child.error);
      }
      hide ChildOf;
      var path := child.value;
      if (parent, name) in negative {
        var recent := FreshNegative(negative[(parent, name)], now);
        if recent {
          return Err(NotFound);
        }
      }
      var confirmed := MetadataFresh(path, now);
      var cached := store.GetAttrs(path);
      if confirmed && cached.Some? {
        var node := Intern(path);
        return Ok(FileMetadata(node, cached.value));
      }
      if cacheMode == Offline {
        return Err(NotFound);
      }
      log := log + [StatEvent(path, now, Some((parent, name)), reply)];
      if reply.Ok? {
        store.PutAttrs(path, reply.value);
        validated := validated[path := now];
        negative := negative - {(parent, name)};
        var node := Intern(path);
        return Ok(FileMetadata(node, reply.value));
      }
      if reply.error.NotFound? {
        store.Remove(path);
        negative := negative[(parent, name) := now];
        return Err(NotFound);
      }
      if reply.error.Unavailable? && cached.Some? {
        var node := Intern(path);
        return Ok(FileMetadata(node, cached.value));
      }
      return Err(reply.error);
    }

    method Getattr(node: NodeId, now: Time, reply: Result<FileAttributes>) returns (r: Result<FileMetadata>)
      modifies this`validated, this`log, store
      ensures (Now(now), r) == VfsModel.Getattr(old(Now(now)), node, now, reply)
    {
      hide CM.Cache.PutAttrs, CM.Cache.Remove, CM.Cache.Attrs;
      var known := PathOf(node);
      if known.Err? {
        return Err(known.error);
      }
      var path := known.value;
      var confirmed := MetadataFresh(path, now);
      var cached := store.GetAttrs(path);
      if confirmed && cached.Some? {
        return Ok(FileMetadata(node, cached.value));
      }
      if cacheMode == Offline {
        return Err(NotFound);
      }
      log := log + [StatEvent(path, now, None, reply)];
      if reply.Ok? {
        store.PutAttrs(path, reply.value);
        validated := validated[path := now];
        return Ok(FileMetadata(node, reply.value));
      }
      if reply.error.NotFound? {
        store.Remove(path);
        return Err(NotFound);
      }
      if reply.error.Unavailable? && cached.Some? {
        return Ok(FileMetadata(node, cached.value));
      }
      return Err(reply.error);
    }

    // ---- Directories ---------------------------------------------------------

    method ReaddirFromCache(path: Path, ghost now: Time) returns (r: Option<seq<DirectoryEntry>>)
      modifies this`nextNode, this`pathToNode, this`nodeToPath
      ensures var cached := VfsModel.ReaddirFromCache(old(Now(now)), path);
        if cached.Some? then (Now(now), r) == (cached.value.0, Some(cached.value.1))
        else Now(now) == old(Now(now)) && r == None
    {
      hide Join, Child, VfsModel.Intern, CM.Cache.Attrs;
      var names := store.GetChildren(path);
      if names.None? {
        return None;
      }
      var collected := CollectCached(path, names.value);
      if collected.None? {
        return None;
      }
      var children := collected.value;
      var entries: seq<DirectoryEntry> := [];
      for i := 0 to |children|
        invariant (State(), entries) == InternAll(old(State()), path, children[..i])
      {
        assert children[..i + 1][..i] == children[..i];
        var (name, attributes) := children[i];
        var node := Intern(Child(path, name));
        entries := entries + [DirectoryEntry(name, FileMetadata(node, attributes))];
      }
      assert children[..|children|] == children;
      return Some(entries);
    }

    /** The children whose attributes are in the store. */
    method CollectCached(path: Path, names: seq<string>) returns (r: Option<Listing>)
      ensures r == CachedChildren(store.State(), path, names)
    {
      hide Join, CM.Cache.Attrs;
      var children: Listing := [];
      for i := 0 to |names|
        invariant CachedChildren(store.State(), path, names[..i]) == Some(children)
      {
        assert names[..i + 1][..i] == names[..i];
        var child := Join(path, names[i]);
        if child.Err? {
          NeverJoins(store.State(), path, names, i);
          return None;
        }
        var cached := store.GetAttrs(child.value);
        if cached.Some? {
          children := children + [(names[i], cached.value)];
        }
      }
      assert names[..|names|] == names;
      return Some(children);
    }

    method Readdir(node: NodeId, now: Time, reply: Result<Listing>) returns (r: Result<seq<DirectoryEntry>>)
      modifies this, store
      ensures (Now(now), r) == VfsModel.Readdir(old(Now(now)), node, now, reply)
    {
      hide VfsModel.ReaddirFromCache, StampAll, VfsModel.RealChildren, CM.Cache.RecordListing;
      var known := PathOf(node);
      if known.Err? {
        return Err(known.error);
      }
      var path := known.value;
      var confirmed := MetadataFresh(path, now);
      if confirmed {
        var cached := ReaddirFromCache(path, now);
        if cached.Some? {
          return Ok(cached.value);
        }
      }
      if cacheMode == Offline {
        return Err(NotFound);
      }
      log := log + [ReadDirEvent(path, now, reply)];
      if reply.Err? {
        if reply.error.Unavailable? {
          var cached := ReaddirFromCache(path, now);
          if cached.Some? {
            return Ok(cached.value);
          }
        }
        return Err(reply.error);
      }
      var children := WithoutDots(reply.value);
      store.RecordListing(path, children);
      r := StampChildren(path, children, now);
      if r.Ok? {
        validated := validated[path := now];
      }
    }

    method WithoutDots(listing: Listing) returns (children: Listing)
      ensures children == RealChildren(listing)
    {
      children := [];
      for i := 0 to |listing|
        invariant children == RealChildren(listing[..i])
      {
        assert listing[..i + 1][..i] == listing[..i];
        if listing[i].0 != "." && listing[i].0 != ".." {
          children := children + [listing[i]];
        }
      }
      assert listing[..|listing|] == listing;
    }

    method StampChildren(path: Path, children: Listing, now: Time) returns (r: Result<seq<DirectoryEntry>>)
      modifies this`nextNode, this`pathToNode, this`nodeToPath, this`validated
      ensures (State(), r) == StampAll(old(State()), path, children, now)
    {
      hide Join, VfsModel.Intern;
      var entries: seq<DirectoryEntry> := [];
      for i := 0 to |children|
        invariant (State(), Ok(entries)) == StampAll(old(State()), path, children[..i], now)
      {
        assert children[..i + 1][..i] == children[..i];
        var (name, attributes) := children[i];
        var child := Join(path, name);
        if child.Err? {
          StopsStamping(old(State()), path, children, now, i);
          return Err(child.error);
        }
        validated := validated[child.value := now];
        var node := Intern(child.value);
        entries := entries + [DirectoryEntry(name, FileMetadata(node, attributes))];
      }
      assert children[..|children|] == children;
      return Ok(entries);
    }

    // ---- Files ---------------------------------------------------------------

    method Open(node: NodeId, flags: OpenFlags, now: Time, reply: Result<FileAttributes>) returns (r: Result<Handle>)
      modifies this, store
      ensures (Now(now), r) == VfsModel.Open(old(Now(now)), node, flags, now, reply)
    {
      hide CM.Cache.InvalidateContent;
      if (flags.write || flags.append || flags.truncate) && readOnly {
        return Err(PermissionDenied);
      }
      var known := PathOf(node);
      if known.Err? {
        return Err(known.error);
      }
      var path := known.value;
      if flags.truncate {
        log := log + [SetattrEvent(path, now, TRUNCATE, reply)];
        if reply.Err? {
          return Err(reply.error);
        }
        store.InvalidateContent(path);
        validated := validated - {path};
      }
      var handle := OpenHandle(node, path);
      return Ok(handle);
    }

    /** `reply` answers the revalidation, `direct` a read-through, and `peer` the chunk downloads. */
    method Read(handle: Handle, offset: U64, size: U32, now: Time, reply: Result<FileAttributes>, direct: Result<Bytes>,
                peer: Peer)
      returns (r: Result<Bytes>)
      requires peer.events == []
      modifies this, store, peer
      ensures (Now(now), r) == VfsModel.Read(old(Now(now)), handle, offset, size, now, reply, direct, old(peer.script))
    {
      hide VfsModel.Getattr, CM.Cache.Read, CM.Cache.ReadCached;
      if handle !in handles {
        return Err(InvalidInput);
      }
      var file := handles[handle];
      match cacheMode
      case Remote =>
        log := log + [ContentEvent(CM.ReadEvent(file.path, offset, size, direct))];
        return direct;
      case Offline =>
        r := store.ReadCached(file.path, offset, size);
      case _ =>
        var meta := Getattr(file.node, now, reply);
        if meta.Err? {
          return Err(meta.error);
        }
        ghost var served := store.State().Read(file.path, meta.value.attributes, offset, size, peer.script);
        r := store.Read(file.path, peer, meta.value.attributes, offset, size);
        assert peer.events == served.events;
        log := log + ContentEvents(peer.events);
    }

    method Write(handle: Handle, offset: nat, data: Bytes, reply: Result<nat>, ghost now: Time) returns (r: Result<nat>)
      modifies this`validated, this`log, store
      ensures (Now(now), r) == VfsModel.Write(old(Now(now)), handle, offset, data, reply)
    {
      hide CM.Cache.InvalidateContent;
      if readOnly {
        return Err(PermissionDenied);
      }
      if handle !in handles {
        return Err(InvalidInput);
      }
      var path := handles[handle].path;
      log := log + [WriteEvent(path, offset, data, reply)];
      if reply.Err? {
        return reply;
      }
      store.InvalidateContent(path);
      validated := validated - {path};
      return reply;
    }

    method Release(handle: Handle, ghost now: Time)
      modifies this`handles
      ensures Now(now) == VfsModel.Release(old(Now(now)), handle)
    {
      handles := handles - {handle};
    }

    // ---- Names ---------------------------------------------------------------

    method Create(parent: NodeId, name: string, now: Time, reply: Result<FileAttributes>)
      returns (r: Result<CreatedFile>)
      modifies this, store
      ensures (Now(now), r) == VfsModel.Create(old(Now(now)), parent, name, now, reply)
    {
      hide Join, VfsModel.Intern, CM.Cache.PutAttrs, CM.Cache.InvalidateChildren;
      if readOnly {
        return Err(PermissionDenied);
      }
      var dir := PathOf(parent);
      if dir.Err? {
        return Err(dir.error);
      }
      var child := Join(dir.value, name);
      if child.Err? {
        return Err(child.error);
      }
      var path := child.value;
      ghost var before := State();
      log := log + [CreateEvent(path, now, Some((parent, name)), reply)];
      if reply.Err? {
        return Err(reply.error);
      }
      store.PutAttrs(path, reply.value);
      store.InvalidateChildren(dir.value);
      validated := validated[path := now];
      negative := negative - {(parent, name)};
      SameNodeEither(before, State(), path);
      var node := Intern(path);
      var handle := OpenHandle(node, path);
      return Ok(CreatedFile(FileMetadata(node, reply.value), handle));
    }

    method Mkdir(parent: NodeId, name: string, now: Time, reply: Result<FileAttributes>)
      returns (r: Result<FileMetadata>)
      modifies this, store
      ensures (Now(now), r) == VfsModel.Mkdir(old(Now(now)), parent, name, now, reply)
    {
      hide Join, VfsModel.Intern, CM.Cache.PutAttrs, CM.Cache.InvalidateChildren;
      if readOnly {
        return Err(PermissionDenied);
      }
      var dir := PathOf(parent);
      if dir.Err? {
        return Err(dir.error);
      }
      var child := Join(dir.value, name);
      if child.Err? {
        return Err(child.error);
      }
      var path := child.value;
      ghost var before := State();
      log := log + [MkdirEvent(path, now, Some((parent, name)), reply)];
      if reply.Err? {
        return Err(reply.error);
      }
      store.PutAttrs(path, reply.value);
      store.InvalidateChildren(dir.value);
      validated := validated[path := now];
      negative := negative - {(parent, name)};
      SameNodeEither(before, State(), path);
      var node := Intern(path);
      return Ok(FileMetadata(node, reply.value));
    }

    method Unlink(parent: NodeId, name: string, now: Time, reply: Result<()>) returns (r: Result<()>)
      modifies this`negative, this`log, store
      ensures (Now(now), r) == VfsModel.Unlink(old(Now(now)), parent, name, now, reply)
    {
      hide Join, CM.Cache.Remove, CM.Cache.InvalidateChildren;
      if readOnly {
        return Err(PermissionDenied);
      }
      var dir := PathOf(parent);
      if dir.Err? {
        return Err(dir.error);
      }
      var child := Join(dir.value, name);
      if child.Err? {
        return Err(child.error);
      }
      log := log + [UnlinkEvent(child.value, now, Some((parent, name)), reply)];
      if reply.Err? {
        return reply;
      }
      store.Remove(child.value);
      store.InvalidateChildren(dir.value);
      negative := negative[(parent, name) := now];
      return reply;
    }

    method Rmdir(parent: NodeId, name: string, now: Time, reply: Result<()>) returns (r: Result<()>)
      modifies this`negative, this`log, store
      ensures (Now(now), r) == VfsModel.Rmdir(old(Now(now)), parent, name, now, reply)
    {
      hide Join, CM.Cache.Remove, CM.Cache.InvalidateChildren;
      if readOnly {
        return Err(PermissionDenied);
      }
      var dir := PathOf(parent);
      if dir.Err? {
        return Err(dir.error);
      }
      var child := Join(dir.value, name);
      if child.Err? {
        return Err(child.error);
      }
      log := log + [RmdirEvent(child.value, now, Some((parent, name)), reply)];
      if reply.Err? {
        return reply;
      }
      store.Remove(child.value);
      store.InvalidateChildren(dir.value);
      negative := negative[(parent, name) := now];
      return reply;
    }

    method Rename(parent: NodeId, name: string, newParent: NodeId, newName: string, now: Time, reply: Result<()>)
      returns (r: Result<()>)
      modifies this, store
      ensures (Now(now), r) == VfsModel.Rename(old(Now(now)), parent, name, newParent, newName, now, reply)
    {
      hide Join, VfsModel.RenamePath, CM.Cache.Rename, CM.Cache.InvalidateChildren;
      if readOnly {
        return Err(PermissionDenied);
      }
      var fromDir := PathOf(parent);
      if fromDir.Err? {
        return Err(fromDir.error);
      }
      var toDir := PathOf(newParent);
      if toDir.Err? {
        return Err(toDir.error);
      }
      var from := Join(fromDir.value, name);
      if from.Err? {
        return Err(from.error);
      }
      var to := Join(toDir.value, newName);
      if to.Err? {
        return Err(to.error);
      }
      log := log + [RenameEvent(from.value, now, Some((parent, name)), to.value, (newParent, newName), reply)];
      if reply.Err? {
        return reply;
      }
      store.Rename(from.value, to.value);
      store.InvalidateChildren(fromDir.value);
      store.InvalidateChildren(toDir.value);
      RenamePath(from.value, to.value);
      validated := validated - {from.value};
      negative := negative[(parent, name) := now];
      negative := negative - {(newParent, newName)};
      return reply;
    }

    method Setattr(node: NodeId, change: SetAttributes, now: Time, reply: Result<FileAttributes>)
      returns (r: Result<FileMetadata>)
      modifies this`validated, this`log, store
      ensures (Now(now), r) == VfsModel.Setattr(old(Now(now)), node, change, now, reply)
    {
      hide CM.Cache.PutAttrs;
      if readOnly {
        return Err(PermissionDenied);
      }
      var known := PathOf(node);
      if known.Err? {
        return Err(known.error);
      }
      log := log + [SetattrEvent(known.value, now, change, reply)];
      if reply.Err? {
        return Err(reply.error);
      }
      store.PutAttrs(known.value, reply.value);
      validated := validated[known.value := now];
      return Ok(FileMetadata(node, reply.value));
    }
  }

  /** Once a name does not join, the rest of the listing does not matter. */
  lemma {:induction false} NeverJoins(cache: CM.Cache, dir: Path, names: seq<string>, i: nat)
    requires i < |names| && Join(dir, names[i]).Err?
    ensures CachedChildren(cache, dir, names) == None
    decreases |names|
  {
    if i < |names| - 1 { NeverJoins(cache, dir, names[..|names| - 1], i); }
  }

  /** The loop ends at the first name that does not join. */
  lemma {:induction false} StopsStamping(s: Session, dir: Path, children: Listing, now: Time, i: nat)
    requires i < |children| && Join(dir, children[i].0).Err? && StampAll(s, dir, children[..i], now).1.Ok?
    ensures StampAll(s, dir, children, now) ==
      (StampAll(s, dir, children[..i], now).0, Err(Join(dir, children[i].0).error))
    decreases |children|
  {
    hide Join, Intern;
    var n := |children| - 1;
    if i < n {
      assert children[..n][..i] == children[..i];
      StopsStamping(s, dir, children[..n], now, i);
    }
  }

  /** Stamps and negative entries do not influence which node a path gets. */
  lemma SameNodeEither(s: Session, s': Session, path: Path)
    requires s'.pathToNode == s.pathToNode && s'.nextNode == s.nextNode
    ensures Intern(s', path).1 == Intern(s, path).1
  {
  }
}
