/**
 The cache-backed filesystem as a state machine: what each operation of `CacheVfs` does to the session, the
 cache and the remote. The clock and the remote's answers are arguments; every remote call is logged.
 */
module VfsModel {
  import opened Base
  import opened RemotePaths
  import CM = CacheModel

  type Time = nat

  /** One second, in nanoseconds: the longest a negative entry is trusted. */
  const NEGATIVE_TTL_CAP: Time := 1_000_000_000

  datatype Config = Config(root: Path, readOnly: bool, mode: CacheMode, ttl: Time)

  datatype OpenFile = OpenFile(node: NodeId, path: Path)

  datatype Session = Session(
    nextNode: NodeId,
    nextHandle: Handle,
    pathToNode: map<Path, NodeId>,
    nodeToPath: map<NodeId, Path>,
    handles: map<Handle, OpenFile>,
    validated: map<Path, Time>,
    negative: map<(NodeId, string), Time>)

  type Listing = seq<(string, FileAttributes)>

  /** A remote call and its answer. */
  datatype Event =
    | StatEvent(path: Path, at: Time, key: Option<(NodeId, string)>, attrs: Result<FileAttributes>)
    | ReadDirEvent(path: Path, at: Time, listing: Result<Listing>)
    | ContentEvent(read: CM.ReadEvent)
    | WriteEvent(path: Path, offset: nat, data: Bytes, written: Result<nat>)
    | CreateEvent(path: Path, at: Time, key: Option<(NodeId, string)>, attrs: Result<FileAttributes>)
    | MkdirEvent(path: Path, at: Time, key: Option<(NodeId, string)>, attrs: Result<FileAttributes>)
    | SetattrEvent(path: Path, at: Time, change: SetAttributes, attrs: Result<FileAttributes>)
    | UnlinkEvent(path: Path, at: Time, key: Option<(NodeId, string)>, done: Result<()>)
    | RmdirEvent(path: Path, at: Time, key: Option<(NodeId, string)>, done: Result<()>)
    | RenameEvent(path: Path, at: Time, key: Option<(NodeId, string)>, to: Path, toKey: (NodeId, string),
                  done: Result<()>)

  datatype World = World(config: Config, cache: CM.Cache, session: Session, log: seq<Event>, clock: Time) {

    predicate IsOffline() { config.mode.Offline? }

    /** `metadata_fresh` */
    predicate MetadataFresh(p: Path, now: Time) {
      IsOffline() || (p in session.validated && now < session.validated[p] + config.ttl)
    }

    /** `fresh_negative` */
    predicate NegativeFresh(at: Time, now: Time) {
      IsOffline() || now < at + Min(config.ttl, NEGATIVE_TTL_CAP)
    }

    function Logged(e: Event): World { this.(log := log + [e]) }
    function Stamped(p: Path, now: Time): World { this.(session := session.(validated := session.validated[p := now])) }
    function Unstamped(p: Path): World { this.(session := session.(validated := session.validated - {p})) }
    function Missing(key: (NodeId, string), now: Time): World {
      this.(session := session.(negative := session.negative[key := now]))
    }
    function Present(key: (NodeId, string)): World {
      this.(session := session.(negative := session.negative - {key}))
    }
    function Interned(p: Path): World { this.(session := Intern(session, p).0) }
  }

  /** The stamp of `p` would be trusted at this moment. */
  ghost predicate Live(w: World, p: Path) {
    p in w.session.validated && w.clock < w.session.validated[p] + w.config.ttl
  }

  function FreshSession(root: Path): Session {
    Session(ROOT + 1, 1, map[root := ROOT], map[ROOT := root], map[], map[], map[])
  }

  /** `CacheVfs::new` on an existing cache directory. */
  function Mount(config: Config, cache: CM.Cache): World {
    World(config, cache, FreshSession(config.root), [], 0)
  }

  // ---- The node and handle tables --------------------------------------------

  function PathOf(s: Session, node: NodeId): Result<Path> {
    if node in s.nodeToPath then Ok(s.nodeToPath[node]) else Err(NotFound)
  }

  /** `intern` */
  function Intern(s: Session, p: Path): (Session, NodeId) {
    if p in s.pathToNode then (s, s.pathToNode[p])
    else
      (s.(nextNode := s.nextNode + 1,
          pathToNode := s.pathToNode[p := s.nextNode],
          nodeToPath := s.nodeToPath[s.nextNode := p]), s.nextNode)
  }

  /** `open_handle` */
  function OpenHandle(s: Session, node: NodeId, p: Path): (Session, Handle) {
    (s.(nextHandle := s.nextHandle + 1, handles := s.handles[s.nextHandle := OpenFile(node, p)]), s.nextHandle)
  }

  /** `rename_path` */
  function RenamePath(s: Session, from: Path, to: Path): Session {
    if from in s.pathToNode then
      var node := s.pathToNode[from];
      s.(pathToNode := (s.pathToNode - {from})[to := node], nodeToPath := s.nodeToPath[node := to])
    else s
  }

  /** Path of `name` under `parent`. */
  function ChildOf(s: Session, parent: NodeId, name: string): Result<Path> {
    var path := PathOf(s, parent);
    if path.Err? then path else Join(path.value, name)
  }

  // ---- Metadata --------------------------------------------------------------

  function Lookup(w: World, parent: NodeId, name: string, now: Time,
                  reply: Result<FileAttributes>): (World, Result<FileMetadata>) {
    var child := ChildOf(w.session, parent, name);
    var key := (parent, name);
    if child.Err? then (w, Err(child.error))
    else if key in w.session.negative && w.NegativeFresh(w.session.negative[key], now) then (w, Err(NotFound))
    else
      var p := child.value;
      if w.MetadataFresh(p, now) && w.cache.Attrs(p).Some? then
        (w.Interned(p), Ok(FileMetadata(Intern(w.session, p).1, w.cache.Attrs(p).value)))
      else if w.IsOffline() then (w, Err(NotFound))
      else
        var w1 := w.Logged(StatEvent(p, now, Some(key), reply));
        match reply
        case Ok(attrs) =>
          var w2 := w1.(cache := w1.cache.PutAttrs(p, attrs)).Stamped(p, now).Present(key);
          (w2.Interned(p), Ok(FileMetadata(Intern(w2.session, p).1, attrs)))
        case Err(NotFound) => (w1.(cache := w1.cache.Remove(p)).Missing(key, now), Err(NotFound))
        case Err(error) =>
          if error.Unavailable? && w1.cache.Attrs(p).Some? then
            (w1.Interned(p), Ok(FileMetadata(Intern(w1.session, p).1, w1.cache.Attrs(p).value)))
          else (w1, Err(error))
  }

  function Getattr(w: World, node: NodeId, now: Time, reply: Result<FileAttributes>): (World, Result<FileMetadata>) {
    var path := PathOf(w.session, node);
    if path.Err? then (w, Err(path.error))
    else
      var p := path.value;
      if w.MetadataFresh(p, now) && w.cache.Attrs(p).Some? then (w, Ok(FileMetadata(node, w.cache.Attrs(p).value)))
      else if w.IsOffline() then (w, Err(NotFound))
      else
        var w1 := w.Logged(StatEvent(p, now, None, reply));
        match reply
        case Ok(attrs) => (w1.(cache := w1.cache.PutAttrs(p, attrs)).Stamped(p, now), Ok(FileMetadata(node, attrs)))
        case Err(NotFound) => (w1.(cache := w1.cache.Remove(p)), Err(NotFound))
        case Err(error) =>
          if error.Unavailable? && w1.cache.Attrs(p).Some? then (w1, Ok(FileMetadata(node, w1.cache.Attrs(p).value)))
          else (w1, Err(error))
  }

  // ---- Directories -----------------------------------------------------------

  /**
   First half of `readdir_from_cache`: the children whose attributes are cached; none at all if a name does not join.
   */
  function CachedChildren(cache: CM.Cache, dir: Path, names: seq<string>): Option<Listing> {
    if names == [] then Some([])
    else
      var front := CachedChildren(cache, dir, names[..|names| - 1]);
      var name := names[|names| - 1];
      var child := Join(dir, name);
      if front.None? || child.Err? then None
      else if cache.Attrs(child.value).Some? then Some(front.value + [(name, cache.Attrs(child.value).value)])
      else front
  }

  /** Second half: a node for every child, in order. */
  function InternAll(s: Session, dir: Path, children: Listing): (Session, seq<DirectoryEntry>) {
    if children == [] then (s, [])
    else
      var (s1, entries) := InternAll(s, dir, children[..|children| - 1]);
      var (name, attrs) := children[|children| - 1];
      var (s2, node) := Intern(s1, Child(dir, name));
      (s2, entries + [DirectoryEntry(name, FileMetadata(node, attrs))])
  }

  function ReaddirFromCache(w: World, dir: Path): Option<(World, seq<DirectoryEntry>)> {
    var names := w.cache.Children(dir);
    if names.None? then None
    else
      var children := CachedChildren(w.cache, dir, names.value);
      if children.None? then None
      else
        var (s, entries) := InternAll(w.session, dir, children.value);
        Some((w.(session := s), entries))
  }

  /** The dot entries are not exposed. */
  function RealChildren(listing: Listing): Listing {
    if listing == [] then []
    else
      var rest := RealChildren(listing[..|listing| - 1]);
      var entry := listing[|listing| - 1];
      if entry.0 == "." || entry.0 == ".." then rest else rest + [entry]
  }

  /** The loop that stamps and interns listed children; a name that does not join ends it with an error. */
  function StampAll(s: Session, dir: Path, children: Listing, now: Time): (Session, Result<seq<DirectoryEntry>>) {
    if children == [] then (s, Ok([]))
    else
      var (s1, entries) := StampAll(s, dir, children[..|children| - 1], now);
      var (name, attrs) := children[|children| - 1];
      var child := Join(dir, name);
      if entries.Err? then (s1, entries)
      else if child.Err? then (s1, Err(child.error))
      else
        var (s2, node) := Intern(s1.(validated := s1.validated[child.value := now]), child.value);
        (s2, Ok(entries.value + [DirectoryEntry(name, FileMetadata(node, attrs))]))
  }

  function Readdir(w: World, node: NodeId, now: Time, reply: Result<Listing>): (World, Result<seq<DirectoryEntry>>) {
    var path := PathOf(w.session, node);
    if path.Err? then (w, Err(path.error))
    else
      var dir := path.value;
      var cached := ReaddirFromCache(w, dir);
      if w.MetadataFresh(dir, now) && cached.Some? then (cached.value.0, Ok(cached.value.1))
      else if w.IsOffline() then (w, Err(NotFound))
      else
        var w1 := w.Logged(ReadDirEvent(dir, now, reply));
        match reply
        case Err(error) =>
          var again := ReaddirFromCache(w1, dir);
          if error.Unavailable? && again.Some? then (again.value.0, Ok(again.value.1)) else (w1, Err(error))
        case Ok(listing) =>
          var children := RealChildren(listing);
          var w2 := w1.(cache := w1.cache.RecordListing(dir, children));
          var (s, entries) := StampAll(w2.session, dir, children, now);
          var w3 := w2.(session := s);
          (if entries.Ok? then w3.Stamped(dir, now) else w3, entries)
  }

  // ---- Files -----------------------------------------------------------------

  const TRUNCATE: SetAttributes := SetAttributes(Some(0), None, None, None)

  function Open(w: World, node: NodeId, flags: OpenFlags, now: Time,
                reply: Result<FileAttributes>): (World, Result<Handle>) {
    if (flags.write || flags.append || flags.truncate) && w.config.readOnly then (w, Err(PermissionDenied))
    else
      var path := PathOf(w.session, node);
      if path.Err? then (w, Err(path.error))
      else
        var p := path.value;
        if !flags.truncate then
          var (s, handle) := OpenHandle(w.session, node, p);
          (w.(session := s), Ok(handle))
        else
          var w1 := w.Logged(SetattrEvent(p, now, TRUNCATE, reply));
          if reply.Err? then (w1, Err(reply.error))
          else
            var w2 := w1.(cache := w1.cache.InvalidateContent(p)).Unstamped(p);
            var (s, handle) := OpenHandle(w2.session, node, p);
            (w2.(session := s), Ok(handle))
  }

  function ContentEvents(events: seq<CM.ReadEvent>): seq<Event> {
    seq(|events|, i requires 0 <= i < |events| => ContentEvent(events[i]))
  }

  /** `reply` answers the revalidation, `direct` a read-through, `script` the chunk downloads. */
  function Read(w: World, handle: Handle, offset: U64, size: U32, now: Time,
                reply: Result<FileAttributes>, direct: Result<Bytes>, script: CM.Script): (World, Result<Bytes>) {
    if handle !in w.session.handles then (w, Err(InvalidInput))
    else
      var file := w.session.handles[handle];
      match w.config.mode
      case Remote => (w.Logged(ContentEvent(CM.ReadEvent(file.path, offset, size, direct))), direct)
      case Offline => (w, w.cache.ReadCached(file.path, offset, size))
      case _ =>
        var (w1, meta) := Getattr(w, file.node, now, reply);
        if meta.Err? then (w1, Err(meta.error))
        else
          var s := w1.cache.Read(file.path, meta.value.attributes, offset, size, script);
          (w1.(cache := s.cache, log := w1.log + ContentEvents(s.events)), s.outcome)
  }

  function Write(w: World, handle: Handle, offset: nat, data: Bytes, reply: Result<nat>): (World, Result<nat>) {
    if w.config.readOnly then (w, Err(PermissionDenied))
    else if handle !in w.session.handles then (w, Err(InvalidInput))
    else
      var p := w.session.handles[handle].path;
      var w1 := w.Logged(WriteEvent(p, offset, data, reply));
      if reply.Err? then (w1, reply)
      else (w1.(cache := w1.cache.InvalidateContent(p)).Unstamped(p), reply)
  }

  function Release(w: World, handle: Handle): World {
    w.(session := w.session.(handles := w.session.handles - {handle}))
  }

  // ---- Names -----------------------------------------------------------------

  /** What `create` and `mkdir` do once the remote has answered. */
  function Created(w: World, parent: NodeId, name: string, p: Path, now: Time, attrs: FileAttributes): World
    requires parent in w.session.nodeToPath
  {
    w.(cache := w.cache.PutAttrs(p, attrs).InvalidateChildren(w.session.nodeToPath[parent]))
     .Stamped(p, now).Present((parent, name)).Interned(p)
  }

  function Create(w: World, parent: NodeId, name: string, now: Time,
                  reply: Result<FileAttributes>): (World, Result<CreatedFile>) {
    if w.config.readOnly then (w, Err(PermissionDenied))
    else
      var child := ChildOf(w.session, parent, name);
      if child.Err? then (w, Err(child.error))
      else
        var p := child.value;
        var w1 := w.Logged(CreateEvent(p, now, Some((parent, name)), reply));
        if reply.Err? then (w1, Err(reply.error))
        else
          var w2 := Created(w1, parent, name, p, now, reply.value);
          var node := Intern(w1.session, p).1;
          var (s, handle) := OpenHandle(w2.session, node, p);
          (w2.(session := s), Ok(CreatedFile(FileMetadata(node, reply.value), handle)))
  }

  function Mkdir(w: World, parent: NodeId, name: string, now: Time,
                 reply: Result<FileAttributes>): (World, Result<FileMetadata>) {
    if w.config.readOnly then (w, Err(PermissionDenied))
    else
      var child := ChildOf(w.session, parent, name);
      if child.Err? then (w, Err(child.error))
      else
        var p := child.value;
        var w1 := w.Logged(MkdirEvent(p, now, Some((parent, name)), reply));
        if reply.Err? then (w1, Err(reply.error))
        else (Created(w1, parent, name, p, now, reply.value), Ok(FileMetadata(Intern(w1.session, p).1, reply.value)))
  }

  /** What `unlink` and `rmdir` do once the remote has answered. */
  function Removed(w: World, parent: NodeId, name: string, p: Path, now: Time): World
    requires parent in w.session.nodeToPath
  {
    w.(cache := w.cache.Remove(p).InvalidateChildren(w.session.nodeToPath[parent])).Missing((parent, name), now)
  }

  function Unlink(w: World, parent: NodeId, name: string, now: Time, reply: Result<()>): (World, Result<()>) {
    if w.config.readOnly then (w, Err(PermissionDenied))
    else
      var child := ChildOf(w.session, parent, name);
      if child.Err? then (w, Err(child.error))
      else
        var w1 := w.Logged(UnlinkEvent(child.value, now, Some((parent, name)), reply));
        if reply.Err? then (w1, reply) else (Removed(w1, parent, name, child.value, now), reply)
  }

  function Rmdir(w: World, parent: NodeId, name: string, now: Time, reply: Result<()>): (World, Result<()>) {
    if w.config.readOnly then (w, Err(PermissionDenied))
    else
      var child := ChildOf(w.session, parent, name);
      if child.Err? then (w, Err(child.error))
      else
        var w1 := w.Logged(RmdirEvent(child.value, now, Some((parent, name)), reply));
        if reply.Err? then (w1, reply) else (Removed(w1, parent, name, child.value, now), reply)
  }

  /** What `rename` does once the remote has answered. */
  function Renamed(w: World, parent: NodeId, name: string, newParent: NodeId, newName: string,
                   from: Path, to: Path, now: Time): World
    requires parent in w.session.nodeToPath && newParent in w.session.nodeToPath
  {
    var cache := w.cache.Rename(from, to)
      .InvalidateChildren(w.session.nodeToPath[parent]).InvalidateChildren(w.session.nodeToPath[newParent]);
    w.(cache := cache, session := RenamePath(w.session, from, to))
     .Unstamped(from).Missing((parent, name), now).Present((newParent, newName))
  }

  function Rename(w: World, parent: NodeId, name: string, newParent: NodeId, newName: string,
                  now: Time, reply: Result<()>): (World, Result<()>) {
    if w.config.readOnly then (w, Err(PermissionDenied))
    else if PathOf(w.session, parent).Err? then (w, Err(PathOf(w.session, parent).error))
    else if PathOf(w.session, newParent).Err? then (w, Err(PathOf(w.session, newParent).error))
    else
      var from, to := ChildOf(w.session, parent, name), ChildOf(w.session, newParent, newName);
      if from.Err? then (w, Err(from.error))
      else if to.Err? then (w, Err(to.error))
      else
        var w1 := w.Logged(RenameEvent(from.value, now, Some((parent, name)), to.value, (newParent, newName), reply));
        if reply.Err? then (w1, reply)
        else (Renamed(w1, parent, name, newParent, newName, from.value, to.value, now), reply)
  }

  function Setattr(w: World, node: NodeId, change: SetAttributes, now: Time,
                   reply: Result<FileAttributes>): (World, Result<FileMetadata>) {
    if w.config.readOnly then (w, Err(PermissionDenied))
    else
      var path := PathOf(w.session, node);
      if path.Err? then (w, Err(path.error))
      else
        var p := path.value;
        var w1 := w.Logged(SetattrEvent(p, now, change, reply));
        if reply.Err? then (w1, Err(reply.error))
        else (w1.(cache := w1.cache.PutAttrs(p, reply.value)).Stamped(p, now), Ok(FileMetadata(node, reply.value)))
  }

  // ---- Runs ------------------------------------------------------------------

  datatype Op =
    | OpLookup(parent: NodeId, name: string, attrs: Result<FileAttributes>)
    | OpGetattr(node: NodeId, attrs: Result<FileAttributes>)
    | OpReaddir(node: NodeId, listing: Result<Listing>)
    | OpOpen(node: NodeId, flags: OpenFlags, attrs: Result<FileAttributes>)
    | OpRead(handle: Handle, offset: U64, size: U32, attrs: Result<FileAttributes>, direct: Result<Bytes>,
             script: CM.Script)
    | OpWrite(handle: Handle, at: nat, data: Bytes, written: Result<nat>)
    | OpRelease(handle: Handle)
    | OpCreate(parent: NodeId, name: string, attrs: Result<FileAttributes>)
    | OpMkdir(parent: NodeId, name: string, attrs: Result<FileAttributes>)
    | OpUnlink(parent: NodeId, name: string, done: Result<()>)
    | OpRmdir(parent: NodeId, name: string, done: Result<()>)
    | OpRename(parent: NodeId, name: string, newParent: NodeId, newName: string, done: Result<()>)
    | OpSetattr(node: NodeId, change: SetAttributes, attrs: Result<FileAttributes>)
    | OpRestart(mode: CacheMode, readOnly: bool, ttl: Time, chunkSize: nat)

  /** The operation at time `now`. A restart keeps the cache directory and the mount root. */
  function Next(w: World, op: Op, now: Time): World {
    match op
    case OpLookup(parent, name, attrs) => Lookup(w, parent, name, now, attrs).0
    case OpGetattr(node, attrs) => Getattr(w, node, now, attrs).0
    case OpReaddir(node, listing) => Readdir(w, node, now, listing).0
    case OpOpen(node, flags, attrs) => Open(w, node, flags, now, attrs).0
    case OpRead(handle, offset, size, attrs, direct, script) =>
      Read(w, handle, offset, size, now, attrs, direct, script).0
    case OpWrite(handle, at, data, written) => Write(w, handle, at, data, written).0
    case OpRelease(handle) => Release(w, handle)
    case OpCreate(parent, name, attrs) => Create(w, parent, name, now, attrs).0
    case OpMkdir(parent, name, attrs) => Mkdir(w, parent, name, now, attrs).0
    case OpUnlink(parent, name, done) => Unlink(w, parent, name, now, done).0
    case OpRmdir(parent, name, done) => Rmdir(w, parent, name, now, done).0
    case OpRename(parent, name, newParent, newName, done) => Rename(w, parent, name, newParent, newName, now, done).0
    case OpSetattr(node, change, attrs) => Setattr(w, node, change, now, attrs).0
    case OpRestart(mode, readOnly, ttl, chunkSize) =>
      w.(config := Config(w.config.root, readOnly, mode, ttl), cache := w.cache.Reopen(chunkSize),
         session := FreshSession(w.config.root))
  }

  /** The clock advances to the time of the operation, then the operation happens. */
  function Tick(w: World, op: Op, now: Time): World { Next(w.(clock := now), op, now) }

  datatype Timed = Timed(op: Op, now: Time)

  ghost predicate Runs(w: World, ops: seq<Timed>, w': World)
    decreases |ops|
  {
    if ops == [] then w == w'
    else w.clock <= ops[0].now && Runs(Tick(w, ops[0].op, ops[0].now), ops[1..], w')
  }
}
