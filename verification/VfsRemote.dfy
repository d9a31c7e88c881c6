/** The remote tree that a run talks to, and what it means for its answers to be true. */
module VfsRemote {
  import opened Base
  import opened RemotePaths
  import CM = CacheModel
  import opened VfsModel

  /** What matters of a remote node: for a file, its version and its bytes. */
  datatype Node = FileNode(version: Version, bytes: Bytes) | DirNode

  type Tree = map<Path, Node>

  ghost predicate TreeOk(r: Tree) {
    forall p :: p in r && r[p].FileNode? ==> |r[p].bytes| == r[p].version.size
  }

  predicate Under(dir: Path, p: Path) { p == dir || dir + "/" <= p }

  function Zeros(n: nat): Bytes { seq(n, _ => 0) }

  /** A write at `offset`; a gap before it reads as zeros. */
  function Overwrite(file: Bytes, offset: nat, data: Bytes): Bytes {
    if data == [] then file
    else
      var front := if offset <= |file| then file[..offset] else file + Zeros(offset - |file|);
      front + data + (if offset + |data| <= |file| then file[offset + |data|..] else [])
  }

  /** Truncation or extension to `size`. */
  function Resize(file: Bytes, size: nat): Bytes {
    if size <= |file| then file[..size] else file + Zeros(size - |file|)
  }

  /** The attributes are those of `p`, as far as content is concerned. */
  ghost predicate Describes(r: Tree, p: Path, attrs: FileAttributes) {
    p in r && (r[p].FileNode? ==> VersionOf(attrs) == r[p].version)
  }

  /** The answer to a query is true of the tree. A query that failed says nothing. */
  ghost predicate Truthful(r: Tree, e: Event) {
    match e
    case StatEvent(p, _, _, reply) => reply.Ok? ==> Describes(r, p, reply.value)
    case ReadDirEvent(dir, _, reply) => reply.Ok? ==>
      && dir in r && r[dir].DirNode?
      && var children := RealChildren(reply.value);
        forall i :: 0 <= i < |children| && Join(dir, children[i].0).Ok? ==>
          Describes(r, Join(dir, children[i].0).value, children[i].1)
    case ContentEvent(read) => read.reply.Ok? ==>
      read.path in r && r[read.path].FileNode? && CM.Honest(r[read.path].bytes, read)
    case _ => false
  }

  /** Everything at or under `from` is now at or under `to`. */
  ghost predicate TreeMoved(r: Tree, from: Path, to: Path, r': Tree) {
    && (forall k :: k in r' <==> if Under(to, k) then from + k[|to|..] in r else k in r && !Under(from, k))
    && (forall k :: k in r' ==> r'[k] == if Under(to, k) then r[from + k[|to|..]] else r[k])
  }

  /**
   What a mutation does to the tree. Times, modes and directory attributes are free; a write need not change the
   version. A failed one changes nothing, create is exclusive, and rename does not replace an existing target.
   */
  ghost predicate Changes(r: Tree, e: Event, r': Tree) {
    match e
    case WriteEvent(p, offset, data, written) =>
      if written.Err? then r' == r
      else
        && p in r && r[p].FileNode? && written.value <= |data|
        && p in r' && r'[p].FileNode? && r'[p].bytes == Overwrite(r[p].bytes, offset, data[..written.value])
        && r' == r[p := r'[p]]
    case CreateEvent(p, _, _, reply) =>
      if reply.Err? then r' == r else p !in r && r' == r[p := FileNode(VersionOf(reply.value), [])]
    case MkdirEvent(p, _, _, reply) =>
      if reply.Err? then r' == r else p !in r && r' == r[p := DirNode]
    case SetattrEvent(p, _, change, reply) =>
      if reply.Err? then r' == r
      else
        && p in r
        && (r[p].DirNode? ==> r' == r)
        && (r[p].FileNode? ==>
              r' == r[p := FileNode(VersionOf(reply.value),
                                    if change.size.Some? then Resize(r[p].bytes, change.size.value) else r[p].bytes)])
    case UnlinkEvent(p, _, _, done) =>
      if done.Err? then r' == r else p in r && r[p].FileNode? && r' == r - {p}
    case RmdirEvent(p, _, _, done) =>
      if done.Err? then r' == r
      else p in r && r[p].DirNode? && (forall k :: k in r && Under(p, k) ==> k == p) && r' == r - {p}
    case RenameEvent(from, _, _, to, _, done) =>
      if done.Err? then r' == r
      else
        && from in r && (forall k :: k in r ==> !Under(to, k)) && !Under(from, to)
        && TreeMoved(r, from, to, r')
    case _ => false
  }

  predicate IsQuery(e: Event) { e.StatEvent? || e.ReadDirEvent? || e.ContentEvent? }

  /** The remote answers the calls of one operation and goes from `r` to `r'`; nobody else changes it. */
  ghost predicate Answers(r: Tree, events: seq<Event>, r': Tree) {
    TreeOk(r') &&
    if |events| == 1 && !IsQuery(events[0]) then Changes(r, events[0], r')
    else r' == r && forall e :: e in events ==> Truthful(r, e)
  }

  /** The calls that one operation made. */
  function CallsOf(w: World, w': World): seq<Event> {
    if |w.log| <= |w'.log| then w'.log[|w.log|..] else []
  }

  /** An operation that made no call, or just the call `e`. */
  lemma NoCall(w: World, w': World, r: Tree, r': Tree)
    requires w'.log == w.log && Answers(r, CallsOf(w, w'), r')
    ensures r' == r
  {
  }

  lemma OneCall(w: World, w': World, e: Event, r: Tree, r': Tree)
    requires w'.log == w.log + [e] && Answers(r, CallsOf(w, w'), r')
    ensures CallsOf(w, w') == [e] && TreeOk(r')
    ensures IsQuery(e) ==> r' == r && Truthful(r, e)
    ensures !IsQuery(e) ==> Changes(r, e, r')
  {
    assert CallsOf(w, w') == [e];
    assert e in [e];
  }
}
