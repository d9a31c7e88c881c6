/**
 The store under concurrency. A step is one critical section, one remote answer, or one disk operation,
 which is how finely the threads of `Store` interleave: the lock is free between allocating an object id,
 downloading, committing the reference and deleting what was given up. A crash may come between any two steps.
 */
module Machine {
  import opened Base
  import opened Chunks
  import I = CacheIndex

  type Thread = nat

  datatype RemoteFile = RemoteFile(bytes: Bytes, modified: Option<int>)

  function VersionAt(f: RemoteFile): Version { Version(|f.bytes|, f.modified) }

  /** A `fetch_chunk` in progress, up to the moment it takes the lock again. */
  datatype Fetch = Fetch(path: Path, attrs: FileAttributes, chunk: nat, obj: ObjectId, data: Bytes, placed: bool)

  /** A `read_cached_range` in progress, holding its copy of the chunk map. */
  datatype Reader = Reader(
    path: Path, version: Version, chunks: map<nat, ObjectId>, offset: nat, end: nat, next: nat, out: Bytes)

  /** The end of a `fetch_chunk`: the lock is held, the reference is in memory, the index is not yet persisted. */
  datatype Window = Window(before: I.Index, obj: ObjectId, replaced: set<ObjectId>, deleted: set<ObjectId>)

  /** Bookkeeping: which download produced an object. */
  datatype Origin = Origin(path: Path, version: Version, chunkSize: nat, chunk: nat, data: Bytes)

  datatype Sys = Sys(
    chunkSize: nat,
    index: I.Index,
    saved: I.Index,
    disk: map<ObjectId, Bytes>,
    remote: map<Path, RemoteFile>,
    fetches: map<Thread, Fetch>,
    readers: map<Thread, Reader>,
    doomed: set<ObjectId>,
    window: Option<Window>,
    // Bookkeeping only: nothing below is consulted by a step. `stray` are objects on disk that nobody will delete: an
    // earlier session left them, or a commit could not delete them.
    seen: set<(Path, Version)>,
    origin: map<ObjectId, Origin>,
    freed: set<ObjectId>,
    leaked: set<ObjectId>,
    stray: set<ObjectId>)

  datatype Step =
    | Change(p: Path, file: RemoteFile)
    | Vanish(p: Path)
    | PutAttrs(p: Path, attrs: FileAttributes, persisted: bool)
    | RecordListing(p: Path, children: seq<(string, FileAttributes)>, persisted: bool)
    | InvalidateChildren(p: Path, persisted: bool)
    | Remove(p: Path, persisted: bool)
    | InvalidateContent(p: Path, persisted: bool)
    | Rename(p: Path, to: Path, persisted: bool)
    | Delete(o: ObjectId)
    | Begin(t: Thread, p: Path, attrs: FileAttributes, chunk: nat)
    | Receive(t: Thread, n: nat)
    | Abort(t: Thread)
    | Place(t: Thread)
    | Commit(t: Thread)
    | DeleteReplaced(o: ObjectId)
    | FinishCommit(persisted: bool)
    | OpenRange(t: Thread, p: Path, offset: nat, end: nat)
    | ReadNext(t: Thread)
    | CloseRange(t: Thread)
    | Crash(chunkSize: nat)

  function Start(f: Fetch, cs: nat): nat { f.chunk * cs }
  function Length(f: Fetch, cs: nat): nat
    requires Start(f, cs) <= f.attrs.size
  {
    ChunkLength(f.attrs.size, cs, f.chunk)
  }

  /** What the remote can answer to the next read of a download. */
  function Available(f: Fetch, cs: nat, file: RemoteFile): Bytes
    requires Start(f, cs) <= f.attrs.size && |f.data| <= Length(f, cs)
  {
    var at := Start(f, cs) + |f.data|;
    var want := Min(Length(f, cs) - |f.data|, U32_LIMIT - 1);
    if at <= |file.bytes| then file.bytes[at..Min(at + want, |file.bytes|)] else []
  }

  ghost predicate Downloading(s: Sys, t: Thread) {
    && t in s.fetches && !s.fetches[t].placed
    && Start(s.fetches[t], s.chunkSize) <= s.fetches[t].attrs.size
    && |s.fetches[t].data| <= Length(s.fetches[t], s.chunkSize)
  }

  function ReaderLast(r: Reader, cs: nat): nat requires cs > 0 && r.end > 0 { LastChunk(r.end, cs) }

  ghost predicate Reading(s: Sys, t: Thread) {
    && s.chunkSize > 0 && t in s.readers && s.readers[t].offset < s.readers[t].end
    && FirstChunk(s.readers[t].offset, s.chunkSize) <= s.readers[t].next <= ReaderLast(s.readers[t], s.chunkSize)
  }

  /** Sections that need the lock wait for a commit in progress. */
  ghost predicate Enabled(s: Sys, a: Step) {
    match a
    case Change(p, file) => true
    case Vanish(p) => true
    case PutAttrs(_, _, _) => s.window.None?
    case RecordListing(_, _, _) => s.window.None?
    case InvalidateChildren(_, _) => s.window.None?
    case Remove(_, _) => s.window.None?
    case InvalidateContent(_, _) => s.window.None?
    case Rename(_, _, _) => s.window.None?
    case Delete(o) => o in s.doomed
    case Begin(t, p, attrs, chunk) => s.window.None? && t !in s.fetches && chunk * s.chunkSize < attrs.size
    case Receive(t, n) =>
      && Downloading(s, t) && |s.fetches[t].data| < Length(s.fetches[t], s.chunkSize)
      && s.fetches[t].path in s.remote
      && 0 < n <= |Available(s.fetches[t], s.chunkSize, s.remote[s.fetches[t].path])|
    case Abort(t) => t in s.fetches && !s.fetches[t].placed
    // The loop ended: the chunk is full, or the remote answered with no bytes.
    case Place(t) =>
      && Downloading(s, t)
      && (|s.fetches[t].data| == Length(s.fetches[t], s.chunkSize)
          || (s.fetches[t].path in s.remote && Available(s.fetches[t], s.chunkSize, s.remote[s.fetches[t].path]) == []))
    case Commit(t) => s.window.None? && t in s.fetches && s.fetches[t].placed
    case DeleteReplaced(o) => s.window.Some? && o in s.window.value.replaced - s.window.value.deleted
    case FinishCommit(_) => s.window.Some?
    case OpenRange(t, p, offset, end) =>
      && s.window.None? && t !in s.readers && offset < end
      && I.Content(s.index, p).Some? && I.Content(s.index, p).value.chunkSize == s.chunkSize
    // A missing object is an error, after which the reader only closes.
    case ReadNext(t) =>
      && Reading(s, t)
      && s.readers[t].next in s.readers[t].chunks && s.readers[t].chunks[s.readers[t].next] in s.disk
    case CloseRange(t) => t in s.readers
    case Crash(_) => true
  }

  /** Sections that change entries in place and only ever give content up. */
  predicate IsSection(a: Step) {
    a.PutAttrs? || a.RecordListing? || a.InvalidateChildren? || a.Remove? || a.InvalidateContent?
  }

  function Section(ix: I.Index, a: Step): (I.Index, set<ObjectId>)
    requires IsSection(a)
  {
    match a
    case PutAttrs(p, attrs, _) => I.StoreAttrs(ix, p, attrs)
    case RecordListing(p, children, _) => I.RecordListing(ix, p, children)
    case InvalidateChildren(p, _) => (I.InvalidateChildren(ix, p), {})
    case Remove(p, _) => I.Remove(ix, p)
    case InvalidateContent(p, _) => I.InvalidateContent(ix, p)
  }

  /** Whether the section rewrites the index file, and the rewrite succeeds. */
  function Saves(ix: I.Index, a: Step): bool
    requires IsSection(a)
  {
    match a
    case PutAttrs(_, _, persisted) => persisted
    case RecordListing(_, _, persisted) => persisted
    case InvalidateChildren(p, persisted) => persisted && p in ix.listings
    case Remove(p, persisted) => persisted && (p in ix.entries || p in ix.listings)
    case InvalidateContent(p, persisted) => persisted && I.InvalidateContent(ix, p).1 != {}
  }

  /** A section gave up some objects; they are deleted later, without the lock. */
  function Shed(s: Sys, r: (I.Index, set<ObjectId>), saves: bool): Sys {
    s.(index := r.0, saved := if saves then r.0 else s.saved, doomed := s.doomed + r.1, freed := s.freed + r.1)
  }

  /** Objects of a cached rename target; its entry is overwritten and nobody deletes them. */
  function Displaced(ix: I.Index, from: Path, to: Path): set<ObjectId> {
    if from in ix.entries && from != to then I.Held(ix, to) else {}
  }

  function Ids(n: nat): (ids: set<ObjectId>)
    ensures forall o: nat :: o in ids <==> o < n
  {
    if n == 0 then {} else Ids(n - 1) + {n - 1}
  }

  /** `Store::new` after a crash or a shutdown: only the disk is left. */
  function Reload(s: Sys, cs: nat): Sys {
    s.(chunkSize := Max(cs, 1), index := s.saved, fetches := map[], readers := map[], doomed := {}, window := None,
       freed := Ids(s.saved.nextObject) - I.Owned(s.saved), leaked := {}, stray := s.disk.Keys - I.Owned(s.saved))
  }

  /** What the commit in progress replaced and has not deleted. */
  function Undeleted(s: Sys): set<ObjectId> {
    if s.window.Some? then s.window.value.replaced - s.window.value.deleted else {}
  }

  ghost function Apply(s: Sys, a: Step): Sys
    requires Enabled(s, a)
  {
    match a
    case Change(p, file) => s.(remote := s.remote[p := file], seen := s.seen + {(p, VersionAt(file))})
    case Vanish(p) => s.(remote := s.remote - {p})
    case PutAttrs(_, _, _) => Shed(s, Section(s.index, a), Saves(s.index, a))
    case RecordListing(_, _, _) => Shed(s, Section(s.index, a), Saves(s.index, a))
    case InvalidateChildren(_, _) => Shed(s, Section(s.index, a), Saves(s.index, a))
    case Remove(_, _) => Shed(s, Section(s.index, a), Saves(s.index, a))
    case InvalidateContent(_, _) => Shed(s, Section(s.index, a), Saves(s.index, a))
    case Rename(from, to, persisted) =>
      Shed(s, I.Rename(s.index, from, to), persisted).(leaked := s.leaked + Displaced(s.index, from, to))
    case Delete(o) => s.(disk := s.disk - {o})
    case Begin(t, p, attrs, chunk) =>
      s.(index := s.index.(nextObject := s.index.nextObject + 1),
         fetches := s.fetches[t := Fetch(p, attrs, chunk, s.index.nextObject, [], false)])
    case Receive(t, n) =>
      var f := s.fetches[t];
      var got := Available(f, s.chunkSize, s.remote[f.path])[..n];
      s.(fetches := s.fetches[t := f.(data := f.data + got)])
    case Abort(t) => s.(fetches := s.fetches - {t}, freed := s.freed + {s.fetches[t].obj})
    case Place(t) =>
      var f := s.fetches[t];
      s.(disk := s.disk[f.obj := f.data],
         origin := s.origin[f.obj := Origin(f.path, VersionOf(f.attrs), s.chunkSize, f.chunk, f.data)],
         fetches := s.fetches[t := f.(placed := true)], stray := s.stray - {f.obj})
    case Commit(t) =>
      var f := s.fetches[t];
      var r := I.Commit(s.index, f.path, f.attrs, s.chunkSize, f.chunk, f.obj);
      s.(index := r.0, fetches := s.fetches - {t}, freed := s.freed + r.1,
         window := Some(Window(s.index, f.obj, r.1, {})))
    case DeleteReplaced(o) =>
      s.(disk := s.disk - {o}, window := Some(s.window.value.(deleted := s.window.value.deleted + {o})))
    case FinishCommit(persisted) =>
      s.(saved := if persisted then s.index else s.saved, window := None,
         stray := s.stray + Undeleted(s) * s.disk.Keys)
    case OpenRange(t, p, offset, end) =>
      var content := I.Content(s.index, p).value;
      if s.chunkSize == 0 then s
      else s.(readers := s.readers[t := Reader(p, content.version, content.chunks, offset, end,
                                               FirstChunk(offset, s.chunkSize), [])])
    case ReadNext(t) =>
      var r := s.readers[t];
      InRange(r.offset, r.end, s.chunkSize, r.next);
      var piece :=
        Piece(s.disk[r.chunks[r.next]], PieceLow(r.offset, s.chunkSize, r.next), PieceHigh(r.end, s.chunkSize, r.next));
      s.(readers := s.readers[t := r.(next := r.next + 1, out := r.out + piece)])
    case CloseRange(t) => s.(readers := s.readers - {t})
    case Crash(cs) => Reload(s, cs)
  }

  // ---- Runs ------------------------------------------------------------------

  /** What a run is allowed to do besides the steps themselves. */
  datatype Rules = Rules(
    subject: Path,             // the path that the next three rules are about
    versionsNeverRecur: bool,  // it never returns to a version it had before
    ownAttributes: bool,       // its chunks are fetched under attributes the remote reported for it
    nothingMovedOnto: bool,    // no rename carries cached content onto it
    targetsUncached: bool,     // no rename displaces cached content
    persistsSucceed: bool,
    crashesSpareCommits: bool, // no crash after a commit has deleted replaced objects and before it persisted
    slotsFree: bool)           // fetches begin after revalidation and do not race, see `Ready`

  /**
   What a reader that has just revalidated `p` finds: the content of any other version has been dropped, the chunk is
   not cached, and nobody else is fetching it, or another version of the file.
   */
  ghost predicate Ready(s: Sys, p: Path, v: Version, chunk: nat) {
    && I.FreeSlot(s.index, s.chunkSize, p, v, chunk)
    && forall t :: t in s.fetches && s.fetches[t].path == p ==>
         VersionOf(s.fetches[t].attrs) == v && s.fetches[t].chunk != chunk
  }

  /** The rename carries no content onto a path that is being fetched. */
  ghost predicate SparesFetches(s: Sys, from: Path, to: Path) {
    I.Content(s.index, from).Some? && from != to ==> forall t :: t in s.fetches ==> s.fetches[t].path != to
  }

  ghost predicate Allowed(rules: Rules, s: Sys, a: Step) {
    && (rules.versionsNeverRecur && a.Change? && a.p == rules.subject ==> (a.p, VersionAt(a.file)) !in s.seen)
    && (rules.ownAttributes && a.Begin? && a.p == rules.subject ==> (a.p, VersionOf(a.attrs)) in s.seen)
    && (rules.nothingMovedOnto && a.Rename? && a.to == rules.subject && a.p != a.to ==> I.Content(s.index, a.p).None?)
    && (rules.slotsFree && a.Begin? ==> Ready(s, a.p, VersionOf(a.attrs), a.chunk))
    && (rules.slotsFree && a.Rename? ==> SparesFetches(s, a.p, a.to))
    && (rules.targetsUncached && a.Rename? ==> Displaced(s.index, a.p, a.to) == {})
    && (rules.persistsSucceed ==> match a
        case PutAttrs(_, _, ok) => ok
        case RecordListing(_, _, ok) => ok
        case InvalidateChildren(_, ok) => ok
        case Remove(_, ok) => ok
        case InvalidateContent(_, ok) => ok
        case Rename(_, _, ok) => ok
        case FinishCommit(ok) => ok
        case _ => true)
    && (rules.crashesSpareCommits && a.Crash? ==> !MidCommit(s))
  }

  /** A commit has deleted objects it replaced but not yet persisted the index that no longer references them. */
  ghost predicate MidCommit(s: Sys) {
    s.window.Some? && s.window.value.deleted != {}
  }

  ghost predicate Runs(rules: Rules, s: Sys, steps: seq<Step>, s': Sys)
    decreases |steps|
  {
    if steps == [] then s == s'
    else
      && Enabled(s, steps[0])
      && Allowed(rules, s, steps[0])
      && Runs(rules, Apply(s, steps[0]), steps[1..], s')
  }

  /** An empty cache directory in front of some remote. */
  ghost predicate Initial(s: Sys) {
    && s.chunkSize > 0
    && s.index == I.EMPTY && s.saved == I.EMPTY && s.disk == map[]
    && s.fetches == map[] && s.readers == map[] && s.doomed == {} && s.window == None
    && s.origin == map[] && s.freed == {} && s.leaked == {} && s.stray == {}
    && s.seen == set p | p in s.remote :: (p, VersionAt(s.remote[p]))
  }

  ghost predicate Reachable(rules: Rules, s: Sys) {
    exists s0, steps :: Initial(s0) && Runs(rules, s0, steps, s)
  }
}
