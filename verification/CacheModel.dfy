/**
 What the operations of `Store` compute, as functions of the index in memory, the index on disk and
 the content objects on disk. The remote's answers to content reads are a script, consumed in order.
 */
module CacheModel {
  import opened Base
  import opened Chunks
  import I = CacheIndex
  import opened CacheIndex

  /** One `remote.read` call and its answer. */
  datatype ReadEvent = ReadEvent(path: Path, offset: nat, want: nat, reply: Result<Bytes>)

  type Script = seq<Result<Bytes>>

  datatype Downloaded = Downloaded(outcome: Result<Bytes>, events: seq<ReadEvent>, rest: Script)
  datatype Fetched = Fetched(cache: Cache, outcome: Result<ObjectId>, events: seq<ReadEvent>, rest: Script)
  datatype Hydrated = Hydrated(cache: Cache, failure: Option<Error>, events: seq<ReadEvent>, rest: Script)
  datatype Served = Served(cache: Cache, outcome: Result<Bytes>, events: seq<ReadEvent>, rest: Script)

  /** The answer to the next call; a script that has run out means the remote is gone. */
  function NextReply(script: Script): Result<Bytes> { if script == [] then Err(Unavailable) else script[0] }
  function RestOf(script: Script): Script { if script == [] then [] else script[1..] }

  /** The download loop of `fetch_chunk`, with `data` already received. */
  function Download(path: Path, start: nat, len: nat, data: Bytes, script: Script): Downloaded
    decreases if |data| < len then len - |data| else 0
  {
    if |data| >= len then Downloaded(Ok(data), [], script)
    else
      var reply := NextReply(script);
      var event := ReadEvent(path, start + |data|, Min(len - |data|, U32_LIMIT - 1), reply);
      if reply.Err? then Downloaded(Err(reply.error), [event], RestOf(script))
      else if reply.value == [] then Downloaded(Ok(data), [event], RestOf(script))
      else
        var d := Download(path, start, len, data + reply.value, RestOf(script));
        d.(events := [event] + d.events)
  }

  /** One turn of the download loop. */
  lemma DownloadStep(path: Path, start: nat, len: nat, data: Bytes, script: Script)
    ensures |data| >= len ==> Download(path, start, len, data, script) == Downloaded(Ok(data), [], script)
    ensures |data| < len ==>
      var reply, d := NextReply(script), Download(path, start, len, data, script);
      var event := ReadEvent(path, start + |data|, Min(len - |data|, U32_LIMIT - 1), reply);
      if reply.Err? then d == Downloaded(Err(reply.error), [event], RestOf(script))
      else if reply.value == [] then d == Downloaded(Ok(data), [event], RestOf(script))
      else
        var d' := Download(path, start, len, data + reply.value, RestOf(script));
        d == d'.(events := [event] + d'.events)
  {
  }

  datatype Cache = Cache(chunkSize: Positive, index: Index, saved: Index, disk: map<ObjectId, Bytes>) {

    /** Adopt a new index, persist it, then delete what it gave up. */
    function Settle(r: (Index, set<ObjectId>)): Cache {
      this.(index := r.0, saved := r.0, disk := disk - r.1)
    }

    function PutAttrs(p: Path, attrs: FileAttributes): Cache {
      Settle(StoreAttrs(index, p, attrs))
    }

    function RecordListing(parent: Path, children: seq<(string, FileAttributes)>): Cache {
      Settle(I.RecordListing(index, parent, children))
    }

    function InvalidateChildren(p: Path): Cache {
      if p in index.listings then Settle((I.InvalidateChildren(index, p), {})) else this
    }

    function Remove(p: Path): Cache {
      if p in index.entries || p in index.listings then Settle(I.Remove(index, p)) else this
    }

    function InvalidateContent(p: Path): Cache {
      var r := I.InvalidateContent(index, p);
      if r.1 != {} then Settle(r) else this.(index := r.0)
    }

    function Rename(from: Path, to: Path): Cache {
      Settle(I.Rename(index, from, to))
    }

    /** `get_attrs` */
    function Attrs(p: Path): Option<FileAttributes> {
      if p in index.entries then Some(index.entries[p].attrs) else None
    }

    /** `get_children` */
    function Children(p: Path): Option<seq<string>> {
      if p in index.listings then Some(index.listings[p]) else None
    }

    /** `cached_chunk(..).is_some()` */
    predicate Has(p: Path, v: Version, chunk: nat) {
      var content := Content(index, p);
      content.Some? && content.value.version == v && content.value.chunkSize == chunkSize
        && chunk in content.value.chunks
    }

    /** `fetch_chunk` */
    function FetchChunk(p: Path, attrs: FileAttributes, chunk: nat, script: Script): Fetched
      requires chunk * chunkSize <= attrs.size
    {
      var obj := index.nextObject;
      var bumped := index.(nextObject := obj + 1);
      var d := Download(p, chunk * chunkSize, ChunkLength(attrs.size, chunkSize, chunk), [], script);
      if d.outcome.Err? then Fetched(this.(index := bumped), Err(d.outcome.error), d.events, d.rest)
      else Fetched(Record(p, attrs, chunk, d.outcome.value), Ok(obj), d.events, d.rest)
    }

    /** A finished download becomes the next object, and its reference is committed. */
    function Record(p: Path, attrs: FileAttributes, chunk: nat, data: Bytes): Cache {
      var obj := index.nextObject;
      var bumped := index.(nextObject := obj + 1);
      this.(disk := disk[obj := data]).Settle(Commit(bumped, p, attrs, chunkSize, chunk, obj))
    }

    /** The hydration loop of `read`, from chunk `c` on. */
    function Hydrate(p: Path, attrs: FileAttributes, c: nat, last: nat, script: Script): Hydrated
      requires c <= last ==> last * chunkSize <= attrs.size
      decreases last + 1 - c
    {
      if c > last then Hydrated(this, None, [], script)
      else if Has(p, VersionOf(attrs), c) then Hydrate(p, attrs, c + 1, last, script)
      else
        MulMonotone(c, last, chunkSize);
        var f := FetchChunk(p, attrs, c, script);
        if f.outcome.Err? then Hydrated(f.cache, Some(f.outcome.error), f.events, f.rest)
        else
          var h := f.cache.Hydrate(p, attrs, c + 1, last, f.rest);
          h.(events := f.events + h.events)
    }

    /** The loop of `read_cached_range` over the chunk map it copied. */
    function Collect(chunks: map<nat, ObjectId>, offset: nat, end: nat, upto: nat): Result<Bytes>
      requires offset < end
      requires FirstChunk(offset, chunkSize) <= upto <= LastChunk(end, chunkSize) + 1
    {
      if upto == FirstChunk(offset, chunkSize) then Ok([])
      else
        var front := Collect(chunks, offset, end, upto - 1);
        if front.Err? then front
        else if upto - 1 !in chunks then Err(Unavailable)
        else if chunks[upto - 1] !in disk then Err(RemoteBackend)
        else
          InRange(offset, end, chunkSize, upto - 1);
          Ok(front.value + Piece(disk[chunks[upto - 1]],
                                 PieceLow(offset, chunkSize, upto - 1), PieceHigh(end, chunkSize, upto - 1)))
    }

    /** `read_cached_range` */
    function ReadRange(p: Path, offset: nat, end: nat): Result<Bytes>
      requires offset < end
    {
      var content := Content(index, p);
      if content.None? || content.value.chunkSize != chunkSize then Err(Unavailable)
      else
        InRange(offset, end, chunkSize, 0);
        Collect(content.value.chunks, offset, end, LastChunk(end, chunkSize) + 1)
    }

    /** `read` */
    function Read(p: Path, attrs: FileAttributes, offset: U64, size: U32, script: Script): Served
    {
      if size == 0 || offset >= attrs.size then Served(this, Ok([]), [], script)
      else
        var end := ReadEnd(offset, size, attrs.size);
        InRange(offset, end, chunkSize, LastChunk(end, chunkSize));
        var h := Hydrate(p, attrs, FirstChunk(offset, chunkSize), LastChunk(end, chunkSize), script);
        if h.failure.Some? then Served(h.cache, Err(h.failure.value), h.events, h.rest)
        else
          HydrateKeepsSize(p, attrs, FirstChunk(offset, chunkSize), LastChunk(end, chunkSize), script);
          Served(h.cache, h.cache.ReadRange(p, offset, end), h.events, h.rest)
    }

    /** `read_cached` */
    function ReadCached(p: Path, offset: U64, size: U32): Result<Bytes>
    {
      var content := Content(index, p);
      if content.None? || content.value.chunkSize != chunkSize then Err(Unavailable)
      else
        var fileSize := content.value.version.size;
        if size == 0 || offset >= fileSize then Ok([])
        else ReadRange(p, offset, ReadEnd(offset, size, fileSize))
    }

    /** A new process opens the same directory: only what was persisted is left. */
    function Reopen(cs: nat): Cache {
      Cache(Max(cs, 1), saved, saved, disk)
    }

    lemma {:induction false} HydrateKeepsSize(p: Path, attrs: FileAttributes, c: nat, last: nat, script: Script)
      requires c <= last ==> last * chunkSize <= attrs.size
      ensures Hydrate(p, attrs, c, last, script).cache.chunkSize == chunkSize
      decreases last + 1 - c
    {
      if c <= last {
        if Has(p, VersionOf(attrs), c) {
          HydrateKeepsSize(p, attrs, c + 1, last, script);
        } else {
          MulMonotone(c, last, chunkSize);
          var f := FetchChunk(p, attrs, c, script);
          if f.outcome.Ok? { f.cache.HydrateKeepsSize(p, attrs, c + 1, last, f.rest); }
        }
      }
    }
  }

  // ---- Soundness of the disk -------------------------------------------------

  /** Everything an index references is on disk, referenced once, and below its allocator. */
  ghost predicate Sound(ix: Index, disk: map<ObjectId, Bytes>) {
    && NoSharing(ix)
    && (forall o :: o in Owned(ix) ==> o < ix.nextObject && o in disk)
  }

  ghost predicate CacheOk(c: Cache) {
    && Sound(c.index, c.disk)
    && Sound(c.saved, c.disk)
    && c.saved.nextObject <= c.index.nextObject
  }

  /** Objects that survive a step keep their bytes. */
  ghost predicate KeepsBytes(c: Cache, c': Cache) {
    forall o :: o in c.disk && o in c'.disk && o < c.index.nextObject ==> c'.disk[o] == c.disk[o]
  }

  lemma SettleOk(c: Cache, ix': Index, orphans: set<ObjectId>)
    requires CacheOk(c) && Sheds(c.index, ix', orphans)
    ensures CacheOk(c.Settle((ix', orphans))) && KeepsBytes(c, c.Settle((ix', orphans)))
  {
    ShedsOwned(c.index, ix', orphans);
  }

  lemma PutAttrsOk(c: Cache, p: Path, attrs: FileAttributes)
    requires CacheOk(c)
    ensures CacheOk(c.PutAttrs(p, attrs))
  {
    StoreAttrsSheds(c.index, p, attrs);
    var r := StoreAttrs(c.index, p, attrs);
    SettleOk(c, r.0, r.1);
  }

  lemma RecordListingOk(c: Cache, parent: Path, children: seq<(string, FileAttributes)>)
    requires CacheOk(c)
    ensures CacheOk(c.RecordListing(parent, children))
  {
    RecordListingSheds(c.index, parent, children);
    var r := I.RecordListing(c.index, parent, children);
    SettleOk(c, r.0, r.1);
  }

  lemma InvalidateChildrenOk(c: Cache, p: Path)
    requires CacheOk(c)
    ensures CacheOk(c.InvalidateChildren(p))
  {
    var ix' := I.InvalidateChildren(c.index, p);
    assert forall q :: Content(ix', q) == Content(c.index, q);
    SettleOk(c, ix', {});
  }

  lemma RemoveOk(c: Cache, p: Path)
    requires CacheOk(c)
    ensures CacheOk(c.Remove(p))
  {
    RemoveSheds(c.index, p);
    var r := I.Remove(c.index, p);
    SettleOk(c, r.0, r.1);
  }

  lemma InvalidateContentOk(c: Cache, p: Path)
    requires CacheOk(c)
    ensures CacheOk(c.InvalidateContent(p))
  {
    InvalidateContentSheds(c.index, p);
    var r := I.InvalidateContent(c.index, p);
    SettleOk(c, r.0, r.1);
    ShedsOwned(c.index, r.0, r.1);
  }

  lemma RenameOk(c: Cache, from: Path, to: Path)
    requires CacheOk(c)
    ensures CacheOk(c.Rename(from, to))
  {
    var moved := Moved(c.index, from, to);
    var keys := Descendants(moved, from);
    MovedOwned(c.index, from, to);
    EvictSheds(moved, keys);
    ShedsOwned(moved, Evict(moved, keys).0, Evict(moved, keys).1);
  }

  lemma RecordOk(c: Cache, p: Path, attrs: FileAttributes, chunk: nat, data: Bytes)
    requires CacheOk(c)
    ensures CacheOk(c.Record(p, attrs, chunk, data)) && KeepsBytes(c, c.Record(p, attrs, chunk, data))
  {
    var obj := c.index.nextObject;
    var bumped := c.index.(nextObject := obj + 1);
    SameContents(c.index, bumped);
    CommitOwned(bumped, p, attrs, c.chunkSize, chunk, obj);
    var (ix', replaced) := Commit(bumped, p, attrs, c.chunkSize, chunk, obj);
    SoundAfterCommit(c.index, ix', c.disk, c.disk[obj := data] - replaced, obj, replaced);
  }

  lemma SoundAfterCommit(ix: Index, ix': Index, disk: map<ObjectId, Bytes>, disk': map<ObjectId, Bytes>,
                         obj: ObjectId, replaced: set<ObjectId>)
    requires Sound(ix, disk) && NoSharing(ix')
    requires obj == ix.nextObject && ix'.nextObject == obj + 1
    requires Owned(ix') == Owned(ix) - replaced + {obj} && replaced <= Owned(ix)
    requires disk'.Keys == disk.Keys + {obj} - replaced
    ensures Sound(ix', disk')
  {
  }

  lemma FetchChunkOk(c: Cache, p: Path, attrs: FileAttributes, chunk: nat, script: Script)
    requires CacheOk(c) && chunk * c.chunkSize <= attrs.size
    ensures var c' := c.FetchChunk(p, attrs, chunk, script).cache; CacheOk(c') && KeepsBytes(c, c')
  {
    var f := c.FetchChunk(p, attrs, chunk, script);
    SameContents(c.index, c.index.(nextObject := c.index.nextObject + 1));
    if f.outcome.Ok? {
      var d := Download(p, chunk * c.chunkSize, ChunkLength(attrs.size, c.chunkSize, chunk), [], script);
      RecordOk(c, p, attrs, chunk, d.outcome.value);
    }
  }

  lemma SameContents(ix: Index, ix': Index)
    requires ix'.entries == ix.entries
    ensures forall p :: Content(ix', p) == Content(ix, p) && Held(ix', p) == Held(ix, p)
    ensures Owned(ix') == Owned(ix)
    ensures NoSharing(ix) ==> NoSharing(ix')
  {
    assert forall p :: Content(ix', p) == Content(ix, p) && Held(ix', p) == Held(ix, p);
  }

  // ---- Downloads -------------------------------------------------------------

  /** The remote answers a read of `file` with a prefix of the requested slice, empty only at the end of the file. */
  ghost predicate Honest(file: Bytes, e: ReadEvent) {
    e.reply.Ok? ==>
      var asked := if e.offset <= |file| then file[e.offset..Min(e.offset + e.want, |file|)] else [];
      e.reply.value <= asked && (asked != [] ==> e.reply.value != [])
  }

  ghost predicate AllHonest(file: Bytes, events: seq<ReadEvent>) {
    forall e :: e in events ==> Honest(file, e)
  }

  /** A download that ends well holds the whole slice, however short the individual answers were. */
  lemma {:induction false} DownloadExact(p: Path, start: nat, len: nat, data: Bytes, script: Script, file: Bytes)
    requires start + len <= |file| && |data| <= len && data == file[start..start + |data|]
    requires AllHonest(file, Download(p, start, len, data, script).events)
    ensures Download(p, start, len, data, script).outcome.Ok? ==>
      Download(p, start, len, data, script).outcome.value == file[start..start + len]
    decreases len - |data|
  {
    hide Download;
    DownloadStep(p, start, len, data, script);
    var d := Download(p, start, len, data, script);
    if |data| < len {
      assert d.events[0] in d.events && Honest(file, d.events[0]);
      var reply := NextReply(script);
      if reply.Ok? {
        var from := start + |data|;
        assert reply.value <= file[from..from + d.events[0].want] && reply.value != [];
        Extends(file, start, data, d.events[0].want, reply.value);
        var d' := Download(p, start, len, data + reply.value, RestOf(script));
        assert forall e :: e in d'.events ==> e in d.events;
        DownloadExact(p, start, len, data + reply.value, RestOf(script), file);
      }
    }
  }

  /** Appending a prefix of what comes next. */
  lemma Extends(file: Bytes, start: nat, data: Bytes, want: nat, more: Bytes)
    requires start + |data| + want <= |file| && data == file[start..start + |data|]
    requires more <= file[start + |data|..start + |data| + want]
    ensures data + more == file[start..start + |data + more|]
  {
  }

  /** A download asks only for bytes of its own slice, starting at its beginning. */
  lemma {:induction false} DownloadEvents(p: Path, start: nat, len: nat, data: Bytes, script: Script)
    ensures forall e :: e in Download(p, start, len, data, script).events ==>
      e.path == p && start + |data| <= e.offset && e.offset + e.want <= start + len && 0 < e.want < U32_LIMIT
    ensures |data| < len ==> Download(p, start, len, data, script).events != []
    decreases if |data| < len then len - |data| else 0
  {
    if |data| < len {
      var reply := NextReply(script);
      if reply.Ok? && reply.value != [] {
        DownloadEvents(p, start, len, data + reply.value, RestOf(script));
      }
    }
  }
}
