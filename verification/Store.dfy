/**
 `Store` itself: an object whose methods update the index in place. Every method is proved against the
 function of `CacheModel` or `CacheIndex` that says what it computes.
 */
module StoreModule {
  import opened Base
  import opened RemotePaths
  import opened Chunks
  import I = CacheIndex
  import opened CacheModel
  import CacheReads

  /** The remote as the store sees it while reading: answers come from a script, calls are recorded. */
  class Peer {
    var script: Script
    var events: seq<ReadEvent>

    constructor (script: Script)
      ensures this.script == script && events == []
    {
      this.script := script;
      events := [];
    }

    method Read(path: Path, offset: nat, want: nat) returns (reply: Result<Bytes>)
      modifies this
      ensures reply == NextReply(old(script)) && script == RestOf(old(script))
      ensures events == old(events) + [ReadEvent(path, offset, want, reply)]
    {
      reply := NextReply(script);
      script := RestOf(script);
      events := events + [ReadEvent(path, offset, want, reply)];
    }
  }

  class Store {
    const chunkSize: Positive
    var nextObject: nat
    var entries: map<Path, I.Entry>
    var listings: map<Path, seq<string>>
    /** `index.json` */
    var saved: I.Index
    /** `objects/` */
    var disk: map<ObjectId, Bytes>

    function Index(): I.Index
      reads this
    {
      I.Index(nextObject, entries, listings)
    }

    function State(): Cache
      reads this
    {
      Cache(chunkSize, Index(), saved, disk)
    }

    /** Open a cache directory. */
    constructor (saved: I.Index, disk: map<ObjectId, Bytes>, chunkSize: nat)
      ensures State() == Cache(Max(chunkSize, 1), saved, saved, disk)
    {
      this.chunkSize := Max(chunkSize, 1);
      nextObject, entries, listings := saved.nextObject, saved.entries, saved.listings;
      this.saved := saved;
      this.disk := disk;
    }

    method Persist()
      modifies this`saved
      ensures saved == Index()
    {
      saved := Index();
    }

    method GetAttrs(path: Path) returns (r: Option<FileAttributes>)
      ensures r == State().Attrs(path)
    {
      r := if path in entries then Some(entries[path].attrs) else None;
    }

    method GetChildren(path: Path) returns (r: Option<seq<string>>)
      ensures r == State().Children(path)
    {
      r := if path in listings then Some(listings[path]) else None;
    }

    /** Delete objects one by one. */
    method RemoveObjects(objects: set<ObjectId>)
      modifies this`disk
      ensures disk == old(disk) - objects
    {
      var left := objects;
      while left != {}
        invariant left <= objects
        invariant disk == old(disk) - (objects - left)
        decreases left
      {
        var o :| o in left;
        disk := disk - {o};
        left := left - {o};
      }
    }

    method StoreAttrs(key: Path, attrs: FileAttributes) returns (orphans: set<ObjectId>)
      modifies this`entries
      ensures (Index(), orphans) == I.StoreAttrs(old(Index()), key, attrs)
    {
      orphans := {};
      if key !in entries {
        entries := entries[key := I.Entry(attrs, None)];
      }
      entries := entries[key := entries[key].(attrs := attrs)];
      var content := entries[key].content;
      if content.Some? && content.value.version != VersionOf(attrs) {
        orphans := I.Objects(content.value);
        entries := entries[key := entries[key].(content := None)];
      }
      assert entries == old(entries)[key := entries[key]];
    }

    method PutAttrs(path: Path, attrs: FileAttributes)
      modifies this
      ensures State() == old(State()).PutAttrs(path, attrs)
    {
      var stale := StoreAttrs(path, attrs);
      Persist();
      RemoveObjects(stale);
    }

    method RecordListing(parent: Path, children: seq<(string, FileAttributes)>)
      modifies this
      ensures State() == old(State()).RecordListing(parent, children)
    {
      var orphans := {};
      for i := 0 to |children|
        invariant saved == old(saved) && disk == old(disk)
        invariant (Index(), orphans) == I.StoreChildren(old(Index()), parent, children[..i])
      {
        assert children[..i + 1][..i] == children[..i];
        var (name, attrs) := children[i];
        var child := Join(parent, name);
        if child.Ok? {
          var more := StoreAttrs(child.value, attrs);
          orphans := orphans + more;
        }
      }
      assert children[..|children|] == children;
      listings := listings[parent := I.Names(children)];
      Persist();
      RemoveObjects(orphans);
    }

    method InvalidateChildren(path: Path)
      modifies this
      ensures State() == old(State()).InvalidateChildren(path)
    {
      if path in listings {
        listings := listings - {path};
        Persist();
        assert disk - {} == disk;
      }
    }

    method Remove(path: Path)
      modifies this
      ensures State() == old(State()).Remove(path)
    {
      var hadListing := path in listings;
      if path in entries {
        var entry := entries[path];
        entries := entries - {path};
        listings := listings - {path};
        Persist();
        if entry.content.Some? {
          RemoveObjects(I.Objects(entry.content.value));
        } else {
          assert disk - {} == disk;
        }
      } else {
        assert entries - {path} == entries;
        listings := listings - {path};
        if hadListing { Persist(); }
        else { assert listings == old(listings); }
        assert disk - {} == disk;
      }
    }

    method Rename(from: Path, to: Path)
      modifies this
      ensures State() == old(State()).Rename(from, to)
    {
      if from in entries {
        var entry := entries[from];
        entries := entries - {from};
        entries := entries[to := entry];
      }
      if from in listings {
        var listing := listings[from];
        listings := listings - {from};
        listings := listings[to := listing];
      }
      ghost var moved := I.Moved(old(Index()), from, to);
      assert Index() == moved;
      var descendants := set k | k in entries && from + "/" <= k;
      var orphans: set<ObjectId> := {};
      var left := descendants;
      EvictNone(moved);
      assert descendants - left == {};
      while left != {}
        invariant left <= descendants
        invariant nextObject == old(nextObject) && saved == old(saved) && disk == old(disk)
        invariant (Index(), orphans) == I.Evict(moved, descendants - left)
        decreases left
      {
        var key :| key in left;
        ghost var gone := descendants - left;
        EvictOne(moved, gone, key);
        assert I.Content(Index(), key) == I.Content(moved, key);
        ghost var orphans0 := orphans;
        if key in entries && entries[key].content.Some? {
          orphans := orphans + I.Objects(entries[key].content.value);
        }
        assert orphans == orphans0 + I.Held(moved, key);
        entries := entries - {key};
        listings := listings - {key};
        left := left - {key};
        assert descendants - left == gone + {key};
      }
      assert descendants - {} == descendants;
      Persist();
      RemoveObjects(orphans);
    }

    method InvalidateContent(path: Path)
      modifies this
      ensures State() == old(State()).InvalidateContent(path)
    {
      var objects := {};
      if path in entries {
        var content := entries[path].content;
        entries := entries[path := entries[path].(content := None)];
        if content.Some? { objects := I.Objects(content.value); }
      }
      if objects != {} { Persist(); }
      RemoveObjects(objects);
      assert objects == {} ==> disk == old(disk) - {};
    }

    method CachedChunk(path: Path, attrs: FileAttributes, chunk: nat) returns (present: bool)
      ensures present == State().Has(path, VersionOf(attrs), chunk)
    {
      var content := if path in entries then entries[path].content else None;
      present := content.Some? && content.value.version == VersionOf(attrs)
              && content.value.chunkSize == chunkSize && chunk in content.value.chunks;
    }

    /** The download loop: ask for what is left until the chunk is full or the remote has no more. */
    method DownloadChunk(path: Path, peer: Peer, start: nat, len: nat) returns (r: Result<Bytes>)
      modifies peer
      ensures var d := Download(path, start, len, [], old(peer.script));
        r == d.outcome && peer.script == d.rest && peer.events == old(peer.events) + d.events
    {
      hide Download;
      var data: Bytes := [];
      ghost var whole := Download(path, start, len, [], peer.script);
      ghost var asked: seq<ReadEvent> := [];
      while |data| < len
        invariant peer.events == old(peer.events) + asked
        invariant var d := Download(path, start, len, data, peer.script);
          whole == d.(events := asked + d.events)
        decreases if |data| < len then len - |data| else 0
      {
        var want := Min(len - |data|, U32_LIMIT - 1);
        DownloadStep(path, start, len, data, peer.script);
        var reply := peer.Read(path, start + |data|, want);
        asked := asked + [ReadEvent(path, start + |data|, want, reply)];
        if reply.Err? {
          return Err(reply.error);
        }
        if reply.value == [] {
          return Ok(data);
        }
        ghost var d' := Download(path, start, len, data + reply.value, peer.script);
        assert asked[..|asked| - 1] + ([asked[|asked| - 1]] + d'.events) == asked + d'.events;
        data := data + reply.value;
      }
      DownloadStep(path, start, len, data, peer.script);
      assert asked + [] == asked;
      return Ok(data);
    }

    method FetchChunk(path: Path, peer: Peer, attrs: FileAttributes, chunk: nat) returns (r: Result<ObjectId>)
      requires chunk * chunkSize <= attrs.size
      modifies this, peer
      ensures var f := old(State()).FetchChunk(path, attrs, chunk, old(peer.script));
        State() == f.cache && r == f.outcome && peer.script == f.rest && peer.events == old(peer.events) + f.events
    {
      var obj := nextObject;
      nextObject := nextObject + 1;
      var data := DownloadChunk(path, peer, chunk * chunkSize, ChunkLength(attrs.size, chunkSize, chunk));
      if data.Err? {
        return Err(data.error);
      }
      disk := disk[obj := data.value];
      Commit(path, attrs, chunk, obj);
      return Ok(obj);
    }

    /** The closing section: the replaced objects go before the index is persisted. */
    method Commit(path: Path, attrs: FileAttributes, chunk: nat, obj: ObjectId)
      modifies this
      ensures State() == old(State()).Settle(I.Commit(old(Index()), path, attrs, chunkSize, chunk, obj))
    {
      if path !in entries {
        entries := entries[path := I.Entry(attrs, None)];
      }
      var replaced := {};
      var content := entries[path].content;
      if content.None? {
        content := Some(I.ContentRef(VersionOf(attrs), chunkSize, map[], None));
      } else if content.value.version != VersionOf(attrs) || content.value.chunkSize != chunkSize {
        replaced := I.Objects(content.value);
        content := Some(I.ContentRef(VersionOf(attrs), chunkSize, map[], None));
      }
      if chunk in content.value.chunks {
        replaced := replaced + {content.value.chunks[chunk]};
      }
      content := Some(content.value.(chunks := content.value.chunks[chunk := obj]));
      entries := entries[path := entries[path].(content := content)];
      assert entries == old(entries)[path := entries[path]];
      RemoveObjects(replaced);
      Persist();
    }

    /**
     `read_object`: a file read may return less than asked, so it is repeated until the buffer is full or the file ends.
     */
    method ReadObject(obj: ObjectId, offset: nat, size: nat) returns (r: Result<Bytes>)
      ensures obj !in disk ==> r == Err(RemoteBackend)
      ensures obj in disk ==> r == Ok(Piece(disk[obj], offset, offset + size))
    {
      if obj !in disk {
        return Err(RemoteBackend);
      }
      var file := disk[obj];
      var buffer: Bytes := [];
      while |buffer| < size
        invariant |buffer| <= size
        invariant Min(offset, |file|) + |buffer| <= |file|
        invariant buffer == file[Min(offset, |file|)..Min(offset, |file|) + |buffer|]
        decreases size - |buffer|
      {
        var at := Min(offset, |file|) + |buffer|;
        var most := Min(size - |buffer|, |file| - at);
        if most == 0 { break; }
        var read: int := *;
        if read <= 0 || read > most { read := most; }
        buffer := buffer + file[at..at + read];
      }
      assert |buffer| == Min(offset + size, |file|) - Min(offset, |file|);
      return Ok(buffer);
    }

    method ReadCachedRange(path: Path, offset: nat, end: nat) returns (r: Result<Bytes>)
      requires offset < end
      ensures r == State().ReadRange(path, offset, end)
    {
      var content := if path in entries then entries[path].content else None;
      if content.None? || content.value.chunkSize != chunkSize {
        return Err(Unavailable);
      }
      var chunks := content.value.chunks;
      var data: Bytes := [];
      var first, last := FirstChunk(offset, chunkSize), LastChunk(end, chunkSize);
      InRange(offset, end, chunkSize, 0);
      ghost var c := State();
      for chunk := first to last + 1
        invariant c.Collect(chunks, offset, end, chunk) == Ok(data)
      {
        InRange(offset, end, chunkSize, chunk);
        if chunk !in chunks {
          CollectStuck(c, chunks, offset, end, chunk, last + 1);
          return Err(Unavailable);
        }
        var low, high := PieceLow(offset, chunkSize, chunk), PieceHigh(end, chunkSize, chunk);
        var piece := ReadObject(chunks[chunk], low, high - low);
        if piece.Err? {
          CollectStuck(c, chunks, offset, end, chunk, last + 1);
          return Err(piece.error);
        }
        data := data + piece.value;
      }
      return Ok(data);
    }

    /** The loop of `read` that fetches what is missing. */
    method HydrateRange(path: Path, peer: Peer, attrs: FileAttributes, first: nat, last: nat)
      returns (failure: Option<Error>)
      requires first <= last && last * chunkSize <= attrs.size
      modifies this, peer
      ensures var h := old(State()).Hydrate(path, attrs, first, last, old(peer.script));
        State() == h.cache && failure == h.failure && peer.script == h.rest
          && peer.events == old(peer.events) + h.events
    {
      hide Cache.Hydrate, Cache.FetchChunk, Cache.Has;
      ghost var whole := State().Hydrate(path, attrs, first, last, peer.script);
      ghost var asked: seq<ReadEvent> := [];
      var chunk := first;
      while chunk <= last
        invariant first <= chunk <= last + 1
        invariant peer.events == old(peer.events) + asked
        invariant var h := State().Hydrate(path, attrs, chunk, last, peer.script);
          whole == h.(events := asked + h.events)
        decreases last + 1 - chunk
      {
        CacheReads.HydrateSkips(State(), path, attrs, chunk, last, peer.script);
        var present := CachedChunk(path, attrs, chunk);
        if !present {
          CacheReads.HydrateFetches(State(), path, attrs, chunk, last, peer.script);
          ghost var f := State().FetchChunk(path, attrs, chunk, peer.script);
          ghost var asked0 := asked;
          var fetched := FetchChunk(path, peer, attrs, chunk);
          asked := asked + f.events;
          assert peer.events == old(peer.events) + asked;
          if fetched.Err? {
            return Some(fetched.error);
          }
          ghost var h' := f.cache.Hydrate(path, attrs, chunk + 1, last, f.rest);
          assert asked0 + (f.events + h'.events) == asked + h'.events;
        }
        chunk := chunk + 1;
      }
      CacheReads.HydrateSkips(State(), path, attrs, chunk, last, peer.script);
      assert asked + [] == asked;
      return None;
    }

    method Read(path: Path, peer: Peer, attrs: FileAttributes, offset: U64, size: U32) returns (r: Result<Bytes>)
      modifies this, peer
      ensures var s := old(State()).Read(path, attrs, offset, size, old(peer.script));
        State() == s.cache && r == s.outcome && peer.script == s.rest && peer.events == old(peer.events) + s.events
    {
      hide Cache.Hydrate;
      if size == 0 || offset >= attrs.size {
        return Ok([]);
      }
      var end := ReadEnd(offset, size, attrs.size);
      var first, last := FirstChunk(offset, chunkSize), LastChunk(end, chunkSize);
      InRange(offset, end, chunkSize, last);
      var failure := HydrateRange(path, peer, attrs, first, last);
      if failure.Some? {
        return Err(failure.value);
      }
      r := ReadCachedRange(path, offset, end);
    }

    method ReadCached(path: Path, offset: U64, size: U32) returns (r: Result<Bytes>)
      ensures r == State().ReadCached(path, offset, size)
    {
      var content := if path in entries then entries[path].content else None;
      if content.None? || content.value.chunkSize != chunkSize {
        return Err(Unavailable);
      }
      var fileSize := content.value.version.size;
      if size == 0 || offset >= fileSize {
        return Ok([]);
      }
      r := ReadCachedRange(path, offset, ReadEnd(offset, size, fileSize));
    }
  }

  lemma EvictNone(ix: I.Index)
    ensures I.Evict(ix, {}) == (ix, {})
  {
    assert ix.entries - {} == ix.entries && ix.listings - {} == ix.listings;
    assert I.Evict(ix, {}).1 == {};
  }

  /** Evicting one more key. */
  lemma EvictOne(ix: I.Index, keys: set<Path>, key: Path)
    ensures I.Evict(ix, keys + {key}).0.entries == I.Evict(ix, keys).0.entries - {key}
    ensures I.Evict(ix, keys + {key}).0.listings == I.Evict(ix, keys).0.listings - {key}
    ensures I.Evict(ix, keys + {key}).1 == I.Evict(ix, keys).1 + I.Held(ix, key)
  {
  }

  /** Once a chunk cannot be read, collecting further chunks only repeats the error. */
  lemma {:induction false} CollectStuck(c: Cache, chunks: map<nat, ObjectId>, offset: nat, end: nat, k: nat, upto: nat)
    requires offset < end
    requires FirstChunk(offset, c.chunkSize) <= k < upto <= LastChunk(end, c.chunkSize) + 1
    requires c.Collect(chunks, offset, end, k).Ok?
    requires k !in chunks || chunks[k] !in c.disk
    ensures c.Collect(chunks, offset, end, upto) == Err(if k !in chunks then Unavailable else RemoteBackend)
    decreases upto
  {
    if upto > k + 1 { CollectStuck(c, chunks, offset, end, k, upto - 1); }
  }
}
