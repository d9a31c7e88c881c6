/** Concurrent readers, the home of content, and the index on disk: the remaining invariants of the machine. */
module MachineReaders {
  import opened Base
  import opened Chunks
  import I = CacheIndex
  import opened Machine
  import opened MachineInvariants

  // ---- Content stays at the path it was downloaded from -----------------------

  ghost predicate HomeContent(p: Path, chunks: map<nat, ObjectId>, origin: map<ObjectId, Origin>) {
    forall k :: k in chunks ==> chunks[k] in origin && origin[chunks[k]].path == p
  }

  ghost predicate Home(ix: I.Index, p: Path, origin: map<ObjectId, Origin>) {
    I.Content(ix, p).Some? ==> HomeContent(p, I.Content(ix, p).value.chunks, origin)
  }

  /** What is cached or being read at `p` was downloaded from `p`. */
  ghost predicate AtHome(s: Sys, p: Path) {
    && Home(s.index, p, s.origin)
    && Home(s.saved, p, s.origin)
    && (forall t :: t in s.readers && s.readers[t].path == p ==> HomeContent(p, s.readers[t].chunks, s.origin))
  }

  /** The path keeps its content or loses it. */
  ghost predicate InPlace(ix: I.Index, ix': I.Index, p: Path) {
    I.Content(ix', p).Some? ==> I.Content(ix', p) == I.Content(ix, p)
  }

  lemma RenameInPlace(ix: I.Index, from: Path, to: Path, p: Path)
    requires p == to && from != to ==> I.Content(ix, from).None?
    ensures InPlace(ix, I.Rename(ix, from, to).0, p)
  {
  }

  lemma HomeFramed(ix: I.Index, p: Path, origin: map<ObjectId, Origin>, o: ObjectId, g: Origin)
    requires Home(ix, p, origin) && o !in I.Owned(ix)
    ensures Home(ix, p, origin[o := g])
  {
    forall k | I.Content(ix, p).Some? && k in I.Content(ix, p).value.chunks
      ensures I.Content(ix, p).value.chunks[k] != o
    {
      SlotOwned(ix, p, k);
    }
  }

  lemma CommitHome(ix: I.Index, p: Path, f: Fetch, cs: nat, origin: map<ObjectId, Origin>)
    requires Home(ix, p, origin) && f.obj in origin && origin[f.obj].path == f.path
    ensures Home(I.Commit(ix, f.path, f.attrs, cs, f.chunk, f.obj).0, p, origin)
  {
    var ix' := I.Commit(ix, f.path, f.attrs, cs, f.chunk, f.obj).0;
    if p != f.path { assert I.Content(ix', p) == I.Content(ix, p); }
  }

  lemma PlaceAtHome(s: Sys, a: Step, p: Path)
    requires Ownership(s) && SavedLags(s) && Readers(s) && AtHome(s, p) && Enabled(s, a) && a.Place?
    ensures AtHome(Apply(s, a), p)
  {
    hide I.Owned, I.NoSharing, Length, Start, Available, Gathered, FirstChunk, LastChunk, Piece;
    var s', f := Apply(s, a), s.fetches[a.t];
    assert f.obj in Flying(s);
    var g := Origin(f.path, VersionOf(f.attrs), s.chunkSize, f.chunk, f.data);
    HomeFramed(s.index, p, s.origin, f.obj, g);
    HomeFramed(s.saved, p, s.origin, f.obj, g);
    forall t | t in s.readers && s.readers[t].path == p ensures HomeContent(p, s.readers[t].chunks, s'.origin) {
      assert ReaderOk(s, s.readers[t]);
    }
  }

  lemma AtHomeStep(s: Sys, a: Step, p: Path)
    requires Ownership(s) && SavedLags(s) && Provenance(s) && Readers(s) && AtHome(s, p) && Enabled(s, a)
    requires a.Rename? && a.to == p && a.p != a.to ==> I.Content(s.index, a.p).None?
    ensures AtHome(Apply(s, a), p)
  {
    var s' := Apply(s, a);
    if IsSection(a) {
      hide I.Owned, I.NoSharing, HomeContent;
      SectionSheds(s.index, a);
      assert InPlace(s.index, s'.index, p);
    } else if a.Rename? {
      RenameInPlace(s.index, a.p, a.to, p);
      hide I.Owned, I.NoSharing, HomeContent, I.Rename;
    } else if a.Commit? {
      hide I.Owned, I.NoSharing, HomeContent, I.Commit;
      CommitHome(s.index, p, s.fetches[a.t], s.chunkSize, s.origin);
    } else if a.Place? {
      hide *;
      PlaceAtHome(s, a, p);
    } else if a.Begin? {
      hide I.Owned, I.NoSharing, HomeContent;
      SameEntries(s.index, s'.index);
    } else {
      hide I.Owned, I.NoSharing, HomeContent;
    }
  }

  // ---- Readers ---------------------------------------------------------------

  /** The bytes of the objects a reader refers to, by chunk. */
  function DataOf(chunks: map<nat, ObjectId>, origin: map<ObjectId, Origin>): map<nat, Bytes> {
    map k | k in chunks && chunks[k] in origin :: origin[chunks[k]].data
  }

  /** All objects of the copied chunk map were recorded under one version, and nobody will rewrite them. */
  ghost predicate ReaderLabels(s: Sys, r: Reader) {
    forall k :: k in r.chunks ==>
      && r.chunks[k] in s.origin
      && s.origin[r.chunks[k]].version == r.version
      && s.origin[r.chunks[k]].chunkSize == s.chunkSize
      && s.origin[r.chunks[k]].chunk == k
      && r.chunks[k] < s.index.nextObject
      && r.chunks[k] !in Flying(s)
  }

  ghost predicate ReaderOk(s: Sys, r: Reader) {
    && s.chunkSize > 0 && r.offset < r.end
    && ReaderLabels(s, r)
    && FirstChunk(r.offset, s.chunkSize) <= r.next <= ReaderLast(r, s.chunkSize) + 1
    && (forall k :: FirstChunk(r.offset, s.chunkSize) <= k < r.next ==> k in r.chunks)
    && r.out == Gathered(DataOf(r.chunks, s.origin), s.chunkSize, r.offset, r.end, FirstChunk(r.offset, s.chunkSize),
                         r.next)
  }

  ghost predicate Readers(s: Sys) {
    forall t :: t in s.readers ==> ReaderOk(s, s.readers[t])
  }

  /** A reader does not notice steps that leave its objects alone. */
  lemma ReaderFramed(s: Sys, s': Sys, r: Reader)
    requires ReaderOk(s, r) && s'.chunkSize == s.chunkSize && s.index.nextObject <= s'.index.nextObject
    requires forall o :: o in s.origin && o !in Flying(s) ==> o in s'.origin && s'.origin[o] == s.origin[o]
    requires forall o :: o in Flying(s') ==> o in Flying(s) || o >= s.index.nextObject
    ensures ReaderOk(s', r)
  {
    hide Gathered, Flying;
    assert ReaderLabels(s', r);
    assert DataOf(r.chunks, s'.origin) == DataOf(r.chunks, s.origin);
  }

  lemma OpenReader(s: Sys, a: Step)
    requires Ownership(s) && Provenance(s) && Enabled(s, a) && a.OpenRange?
    ensures ReaderOk(Apply(s, a), Apply(s, a).readers[a.t])
  {
    var content := I.Content(s.index, a.p).value;
    InRange(a.offset, a.end, s.chunkSize, 0);
    forall k | k in content.chunks
      ensures content.chunks[k] < s.index.nextObject && content.chunks[k] !in Flying(s)
    {
      SlotOwned(s.index, a.p, k);
      assert content.chunks[k] in Ids(s.index.nextObject);
    }
    assert LabelledContent(content, s.origin);
    hide I.Owned, I.NoSharing;
    assert ReaderLabels(Apply(s, a), Apply(s, a).readers[a.t]);
  }

  /** Reading one more chunk extends what was gathered by that chunk's piece. */
  lemma GatheredNext(objects: map<nat, Bytes>, cs: nat, offset: nat, end: nat, next: nat)
    requires cs > 0 && offset < end
    requires FirstChunk(offset, cs) <= next <= LastChunk(end, cs)
    requires forall c :: FirstChunk(offset, cs) <= c < next + 1 ==> c in objects
    ensures 0 <= PieceLow(offset, cs, next) <= PieceHigh(end, cs, next)
    ensures Gathered(objects, cs, offset, end, FirstChunk(offset, cs), next + 1)
      == Gathered(objects, cs, offset, end, FirstChunk(offset, cs), next)
       + Piece(objects[next], PieceLow(offset, cs, next), PieceHigh(end, cs, next))
  {
    InRange(offset, end, cs, next);
  }

  lemma NextReader(s: Sys, a: Step)
    requires Provenance(s) && Readers(s) && Enabled(s, a) && a.ReadNext?
    ensures ReaderOk(Apply(s, a), Apply(s, a).readers[a.t])
  {
    hide I.Owned, I.NoSharing, I.Content, Labelled, Gathered, Piece, PieceLow, PieceHigh, FirstChunk, LastChunk;
    var s', r := Apply(s, a), s.readers[a.t];
    assert ReaderOk(s, r);
    var data := DataOf(r.chunks, s.origin);
    assert s.disk[r.chunks[r.next]] == data[r.next];
    GatheredNext(data, s.chunkSize, r.offset, r.end, r.next);
    assert ReaderLabels(s', s'.readers[a.t]);
  }

  lemma ReadersStep(s: Sys, a: Step)
    requires Ownership(s) && SavedLags(s) && Provenance(s) && Readers(s) && Enabled(s, a)
    ensures Readers(Apply(s, a))
  {
    if !a.Crash? {
      if a.OpenRange? { OpenReader(s, a); }
      if a.ReadNext? { NextReader(s, a); }
      FlyingGrows(s, a);
      ReadersKept(s, Apply(s, a), a);
    }
  }

  /** Every reader of the next state is an old one, or the one the step touched. */
  /** A step leaves the readers of all other threads as they are. */
  lemma ReadersSame(s: Sys, a: Step)
    requires Enabled(s, a)
    ensures forall t :: t in Apply(s, a).readers && !((a.OpenRange? || a.ReadNext?) && t == a.t) ==>
      t in s.readers && Apply(s, a).readers[t] == s.readers[t]
  {
    hide Section, Saves, I.Rename, I.Commit, Displaced, I.Content, Available, Piece, PieceLow, PieceHigh, FirstChunk,
      LastChunk;
  }

  lemma ReadersKept(s: Sys, s': Sys, a: Step)
    requires Enabled(s, a) && s' == Apply(s, a) && !a.Crash? && Readers(s)
    requires (a.OpenRange? || a.ReadNext?) ==> a.t in s'.readers && ReaderOk(s', s'.readers[a.t])
    requires s'.chunkSize == s.chunkSize && s.index.nextObject <= s'.index.nextObject
    requires forall o :: o in s.origin && o !in Flying(s) ==> o in s'.origin && s'.origin[o] == s.origin[o]
    requires forall o :: o in Flying(s') ==> o in Flying(s) || o >= s.index.nextObject
    ensures Readers(s')
  {
    ReadersSame(s, a);
    hide ReaderOk, Flying, Enabled, Apply;
    forall t | t in s'.readers
      ensures ReaderOk(s', s'.readers[t])
    {
      if !((a.OpenRange? || a.ReadNext?) && t == a.t) {
        assert t in s.readers && s'.readers[t] == s.readers[t];
        ReaderFramed(s, s', s.readers[t]);
      }
    }
  }

  lemma FlyingGrows(s: Sys, a: Step)
    requires Ownership(s) && Enabled(s, a) && !a.Crash?
    ensures s.index.nextObject <= Apply(s, a).index.nextObject && Apply(s, a).chunkSize == s.chunkSize
    ensures forall o :: o in Flying(Apply(s, a)) ==> o in Flying(s) || o >= s.index.nextObject
    ensures forall o :: o in s.origin && o !in Flying(s) ==>
      o in Apply(s, a).origin && Apply(s, a).origin[o] == s.origin[o]
  {
    hide I.Owned, I.NoSharing, Available, Piece, PieceLow, PieceHigh, FirstChunk, LastChunk, Displaced, Saves, Reload;
    var s' := Apply(s, a);
    if IsSection(a) { SectionSheds(s.index, a); }
    if a.Place? { assert s.fetches[a.t].obj in Flying(s); }
    forall o | o in Flying(s')
      ensures o in Flying(s) || o >= s.index.nextObject
    {
      var t :| t in s'.fetches && s'.fetches[t].obj == o;
      if t in s.fetches && s.fetches[t].obj == o { assert o in Flying(s); }
    }
  }
}
