/** Invariants of the concurrent store, each kept by every step. */
module MachineInvariants {
  import opened Base
  import opened Chunks
  import I = CacheIndex
  import opened Machine

  lemma SectionSheds(ix: I.Index, a: Step)
    requires IsSection(a)
    ensures I.Sheds(ix, Section(ix, a).0, Section(ix, a).1)
  {
    match a
    case PutAttrs(p, attrs, _) => I.StoreAttrsSheds(ix, p, attrs);
    case RecordListing(p, children, _) => I.RecordListingSheds(ix, p, children);
    case InvalidateChildren(p, _) =>
      assert forall q :: I.Content(I.InvalidateChildren(ix, p), q) == I.Content(ix, q);
    case Remove(p, _) => I.RemoveSheds(ix, p);
    case InvalidateContent(p, _) => I.InvalidateContentSheds(ix, p);
  }

  // ---- Ownership -------------------------------------------------------------

  function Flying(s: Sys): set<ObjectId> { set t | t in s.fetches :: s.fetches[t].obj }

  /**
   Every allocated object id is exactly one of: in flight, referenced, freed, or leaked by a rename onto a
   cached target. No id is referenced by two slots. What waits for deletion has been freed.
   */
  ghost predicate Ownership(s: Sys) {
    && I.NoSharing(s.index)
    && (forall t, u :: t in s.fetches && u in s.fetches && t != u ==> s.fetches[t].obj != s.fetches[u].obj)
    && I.Owned(s.index) !! Flying(s) !! s.freed !! s.leaked
    && I.Owned(s.index) + Flying(s) + s.freed + s.leaked == Ids(s.index.nextObject)
    && s.doomed <= s.freed
    && (s.window.Some? ==> s.window.value.replaced <= s.freed)
  }

  /** The index on disk lags behind: its objects were allocated before, and none of them is in flight. */
  ghost predicate SavedLags(s: Sys) {
    && I.NoSharing(s.saved)
    && s.saved.nextObject <= s.index.nextObject
    && (forall o :: o in I.Owned(s.saved) ==> o < s.saved.nextObject && o !in Flying(s))
  }

  lemma SectionOwnership(s: Sys, a: Step)
    requires Ownership(s) && SavedLags(s) && Enabled(s, a) && IsSection(a)
    ensures Ownership(Apply(s, a)) && SavedLags(Apply(s, a))
  {
    hide I.Owned, I.NoSharing, I.RecordListing, I.StoreAttrs;
    SectionSheds(s.index, a);
    var r := Section(s.index, a);
    I.ShedsOwned(s.index, r.0, r.1);
    assert Flying(Apply(s, a)) == Flying(s);
  }

  lemma RenameOwned(ix: I.Index, from: Path, to: Path)
    requires I.NoSharing(ix)
    ensures var (ix', orphans) := I.Rename(ix, from, to);
      var displaced := Displaced(ix, from, to);
      && I.NoSharing(ix')
      && I.Owned(ix) == I.Owned(ix') + orphans + displaced
      && I.Owned(ix') !! orphans !! displaced
      && ix'.nextObject == ix.nextObject
  {
    var moved := I.Moved(ix, from, to);
    var keys := I.Descendants(moved, from);
    I.MovedOwned(ix, from, to);
    I.EvictSheds(moved, keys);
    I.ShedsOwned(moved, I.Evict(moved, keys).0, I.Evict(moved, keys).1);
  }

  lemma RenameOwnership(s: Sys, a: Step)
    requires Ownership(s) && SavedLags(s) && Enabled(s, a) && a.Rename?
    ensures Ownership(Apply(s, a)) && SavedLags(Apply(s, a))
  {
    hide I.Owned, I.NoSharing, I.Rename, I.Held;
    RenameOwned(s.index, a.p, a.to);
    assert Flying(Apply(s, a)) == Flying(s);
  }

  lemma CommitOwnership(s: Sys, a: Step)
    requires Ownership(s) && SavedLags(s) && Enabled(s, a) && a.Commit?
    ensures Ownership(Apply(s, a)) && SavedLags(Apply(s, a))
  {
    hide I.Owned, I.NoSharing, I.Commit;
    var f := s.fetches[a.t];
    assert f.obj in Flying(s);
    I.CommitOwned(s.index, f.path, f.attrs, s.chunkSize, f.chunk, f.obj);
    var s' := Apply(s, a);
    FlyingMinus(s, s', a.t);
  }

  lemma FlyingMinus(s: Sys, s': Sys, t: Thread)
    requires t in s.fetches && s'.fetches == s.fetches - {t}
    requires forall t, u :: t in s.fetches && u in s.fetches && t != u ==> s.fetches[t].obj != s.fetches[u].obj
    ensures Flying(s) == Flying(s') + {s.fetches[t].obj} && s.fetches[t].obj !in Flying(s')
  {
    forall o | o in Flying(s) && o != s.fetches[t].obj
      ensures o in Flying(s')
    {
      var u :| u in s.fetches && s.fetches[u].obj == o;
      assert u in s'.fetches;
    }
  }

  lemma BeginOwnership(s: Sys, a: Step)
    requires Ownership(s) && SavedLags(s) && Enabled(s, a) && a.Begin?
    ensures Ownership(Apply(s, a)) && SavedLags(Apply(s, a))
  {
    var s' := Apply(s, a);
    SameEntries(s.index, s'.index);
    FlyingPlus(s, s', a.t);
    hide I.Owned, I.NoSharing, Flying;
  }

  lemma FlyingPlus(s: Sys, s': Sys, t: Thread)
    requires t !in s.fetches && t in s'.fetches && s'.fetches == s.fetches[t := s'.fetches[t]]
    ensures Flying(s') == Flying(s) + {s'.fetches[t].obj}
    ensures forall u :: u in s.fetches ==> s.fetches[u].obj in Flying(s)
  {
    forall o | o in Flying(s)
      ensures o in Flying(s')
    {
      var u :| u in s.fetches && s.fetches[u].obj == o;
      assert u in s'.fetches && s'.fetches[u].obj == o;
    }
  }

  lemma SameEntries(ix: I.Index, ix': I.Index)
    requires ix'.entries == ix.entries
    ensures forall p :: I.Content(ix', p) == I.Content(ix, p)
    ensures I.Owned(ix') == I.Owned(ix)
    ensures I.NoSharing(ix) ==> I.NoSharing(ix')
  {
    assert forall p :: I.Content(ix', p) == I.Content(ix, p) && I.Held(ix', p) == I.Held(ix, p);
  }

  lemma AbortOwnership(s: Sys, a: Step)
    requires Ownership(s) && SavedLags(s) && Enabled(s, a) && a.Abort?
    ensures Ownership(Apply(s, a)) && SavedLags(Apply(s, a))
  {
    hide I.Owned, I.NoSharing;
    FlyingMinus(s, Apply(s, a), a.t);
  }

  lemma FlyingSame(s: Sys, s': Sys)
    requires s'.fetches.Keys == s.fetches.Keys
    requires forall t :: t in s.fetches ==> s'.fetches[t].obj == s.fetches[t].obj
    ensures Flying(s') == Flying(s)
  {
    forall o | o in Flying(s) ensures o in Flying(s') {
      var u :| u in s.fetches && s.fetches[u].obj == o;
      assert u in s'.fetches && s'.fetches[u].obj == o;
    }
    forall o | o in Flying(s') ensures o in Flying(s) {
      var u :| u in s'.fetches && s'.fetches[u].obj == o;
      assert u in s.fetches && s.fetches[u].obj == o;
    }
  }

  /** Steps that neither allocate, commit nor give up an object, and a restart. */
  lemma OtherOwnership(s: Sys, a: Step)
    requires Ownership(s) && SavedLags(s) && Enabled(s, a)
    requires !IsSection(a) && !a.Rename? && !a.Commit? && !a.Begin? && !a.Abort?
    ensures Ownership(Apply(s, a)) && SavedLags(Apply(s, a))
  {
    hide I.Owned, I.NoSharing, Available, Piece, PieceLow, PieceHigh, FirstChunk, LastChunk, Length, Start;
    if a.Crash? { assert Flying(Apply(s, a)) == {}; } else { FlyingSame(s, Apply(s, a)); }
  }

  lemma OwnershipStep(s: Sys, a: Step)
    requires Ownership(s) && SavedLags(s) && Enabled(s, a)
    ensures Ownership(Apply(s, a)) && SavedLags(Apply(s, a))
  {
    hide Ownership, SavedLags, Enabled, Apply;
    if IsSection(a) { SectionOwnership(s, a); }
    else if a.Rename? { RenameOwnership(s, a); }
    else if a.Commit? { CommitOwnership(s, a); }
    else if a.Begin? { BeginOwnership(s, a); }
    else if a.Abort? { AbortOwnership(s, a); }
    else { OtherOwnership(s, a); }
  }

  // ---- What the objects are --------------------------------------------------

  ghost predicate LabelledContent(content: I.ContentRef, origin: map<ObjectId, Origin>) {
    forall k :: k in content.chunks ==>
      && content.chunks[k] in origin
      && origin[content.chunks[k]].version == content.version
      && origin[content.chunks[k]].chunkSize == content.chunkSize
      && origin[content.chunks[k]].chunk == k
  }

  /** Every slot refers to an object that was downloaded for that chunk under the version the entry is labelled with. */
  ghost predicate Labelled(ix: I.Index, origin: map<ObjectId, Origin>) {
    forall p :: I.Content(ix, p).Some? ==> LabelledContent(I.Content(ix, p).value, origin)
  }

  ghost predicate PlacedOrigin(s: Sys, f: Fetch) {
    f.placed ==>
      f.obj in s.disk && f.obj in s.origin
      && s.origin[f.obj] == Origin(f.path, VersionOf(f.attrs), s.chunkSize, f.chunk, f.data)
  }

  /** Objects on disk are complete downloads, and every reference tells truthfully which download it is. */
  ghost predicate Provenance(s: Sys) {
    && s.chunkSize > 0
    && Labelled(s.index, s.origin)
    && Labelled(s.saved, s.origin)
    && (forall o :: o in s.disk ==> o in s.origin && s.disk[o] == s.origin[o].data)
    && (forall t :: t in s.fetches ==> PlacedOrigin(s, s.fetches[t]))
  }

  lemma SlotOwned(ix: I.Index, p: Path, k: nat)
    requires I.Content(ix, p).Some? && k in I.Content(ix, p).value.chunks
    ensures I.Content(ix, p).value.chunks[k] in I.Owned(ix)
  {
    assert p in ix.entries && I.Content(ix, p).value.chunks[k] in I.Held(ix, p);
  }

  /** Every entry of `ix'` carries content that some entry of `ix` carried. */
  ghost predicate Inherits(ix: I.Index, ix': I.Index) {
    forall q :: I.Content(ix', q).Some? ==> exists p :: I.Content(ix, p) == I.Content(ix', q)
  }

  lemma InheritsLabels(ix: I.Index, ix': I.Index, origin: map<ObjectId, Origin>)
    requires Labelled(ix, origin) && Inherits(ix, ix')
    ensures Labelled(ix', origin)
  {
    forall q | I.Content(ix', q).Some?
      ensures LabelledContent(I.Content(ix', q).value, origin)
    {
      var p :| I.Content(ix, p) == I.Content(ix', q);
    }
  }

  lemma SectionInherits(ix: I.Index, a: Step)
    requires IsSection(a)
    ensures Inherits(ix, Section(ix, a).0)
  {
    SectionSheds(ix, a);
  }

  lemma RenameInherits(ix: I.Index, from: Path, to: Path)
    ensures Inherits(ix, I.Rename(ix, from, to).0)
  {
    var ix' := I.Rename(ix, from, to).0;
    forall q | I.Content(ix', q).Some?
      ensures exists p :: I.Content(ix, p) == I.Content(ix', q)
    {
      assert I.Content(ix', q) == I.Content(ix, if q == to && from in ix.entries then from else q);
    }
  }

  /** Adding the origin of an object nobody references keeps the labels. */
  lemma LabelsFramed(ix: I.Index, origin: map<ObjectId, Origin>, o: ObjectId, g: Origin)
    requires Labelled(ix, origin) && o !in I.Owned(ix)
    ensures Labelled(ix, origin[o := g])
  {
    forall p, k | I.Content(ix, p).Some? && k in I.Content(ix, p).value.chunks
      ensures I.Content(ix, p).value.chunks[k] != o
    {
      SlotOwned(ix, p, k);
    }
  }

  lemma CommitLabels(ix: I.Index, f: Fetch, cs: nat, origin: map<ObjectId, Origin>)
    requires Labelled(ix, origin) && f.obj in origin
    requires origin[f.obj].version == VersionOf(f.attrs) && origin[f.obj].chunkSize == cs
    requires origin[f.obj].chunk == f.chunk
    ensures Labelled(I.Commit(ix, f.path, f.attrs, cs, f.chunk, f.obj).0, origin)
  {
    var ix' := I.Commit(ix, f.path, f.attrs, cs, f.chunk, f.obj).0;
    forall q | I.Content(ix', q).Some?
      ensures LabelledContent(I.Content(ix', q).value, origin)
    {
      if q != f.path { assert I.Content(ix', q) == I.Content(ix, q); }
    }
  }

  lemma PlaceProvenance(s: Sys, a: Step)
    requires Ownership(s) && SavedLags(s) && Provenance(s) && Enabled(s, a) && a.Place?
    ensures Provenance(Apply(s, a))
  {
    hide I.Owned, I.NoSharing, LabelledContent;
    var f := s.fetches[a.t];
    var s' := Apply(s, a);
    assert f.obj in Flying(s);
    var g := Origin(f.path, VersionOf(f.attrs), s.chunkSize, f.chunk, f.data);
    LabelsFramed(s.index, s.origin, f.obj, g);
    LabelsFramed(s.saved, s.origin, f.obj, g);
  }

  lemma DeleteProvenance(s: Sys, a: Step)
    requires Ownership(s) && SavedLags(s) && Provenance(s) && Enabled(s, a) && (a.Delete? || a.DeleteReplaced?)
    ensures Provenance(Apply(s, a))
  {
    hide I.Owned, I.NoSharing, LabelledContent;
    var s' := Apply(s, a);
    assert a.o in s.freed;
    forall t | t in s'.fetches ensures PlacedOrigin(s', s'.fetches[t]) {
      assert s.fetches[t].obj in Flying(s);
    }
  }

  /** Sections and renames only pass content on. */
  lemma InheritedProvenance(s: Sys, a: Step)
    requires Provenance(s) && Enabled(s, a) && (IsSection(a) || a.Rename?)
    ensures Provenance(Apply(s, a))
  {
    hide I.Owned, I.NoSharing, LabelledContent, I.Content, I.RecordListing, I.StoreAttrs, I.Rename, Displaced;
    if a.Rename? { RenameInherits(s.index, a.p, a.to); } else { SectionInherits(s.index, a); }
    InheritsLabels(s.index, Apply(s, a).index, s.origin);
  }

  lemma ProvenanceStep(s: Sys, a: Step)
    requires Ownership(s) && SavedLags(s) && Provenance(s) && Enabled(s, a)
    ensures Provenance(Apply(s, a))
  {
    var s' := Apply(s, a);
    if IsSection(a) || a.Rename? {
      hide *;
      InheritedProvenance(s, a);
    } else if a.Commit? {
      hide I.Owned, I.NoSharing, LabelledContent, I.Content, I.Commit;
      CommitLabels(s.index, s.fetches[a.t], s.chunkSize, s.origin);
    } else if a.Place? {
      PlaceProvenance(s, a);
    } else if a.Delete? || a.DeleteReplaced? {
      DeleteProvenance(s, a);
    } else if a.Begin? {
      hide I.Owned, I.NoSharing, LabelledContent;
      SameEntries(s.index, s'.index);
    } else {
      hide I.Owned, I.NoSharing, LabelledContent, I.Content;
    }
  }

  // ---- Coherence -------------------------------------------------------------

  /** The remote currently has version `v` at `p`. */
  ghost predicate Current(s: Sys, p: Path, v: Version) {
    p in s.remote && VersionAt(s.remote[p]) == v
  }

  ghost predicate OriginTrue(s: Sys, g: Origin) {
    && (g.path, g.version) in s.seen
    && (Current(s, g.path, g.version) ==> IsChunk(g.data, s.remote[g.path].bytes, g.chunkSize, g.chunk))
  }

  ghost predicate FetchTrue(s: Sys, f: Fetch) {
    && (f.path, VersionOf(f.attrs)) in s.seen
    && Start(f, s.chunkSize) < f.attrs.size
    && |f.data| <= Length(f, s.chunkSize)
    && (Current(s, f.path, VersionOf(f.attrs)) ==>
          f.data == s.remote[f.path].bytes[Start(f, s.chunkSize)..Start(f, s.chunkSize) + |f.data|])
  }

  /** Everything downloaded from `p` under a version that is still current is what the remote has. */
  ghost predicate Truthful(s: Sys, p: Path) {
    && (p in s.remote ==> (p, VersionAt(s.remote[p])) in s.seen)
    && (forall o :: o in s.origin && s.origin[o].path == p ==> OriginTrue(s, s.origin[o]))
    && (forall t :: t in s.fetches && s.fetches[t].path == p ==> FetchTrue(s, s.fetches[t]))
  }

  /** One more honest answer keeps a download true. */
  lemma ReceiveFetch(f: Fetch, cs: nat, file: RemoteFile, n: nat)
    requires Start(f, cs) < f.attrs.size == |file.bytes| && |f.data| < Length(f, cs)
    requires f.data == file.bytes[Start(f, cs)..Start(f, cs) + |f.data|]
    requires 0 < n <= |Available(f, cs, file)|
    ensures f.data + Available(f, cs, file)[..n] == file.bytes[Start(f, cs)..Start(f, cs) + |f.data| + n]
  {
    var start := Start(f, cs);
    assert Available(f, cs, file)[..n] == file.bytes[start + |f.data|..start + |f.data| + n];
    Adjacent(file.bytes, start, start + |f.data|, start + |f.data| + n);
  }

  lemma ReceiveTruthful(s: Sys, a: Step, p: Path)
    requires Truthful(s, p) && Enabled(s, a) && a.Receive? && s.fetches[a.t].path == p
    ensures Truthful(Apply(s, a), p)
  {
    var s', f := Apply(s, a), s.fetches[a.t];
    assert FetchTrue(s, f);
    if Current(s, f.path, VersionOf(f.attrs)) { ReceiveFetch(f, s.chunkSize, s.remote[f.path], a.n); }
    ReceiveLength(f, s.chunkSize, s.remote[f.path]);
    ReceiveKeepsShape(f, s'.fetches[a.t], s.chunkSize);
    hide Available, Start, Length, IsChunk;
    assert FetchTrue(s', s'.fetches[a.t]);
    forall t | t in s'.fetches && s'.fetches[t].path == p ensures FetchTrue(s', s'.fetches[t]) {
      if t != a.t { assert FetchTrue(s, s.fetches[t]); }
    }
    forall o | o in s'.origin && s'.origin[o].path == p ensures OriginTrue(s', s'.origin[o]) {
      assert OriginTrue(s, s.origin[o]);
    }
  }

  lemma ReceiveLength(f: Fetch, cs: nat, file: RemoteFile)
    requires Start(f, cs) <= f.attrs.size && |f.data| <= Length(f, cs)
    ensures |f.data| + |Available(f, cs, file)| <= Length(f, cs)
  {
  }

  lemma ReceiveKeepsShape(f: Fetch, f': Fetch, cs: nat)
    requires f'.chunk == f.chunk && f'.attrs == f.attrs
    ensures Start(f', cs) == Start(f, cs)
    ensures Start(f, cs) <= f.attrs.size ==> Length(f', cs) == Length(f, cs)
  {
  }

  /** When a download ends under a version that is still current, the object is the whole chunk. */
  lemma PlaceChunk(f: Fetch, cs: nat, file: RemoteFile)
    requires Start(f, cs) < f.attrs.size == |file.bytes| && |f.data| <= Length(f, cs)
    requires f.data == file.bytes[Start(f, cs)..Start(f, cs) + |f.data|]
    requires |f.data| == Length(f, cs) || Available(f, cs, file) == []
    ensures IsChunk(f.data, file.bytes, cs, f.chunk)
  {
    ChunkLengthExact(file.bytes, cs, f.chunk);
  }

  lemma PlaceTruthful(s: Sys, a: Step, p: Path)
    requires Truthful(s, p) && Enabled(s, a) && a.Place? && s.fetches[a.t].path == p
    ensures Truthful(Apply(s, a), p)
  {
    var s', f := Apply(s, a), s.fetches[a.t];
    assert FetchTrue(s, f);
    if Current(s, f.path, VersionOf(f.attrs)) { PlaceChunk(f, s.chunkSize, s.remote[f.path]); }
    hide Available, IsChunk;
    forall t | t in s'.fetches && s'.fetches[t].path == p ensures FetchTrue(s', s'.fetches[t]) {
      assert FetchTrue(s, s.fetches[t]);
    }
    forall o | o in s'.origin && s'.origin[o].path == p ensures OriginTrue(s', s'.origin[o]) {
      if o != f.obj { assert OriginTrue(s, s.origin[o]); }
    }
  }

  /** A new remote version cannot revive an old label, provided versions never recur. */
  lemma ChangeTruthful(s: Sys, a: Step, p: Path)
    requires Truthful(s, p) && Enabled(s, a) && (a.Change? || a.Vanish?)
    requires a.Change? && a.p == p ==> (a.p, VersionAt(a.file)) !in s.seen
    ensures Truthful(Apply(s, a), p)
  {
    var s' := Apply(s, a);
    forall t | t in s'.fetches && s'.fetches[t].path == p ensures FetchTrue(s', s'.fetches[t]) {
      assert FetchTrue(s, s.fetches[t]);
    }
    forall o | o in s'.origin && s'.origin[o].path == p ensures OriginTrue(s', s'.origin[o]) {
      assert OriginTrue(s, s.origin[o]);
    }
  }

  lemma TruthfulStep(s: Sys, a: Step, p: Path)
    requires Truthful(s, p) && Enabled(s, a)
    requires a.Change? && a.p == p ==> (a.p, VersionAt(a.file)) !in s.seen
    requires a.Begin? && a.p == p ==> (a.p, VersionOf(a.attrs)) in s.seen
    ensures Truthful(Apply(s, a), p)
  {
    if a.Receive? && s.fetches[a.t].path == p { ReceiveTruthful(s, a, p); }
    else if a.Place? && s.fetches[a.t].path == p { PlaceTruthful(s, a, p); }
    else if a.Change? || a.Vanish? { ChangeTruthful(s, a, p); }
    else if a.Begin? { BeginTruthful(s, a, p); }
    else { OtherTruthful(s, a, p); }
  }

  lemma BeginTruthful(s: Sys, a: Step, p: Path)
    requires Truthful(s, p) && Enabled(s, a) && a.Begin? && (a.p == p ==> (a.p, VersionOf(a.attrs)) in s.seen)
    ensures Truthful(Apply(s, a), p)
  {
    var s' := Apply(s, a);
    forall t | t in s'.fetches && s'.fetches[t].path == p ensures FetchTrue(s', s'.fetches[t]) {
      if t != a.t { assert FetchTrue(s, s.fetches[t]); }
    }
    forall o | o in s'.origin && s'.origin[o].path == p ensures OriginTrue(s', s'.origin[o]) {
      assert OriginTrue(s, s.origin[o]);
    }
  }

  /** Truth at a path only depends on the remote, on what was downloaded from there, and on downloads in progress. */
  lemma TruthFramed(s: Sys, s': Sys, p: Path)
    requires Truthful(s, p) && s'.remote == s.remote && s'.seen == s.seen
    requires forall o :: o in s'.origin && s'.origin[o].path == p ==> o in s.origin && s'.origin[o] == s.origin[o]
    requires forall t :: t in s'.fetches && s'.fetches[t].path == p ==>
      s'.chunkSize == s.chunkSize && t in s.fetches && s'.fetches[t] == s.fetches[t]
    ensures Truthful(s', p)
  {
    hide Start, Length, IsChunk;
    forall t | t in s'.fetches && s'.fetches[t].path == p ensures FetchTrue(s', s'.fetches[t]) {
      assert FetchTrue(s, s.fetches[t]);
    }
    forall o | o in s'.origin && s'.origin[o].path == p ensures OriginTrue(s', s'.origin[o]) {
      assert OriginTrue(s, s.origin[o]);
    }
  }

  /** Steps that neither touch the remote nor make progress on a download of `p`. */
  lemma OtherTruthful(s: Sys, a: Step, p: Path)
    requires Truthful(s, p) && Enabled(s, a) && !a.Change? && !a.Vanish? && !a.Begin?
    requires a.Receive? || a.Place? ==> s.fetches[a.t].path != p
    ensures Truthful(Apply(s, a), p)
  {
    hide Truthful, Section, Saves, I.Rename, I.Commit, Piece, PieceLow, PieceHigh, LastChunk, FirstChunk, Available;
    TruthFramed(s, Apply(s, a), p);
  }
}
