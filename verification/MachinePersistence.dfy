/** The index on disk against the index in memory, for runs whose persists succeed. */
module MachinePersistence {
  import opened Base
  import opened Chunks
  import I = CacheIndex
  import opened Machine
  import opened MachineInvariants

  ghost predicate SameKeys(ix: I.Index, ix': I.Index) {
    ix.entries == ix'.entries && ix.listings == ix'.listings
  }

  /** Content always has at least one object. */
  ghost predicate NonEmpty(ix: I.Index) {
    forall p :: I.Content(ix, p).Some? ==> I.Objects(I.Content(ix, p).value) != {}
  }

  ghost predicate WindowOk(s: Sys, w: Window) {
    && SameKeys(s.saved, w.before)
    && NonEmpty(w.before)
    && w.deleted <= w.replaced <= I.Owned(w.before)
    && w.deleted !! s.disk.Keys
    && I.Owned(w.before) <= s.disk.Keys + w.deleted
    && s.doomed !! I.Owned(w.before)
  }

  /**
   The index on disk is the one in memory, or during a commit the one from before the commit. In-memory
   references are on disk, and of the saved ones only those a commit has already deleted are not.
   */
  ghost predicate Persisted(s: Sys) {
    && NonEmpty(s.index)
    && I.Owned(s.index) <= s.disk.Keys
    && (s.window.None? ==> SameKeys(s.saved, s.index))
    && (s.window.Some? ==> WindowOk(s, s.window.value))
  }

  lemma SameKeysOwned(ix: I.Index, ix': I.Index)
    requires SameKeys(ix, ix')
    ensures I.Owned(ix) == I.Owned(ix') && (NonEmpty(ix) ==> NonEmpty(ix'))
  {
    SameEntries(ix, ix');
    assert forall p :: I.Content(ix, p) == I.Content(ix', p);
  }

  /** A section that skips the rewrite of the index file has changed nothing. */
  lemma UnsavedChangesNothing(ix: I.Index, a: Step)
    requires IsSection(a) && NonEmpty(ix) && !Saves(ix, a) && a.persisted
    ensures SameKeys(Section(ix, a).0, ix)
  {
    if a.InvalidateContent? && a.p in ix.entries {
      assert I.Held(ix, a.p) == {};
      assert I.Content(ix, a.p).None?;
      assert ix.entries[a.p := ix.entries[a.p].(content := None)] == ix.entries;
    }
    if a.InvalidateChildren? { assert ix.listings - {a.p} == ix.listings; }
    if a.Remove? {
      assert ix.listings - {a.p} == ix.listings && ix.entries - {a.p} == ix.entries;
    }
  }

  lemma InheritsNonEmpty(ix: I.Index, ix': I.Index)
    requires NonEmpty(ix) && Inherits(ix, ix')
    ensures NonEmpty(ix')
  {
    forall q | I.Content(ix', q).Some?
      ensures I.Objects(I.Content(ix', q).value) != {}
    {
      var p :| I.Content(ix, p) == I.Content(ix', q);
    }
  }

  lemma SectionPersisted(s: Sys, a: Step)
    requires Ownership(s) && Persisted(s) && Enabled(s, a) && IsSection(a) && a.persisted
    ensures Persisted(Apply(s, a))
  {
    hide I.Owned, I.NoSharing, I.RecordListing, I.StoreAttrs, I.Remove, I.InvalidateContent, I.Objects, I.Content;
    SectionSheds(s.index, a);
    var r := Section(s.index, a);
    I.ShedsOwned(s.index, r.0, r.1);
    SectionInherits(s.index, a);
    InheritsNonEmpty(s.index, r.0);
    if !Saves(s.index, a) { UnsavedChangesNothing(s.index, a); }
  }

  lemma RenamePersisted(s: Sys, a: Step)
    requires Ownership(s) && Persisted(s) && Enabled(s, a) && a.Rename? && a.persisted
    ensures Persisted(Apply(s, a))
  {
    hide I.Owned, I.NoSharing, I.Rename, I.Objects, I.Content, Displaced;
    RenameOwned(s.index, a.p, a.to);
    RenameInherits(s.index, a.p, a.to);
    InheritsNonEmpty(s.index, I.Rename(s.index, a.p, a.to).0);
  }

  lemma CommitPersisted(s: Sys, a: Step)
    requires Ownership(s) && Provenance(s) && Persisted(s) && Enabled(s, a) && a.Commit?
    ensures Persisted(Apply(s, a))
  {
    var f := s.fetches[a.t];
    assert f.obj in Flying(s) && PlacedOrigin(s, f);
    var r := I.Commit(s.index, f.path, f.attrs, s.chunkSize, f.chunk, f.obj);
    I.CommitOwned(s.index, f.path, f.attrs, s.chunkSize, f.chunk, f.obj);
    CommitNonEmpty(s.index, f, s.chunkSize);
    hide I.Owned, I.NoSharing, I.Commit, I.Objects, I.Content, Labelled, NonEmpty;
  }

  lemma CommitNonEmpty(ix: I.Index, f: Fetch, cs: nat)
    requires NonEmpty(ix)
    ensures NonEmpty(I.Commit(ix, f.path, f.attrs, cs, f.chunk, f.obj).0)
  {
    var ix' := I.Commit(ix, f.path, f.attrs, cs, f.chunk, f.obj).0;
    forall q | I.Content(ix', q).Some?
      ensures I.Objects(I.Content(ix', q).value) != {}
    {
      if q == f.path {
        var chunks := I.Content(ix', q).value.chunks;
        assert chunks[f.chunk] == f.obj;
        assert f.obj in chunks.Values;
      } else {
        assert I.Content(ix', q) == I.Content(ix, q);
      }
    }
  }

  lemma OtherPersisted(s: Sys, a: Step)
    requires Ownership(s) && SavedLags(s) && Persisted(s) && Enabled(s, a)
    requires !IsSection(a) && !a.Rename? && !a.Commit?
    requires a.FinishCommit? ==> a.persisted
    requires a.Crash? ==> !MidCommit(s)
    ensures Persisted(Apply(s, a))
  {
    if a.Crash? || a.FinishCommit? {
      if s.window.Some? {
        SameKeysOwned(s.saved, s.window.value.before);
        SameKeysOwned(s.window.value.before, s.saved);
      }
      else { SameKeysOwned(s.saved, s.index); SameKeysOwned(s.index, s.saved); }
    }
    if a.Begin? { SameKeysOwned(s.index, Apply(s, a).index); }
    if a.Place? { assert s.fetches[a.t].obj in Flying(s); }
    hide I.Owned, I.NoSharing, I.Objects, I.Content, NonEmpty;
  }

  lemma PersistedStep(s: Sys, a: Step)
    requires Ownership(s) && SavedLags(s) && Provenance(s) && Persisted(s) && Enabled(s, a)
    requires (IsSection(a) || a.Rename? || a.FinishCommit?) ==> a.persisted
    requires a.Crash? ==> !MidCommit(s)
    ensures Persisted(Apply(s, a))
  {
    if IsSection(a) { SectionPersisted(s, a); }
    else if a.Rename? { RenamePersisted(s, a); }
    else if a.Commit? { CommitPersisted(s, a); }
    else { OtherPersisted(s, a); }
  }

  // ---- Fetches that do not race ----------------------------------------------

  /** Two fetches of one path are for distinct chunks of one version. */
  ghost predicate Apart(f: Fetch, g: Fetch) {
    f.path == g.path ==> VersionOf(f.attrs) == VersionOf(g.attrs) && f.chunk != g.chunk
  }

  /** Every fetch in flight will only add to what is cached, so no commit ever gives anything up. */
  ghost predicate Spaced(s: Sys) {
    && (forall t :: t in s.fetches ==>
      I.FreeSlot(s.index, s.chunkSize, s.fetches[t].path, VersionOf(s.fetches[t].attrs), s.fetches[t].chunk))
    && (forall t, u :: t in s.fetches && u in s.fetches && t != u ==> Apart(s.fetches[t], s.fetches[u]))
    && (s.window.Some? ==> s.window.value.replaced == {} && s.window.value.deleted == {})
  }

  /** A free slot stays free while its path keeps its content or loses it. */
  lemma StillFree(s: Sys, s': Sys, p: Path, v: Version, chunk: nat)
    requires I.FreeSlot(s.index, s.chunkSize, p, v, chunk) && s'.chunkSize == s.chunkSize
    requires I.Content(s'.index, p).Some? ==> I.Content(s'.index, p) == I.Content(s.index, p)
    ensures I.FreeSlot(s'.index, s'.chunkSize, p, v, chunk)
  {
  }

  /** Steps after which every path that is being fetched has the content it had, or none. */
  lemma SpacedFramed(s: Sys, s': Sys)
    requires Spaced(s) && s'.chunkSize == s.chunkSize && s'.fetches.Keys <= s.fetches.Keys
    requires forall t :: t in s'.fetches ==>
      var f, f' := s.fetches[t], s'.fetches[t];
      && f'.path == f.path && f'.attrs == f.attrs && f'.chunk == f.chunk
      && (I.Content(s'.index, f.path).Some? ==> I.Content(s'.index, f.path) == I.Content(s.index, f.path))
    requires s'.window == s.window || s'.window == None
    ensures Spaced(s')
  {
    hide I.FreeSlot, I.Content;
    forall t | t in s'.fetches
      ensures I.FreeSlot(s'.index, s'.chunkSize, s'.fetches[t].path, VersionOf(s'.fetches[t].attrs),
                         s'.fetches[t].chunk)
    {
      StillFree(s, s', s.fetches[t].path, VersionOf(s.fetches[t].attrs), s.fetches[t].chunk);
    }
    forall t, u | t in s'.fetches && u in s'.fetches && t != u
      ensures Apart(s'.fetches[t], s'.fetches[u])
    {
      assert Apart(s.fetches[t], s.fetches[u]);
    }
  }

  lemma BeginSpaced(s: Sys, a: Step)
    requires Spaced(s) && Enabled(s, a) && a.Begin? && Ready(s, a.p, VersionOf(a.attrs), a.chunk)
    ensures Spaced(Apply(s, a))
  {
    var s' := Apply(s, a);
    SameEntries(s.index, s'.index);
    assert forall p, v, chunk ::
      I.FreeSlot(s'.index, s'.chunkSize, p, v, chunk) == I.FreeSlot(s.index, s.chunkSize, p, v, chunk);
    hide I.FreeSlot;
  }

  /** A commit into a free slot replaces nothing and leaves the slots of the other fetches free. */
  lemma CommitSpaced(s: Sys, a: Step)
    requires Spaced(s) && Enabled(s, a) && a.Commit?
    ensures Spaced(Apply(s, a))
  {
    var s', f := Apply(s, a), s.fetches[a.t];
    assert I.FreeSlot(s.index, s.chunkSize, f.path, VersionOf(f.attrs), f.chunk);
    I.CommitReplaces(s.index, f.path, f.attrs, s.chunkSize, f.chunk, f.obj);
    forall t | t in s'.fetches
      ensures I.FreeSlot(s'.index, s'.chunkSize, s'.fetches[t].path, VersionOf(s'.fetches[t].attrs),
                         s'.fetches[t].chunk)
    {
      var g := s.fetches[t];
      assert I.FreeSlot(s.index, s.chunkSize, g.path, VersionOf(g.attrs), g.chunk) && Apart(f, g);
    }
  }

  lemma SectionSpaced(s: Sys, a: Step)
    requires Spaced(s) && Enabled(s, a) && (IsSection(a) || (a.Rename? && SparesFetches(s, a.p, a.to)))
    ensures Spaced(Apply(s, a))
  {
    if IsSection(a) { SectionSheds(s.index, a); }
    hide I.FreeSlot, Apart, I.RecordListing, I.StoreAttrs, Section, Saves, Spaced;
    SpacedFramed(s, Apply(s, a));
  }

  lemma OtherSpaced(s: Sys, a: Step)
    requires Spaced(s) && Enabled(s, a) && !IsSection(a) && !a.Rename? && !a.Begin? && !a.Commit?
    ensures Spaced(Apply(s, a))
  {
    if !a.Crash? && !a.DeleteReplaced? {
      hide I.FreeSlot, Apart, I.Content, Piece, PieceLow, PieceHigh, FirstChunk, LastChunk, Available, Spaced;
      SpacedFramed(s, Apply(s, a));
    }
  }

  lemma SpacedStep(s: Sys, a: Step)
    requires Spaced(s) && Enabled(s, a)
    requires a.Begin? ==> Ready(s, a.p, VersionOf(a.attrs), a.chunk)
    requires a.Rename? ==> SparesFetches(s, a.p, a.to)
    ensures Spaced(Apply(s, a))
  {
    hide Spaced, Enabled, Apply, Ready, SparesFetches;
    if a.Begin? { BeginSpaced(s, a); }
    else if a.Commit? { CommitSpaced(s, a); }
    else if IsSection(a) || a.Rename? { SectionSpaced(s, a); }
    else { OtherSpaced(s, a); }
  }
}
