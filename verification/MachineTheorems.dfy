/** The main results about the concurrent store: what holds in every reachable state. */
module MachineTheorems {
  import opened Base
  import opened Chunks
  import I = CacheIndex
  import opened Machine
  import opened MachineInvariants
  import opened MachineReaders
  import opened MachinePersistence

  ghost predicate Invariant(rules: Rules, s: Sys) {
    && Ownership(s) && SavedLags(s) && Provenance(s) && Readers(s)
    && (rules.versionsNeverRecur && rules.ownAttributes ==> Truthful(s, rules.subject))
    && (rules.nothingMovedOnto ==> AtHome(s, rules.subject))
    && (rules.targetsUncached ==> s.leaked == {})
    && (rules.slotsFree ==> Spaced(s))
    && (rules.persistsSucceed && (rules.crashesSpareCommits || rules.slotsFree) ==> Persisted(s))
  }

  lemma InvariantInit(rules: Rules, s: Sys)
    requires Initial(s)
    ensures Invariant(rules, s)
  {
    assert forall p :: I.Content(s.index, p) == None;
    assert I.Owned(s.index) == {};
    assert Flying(s) == {};
  }

  lemma InvariantStep(rules: Rules, s: Sys, a: Step)
    requires Invariant(rules, s) && Enabled(s, a) && Allowed(rules, s, a)
    ensures Invariant(rules, Apply(s, a))
  {
    hide Ownership, SavedLags, Provenance, Readers, Truthful, AtHome, Persisted, Enabled, Ready, SparesFetches;
    OwnershipStep(s, a);
    ProvenanceStep(s, a);
    ReadersStep(s, a);
    if rules.versionsNeverRecur && rules.ownAttributes { TruthfulStep(s, a, rules.subject); }
    if rules.nothingMovedOnto { AtHomeStep(s, a, rules.subject); }
    if rules.slotsFree {
      assert !MidCommit(s);
      hide Spaced;
      SpacedStep(s, a);
    }
    if rules.persistsSucceed && (rules.crashesSpareCommits || rules.slotsFree) { PersistedStep(s, a); }
  }

  lemma {:induction false} InvariantRuns(rules: Rules, s: Sys, steps: seq<Step>, s': Sys)
    requires Invariant(rules, s) && Runs(rules, s, steps, s')
    ensures Invariant(rules, s')
    decreases |steps|
  {
    hide Invariant, Enabled, Allowed, Apply;
    if steps != [] {
      InvariantStep(rules, s, steps[0]);
      InvariantRuns(rules, Apply(s, steps[0]), steps[1..], s');
    }
  }

  lemma InvariantReachable(rules: Rules, s: Sys)
    requires Reachable(rules, s)
    ensures Invariant(rules, s)
  {
    hide Invariant, Initial, Runs;
    var s0, steps :| Initial(s0) && Runs(rules, s0, steps, s);
    InvariantInit(rules, s0);
    InvariantRuns(rules, s0, steps, s);
  }

  // ---- Coherence -------------------------------------------------------------

  /** The chunks `ix` has for `p` under the remote's current version are the remote's current bytes. */
  ghost predicate Coherent(s: Sys, ix: I.Index, p: Path) {
    I.Content(ix, p).Some? && Current(s, p, I.Content(ix, p).value.version) ==>
      forall k :: k in I.Content(ix, p).value.chunks && I.Content(ix, p).value.chunks[k] in s.disk ==>
        IsChunk(s.disk[I.Content(ix, p).value.chunks[k]], s.remote[p].bytes, I.Content(ix, p).value.chunkSize, k)
  }

  /**
   Coherence. In every interleaving of reads, chunk downloads, attribute updates, invalidations, renames, external
   changes, failed persists, restarts and crashes: if the versions of `p` never recur, its chunks are fetched under
   attributes reported for it, and no rename carries content onto it, then a cached label that equals the remote's
   current version vouches for every cached chunk, in the index in memory and in the one a restart would load. What
   happens to other paths does not matter.
   */
  lemma CoherenceTheorem(rules: Rules, s: Sys)
    requires Reachable(rules, s) && rules.versionsNeverRecur && rules.ownAttributes && rules.nothingMovedOnto
    ensures Coherent(s, s.index, rules.subject) && Coherent(s, s.saved, rules.subject)
  {
    InvariantReachable(rules, s);
    CoherentIndex(s, s.index, rules.subject);
    CoherentIndex(s, s.saved, rules.subject);
  }

  lemma CoherentIndex(s: Sys, ix: I.Index, p: Path)
    requires Provenance(s) && Truthful(s, p) && Labelled(ix, s.origin) && Home(ix, p, s.origin)
    ensures Coherent(s, ix, p)
  {
    if I.Content(ix, p).Some? {
      var content := I.Content(ix, p).value;
      assert LabelledContent(content, s.origin) && HomeContent(p, content.chunks, s.origin);
      forall k | k in content.chunks && content.chunks[k] in s.disk && Current(s, p, content.version)
        ensures IsChunk(s.disk[content.chunks[k]], s.remote[p].bytes, content.chunkSize, k)
      {
        assert OriginTrue(s, s.origin[content.chunks[k]]);
      }
    }
  }

  // ---- Ownership -------------------------------------------------------------

  /**
   Ownership. In every interleaving each allocated id is exactly one of in flight, referenced, freed or leaked;
   no id is referenced twice; nothing freed or waiting for deletion is referenced. Ids leak only through a
   rename onto a key with cached content.
   */
  lemma OwnershipTheorem(rules: Rules, s: Sys)
    requires Reachable(rules, s)
    ensures I.NoSharing(s.index)
    ensures I.Owned(s.index) !! Flying(s) !! s.freed !! s.leaked
    ensures forall o: nat :: o < s.index.nextObject <==> o in I.Owned(s.index) + Flying(s) + s.freed + s.leaked
    ensures s.doomed <= s.freed
    ensures rules.targetsUncached ==> s.leaked == {}
  {
    InvariantReachable(rules, s);
    forall o: nat
      ensures o < s.index.nextObject <==> o in I.Owned(s.index) + Flying(s) + s.freed + s.leaked
    {
      assert o in Ids(s.index.nextObject) <==> o < s.index.nextObject;
    }
  }

  ghost predicate NoCrash(steps: seq<Step>) {
    forall i :: 0 <= i < |steps| ==> !steps[i].Crash?
  }

  lemma FreedStep(s: Sys, a: Step)
    requires Enabled(s, a) && !a.Crash?
    ensures s.freed <= Apply(s, a).freed
  {
  }

  /** Within one session a freed id stays freed: it is never referenced again, whatever happens. */
  lemma {:induction false} FreedForever(rules: Rules, s: Sys, steps: seq<Step>, s': Sys)
    requires Invariant(rules, s) && Runs(rules, s, steps, s') && NoCrash(steps)
    ensures s.freed <= s'.freed && s.freed !! I.Owned(s'.index)
    decreases |steps|
  {
    if steps == [] {
    } else {
      hide Ownership, SavedLags, Provenance, Readers, Truthful, AtHome, Persisted, Spaced, Enabled, Apply, Allowed,
        I.Owned;
      assert !steps[0].Crash?;
      FreedStep(s, steps[0]);
      InvariantStep(rules, s, steps[0]);
      FreedForever(rules, Apply(s, steps[0]), steps[1..], s');
    }
  }

  // ---- Snapshots -------------------------------------------------------------

  /** The reader has read its last chunk. */
  ghost predicate Completed(s: Sys, r: Reader) {
    s.chunkSize > 0 && r.offset < r.end && r.next == ReaderLast(r, s.chunkSize) + 1
  }

  /** The chunk of the reader's range was recorded under the reader's one version, by a single download. */
  ghost predicate FromOneVersion(s: Sys, r: Reader, objects: map<nat, Bytes>) {
    forall k :: k in objects ==>
      k in r.chunks && r.chunks[k] in s.origin
      && s.origin[r.chunks[k]].version == r.version && s.origin[r.chunks[k]].chunk == k
      && s.origin[r.chunks[k]].data == objects[k]
  }

  /** What the reader returned is cut from `objects`, one per chunk of its range. */
  ghost predicate CutFrom(r: Reader, cs: nat, objects: map<nat, Bytes>) {
    && cs > 0 && r.offset < r.end
    && FirstChunk(r.offset, cs) <= LastChunk(r.end, cs)
    && (forall k :: FirstChunk(r.offset, cs) <= k <= LastChunk(r.end, cs) ==> k in objects)
    && r.out == Gathered(objects, cs, r.offset, r.end, FirstChunk(r.offset, cs), LastChunk(r.end, cs) + 1)
  }

  lemma ReaderSnapshot(s: Sys, r: Reader, objects: map<nat, Bytes>)
    requires ReaderOk(s, r) && r.next == ReaderLast(r, s.chunkSize) + 1 && objects == DataOf(r.chunks, s.origin)
    ensures FromOneVersion(s, r, objects) && CutFrom(r, s.chunkSize, objects)
  {
    InRange(r.offset, r.end, s.chunkSize, 0);
    hide Gathered, Flying, FirstChunk, LastChunk;
    assert ReaderLabels(s, r);
  }

  /**
   Snapshot consistency. The bytes a completed concurrent range read returns are cut from chunks that were all
   recorded under one version, however many commits, invalidations and deletions ran in between.
   */
  lemma SnapshotTheorem(rules: Rules, s: Sys, t: Thread) returns (objects: map<nat, Bytes>)
    requires Reachable(rules, s) && t in s.readers && Completed(s, s.readers[t])
    ensures FromOneVersion(s, s.readers[t], objects)
    ensures CutFrom(s.readers[t], s.chunkSize, objects)
  {
    hide Reachable, Ownership, SavedLags, Provenance, Truthful, AtHome, Persisted, ReaderOk, DataOf, FromOneVersion,
      CutFrom;
    InvariantReachable(rules, s);
    objects := DataOf(s.readers[t].chunks, s.origin);
    ReaderSnapshot(s, s.readers[t], objects);
  }

  /** Objects of a current version, all from the reader's own path, are the chunks of the remote file. */
  lemma SnapshotIsFile(s: Sys, r: Reader, objects: map<nat, Bytes>)
    requires Truthful(s, r.path) && ReaderLabels(s, r) && HomeContent(r.path, r.chunks, s.origin)
    requires FromOneVersion(s, r, objects) && CutFrom(r, s.chunkSize, objects)
    requires Current(s, r.path, r.version) && r.end <= |s.remote[r.path].bytes|
    ensures r.out == s.remote[r.path].bytes[r.offset..r.end]
  {
    hide IsChunk, Gathered, FirstChunk, LastChunk, FetchTrue;
    var cs, file := s.chunkSize, s.remote[r.path].bytes;
    forall k | FirstChunk(r.offset, cs) <= k <= LastChunk(r.end, cs)
      ensures IsChunk(objects[k], file, cs, k)
    {
      assert OriginTrue(s, s.origin[r.chunks[k]]);
    }
    RangeExact(objects, file, cs, r.offset, r.end);
  }

  /**
   If that version is still the remote's when the read completes, and the path obeys the three rules of
   `CoherenceTheorem`, the bytes are exactly the requested range.
   */
  lemma SnapshotExact(rules: Rules, s: Sys, t: Thread)
    requires Reachable(rules, s) && rules.versionsNeverRecur && rules.ownAttributes && rules.nothingMovedOnto
    requires t in s.readers && s.readers[t].path == rules.subject && Completed(s, s.readers[t])
    requires Current(s, s.readers[t].path, s.readers[t].version)
    requires s.readers[t].end <= |s.remote[s.readers[t].path].bytes|
    ensures s.readers[t].out == s.remote[s.readers[t].path].bytes[s.readers[t].offset..s.readers[t].end]
  {
    hide Reachable, Ownership, SavedLags, Provenance, Truthful, Persisted, FromOneVersion, CutFrom, ReaderLabels,
      HomeContent;
    var objects := SnapshotTheorem(rules, s, t);
    InvariantReachable(rules, s);
    assert ReaderOk(s, s.readers[t]);
    SnapshotIsFile(s, s.readers[t], objects);
  }

  // ---- Crashes ---------------------------------------------------------------

  /** Every object the index on disk references is on disk. */
  ghost predicate Intact(s: Sys) {
    I.Owned(s.saved) <= s.disk.Keys
  }

  /**
   Crash safety, exactly. With successful persists, what a crash at this very moment leaves behind is the index
   from memory or, during a commit, the one from before it; and it references only objects that exist if and
   only if no commit has deleted replaced objects without having persisted yet.
   */
  lemma CrashTheorem(rules: Rules, s: Sys)
    requires Reachable(rules, s) && rules.persistsSucceed && rules.crashesSpareCommits
    ensures SameKeys(s.saved, if s.window.None? then s.index else s.window.value.before)
    ensures Intact(s) <==> !MidCommit(s)
    ensures forall o :: o in I.Owned(s.saved) && o in s.disk ==> o in s.origin && s.disk[o] == s.origin[o].data
    ensures Labelled(s.saved, s.origin)
  {
    InvariantReachable(rules, s);
    if s.window.Some? { SameKeysOwned(s.saved, s.window.value.before); }
    else { SameKeysOwned(s.saved, s.index); }
    hide I.Owned, I.NoSharing, NonEmpty;
    if MidCommit(s) {
      var o :| o in s.window.value.deleted;
      assert o in I.Owned(s.saved) && o !in s.disk;
    }
  }

  /**
   Crash safety at every step. With successful persists, and fetches that follow a revalidation and do not race (see
   `Ready`), a crash may come at any moment at all, also inside a commit and any number of times: what it leaves
   is the index from memory or the one from before the commit in progress, it references only objects that exist,
   and each of them is the complete download its label says.
   */
  lemma CrashSafety(rules: Rules, s: Sys, cs: nat)
    requires Reachable(rules, s) && rules.persistsSucceed && rules.slotsFree
    ensures SameKeys(s.saved, if s.window.None? then s.index else s.window.value.before)
    ensures var restarted := Apply(s, Crash(cs));
      && restarted.index == s.saved && Intact(restarted)
      && Labelled(restarted.index, restarted.origin)
      && forall o :: o in I.Owned(restarted.index) ==>
           o in restarted.disk && o in restarted.origin && restarted.disk[o] == restarted.origin[o].data
  {
    InvariantReachable(rules, s);
    if s.window.Some? { SameKeysOwned(s.saved, s.window.value.before); }
    else { SameKeysOwned(s.saved, s.index); }
    hide I.Owned, I.NoSharing, NonEmpty, I.FreeSlot, Apart;
  }

  // ---- Why revalidation makes a slot free --------------------------------------

  /** All content was recorded with the chunk size in use. */
  ghost predicate OneChunkSize(s: Sys) {
    && (forall p :: I.Content(s.index, p).Some? ==> I.Content(s.index, p).value.chunkSize == s.chunkSize)
    && (forall p :: I.Content(s.saved, p).Some? ==> I.Content(s.saved, p).value.chunkSize == s.chunkSize)
  }

  lemma OneChunkSizeStep(s: Sys, a: Step)
    requires OneChunkSize(s) && Enabled(s, a) && (a.Crash? ==> Max(a.chunkSize, 1) == s.chunkSize)
    ensures OneChunkSize(Apply(s, a))
  {
    if IsSection(a) {
      SectionInherits(s.index, a);
      hide I.RecordListing, I.StoreAttrs, I.Content;
    } else if a.Rename? {
      RenameInherits(s.index, a.p, a.to);
      hide I.Rename, I.Content;
    } else if a.Commit? {
      var f := s.fetches[a.t];
      var ix' := I.Commit(s.index, f.path, f.attrs, s.chunkSize, f.chunk, f.obj).0;
      assert forall q :: q != f.path ==> I.Content(ix', q) == I.Content(s.index, q);
    } else {
      if a.Begin? { SameEntries(s.index, Apply(s, a).index); }
      hide I.Content;
    }
  }

  lemma ChunkSizeStep(s: Sys, a: Step)
    requires Enabled(s, a) && (a.Crash? ==> Max(a.chunkSize, 1) == s.chunkSize)
    ensures Apply(s, a).chunkSize == s.chunkSize
  {
    hide Section, Saves, I.Rename, I.Commit, Displaced, Available, Piece, PieceLow, PieceHigh;
  }

  lemma {:induction false} OneChunkSizeRun(rules: Rules, s: Sys, steps: seq<Step>, s': Sys)
    requires OneChunkSize(s) && Runs(rules, s, steps, s')
    requires forall i :: 0 <= i < |steps| && steps[i].Crash? ==> Max(steps[i].chunkSize, 1) == s.chunkSize
    ensures OneChunkSize(s') && s'.chunkSize == s.chunkSize
    decreases |steps|
  {
    if steps != [] {
      hide OneChunkSize, Enabled, Allowed, Apply;
      OneChunkSizeStep(s, steps[0]);
      ChunkSizeStep(s, steps[0]);
      OneChunkSizeRun(rules, Apply(s, steps[0]), steps[1..], s');
    }
  }

  /**
   While the chunk size never changes, storing the attributes of a revalidation makes every slot of the path free but
   those whose chunk is cached under the very version: exactly the ones a read then fetches.
   */
  lemma RevalidationFreesSlots(s: Sys, a: Step, chunk: nat)
    requires OneChunkSize(s) && Enabled(s, a) && a.PutAttrs?
    ensures var s', v, content := Apply(s, a), VersionOf(a.attrs), I.Content(s.index, a.p);
      I.FreeSlot(s'.index, s'.chunkSize, a.p, v, chunk) <==>
        !(content.Some? && content.value.version == v && chunk in content.value.chunks)
  {
  }
}
