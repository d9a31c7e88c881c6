/**
 Coherence across a rename: the file moves on the remote, and the store follows in a section of its own, with steps of
 other threads in between.
 */
module MachineRenames {
  import opened Base
  import opened Chunks
  import I = CacheIndex
  import opened Machine
  import opened MachineInvariants
  import opened MachineReaders
  import opened MachineTheorems

  /** The download was complete before the move: it was waiting to be committed in state `s`. */
  ghost predicate CompleteIn(s: Sys, f: Fetch) {
    exists t :: t in s.fetches && s.fetches[t] == f && f.placed
  }

  /**
   The steps that may come between the file's move and the store's: any, but no commit of a late download of the old
   path under the version of the moved file, no rename that carries content of that version onto the old path, and no
   other file at the new path. `s0` is the state in which the file moved.
   */
  ghost predicate Between(s0: Sys, s: Sys, a: Step, from: Path, to: Path, file: RemoteFile) {
    match a
    case Commit(t) =>
      t in s.fetches && s.fetches[t].path == from && VersionOf(s.fetches[t].attrs) == VersionAt(file) ==>
        CompleteIn(s0, s.fetches[t]) && s.chunkSize == s0.chunkSize
    case Change(p, g) => p == to ==> g == file
    case Rename(p, q, _) =>
      var content := I.Content(s.index, p);
      q == from && p != from && content.Some? ==> content.value.version != VersionAt(file)
    case _ => true
  }

  ghost predicate RunsBetween(s0: Sys, s: Sys, steps: seq<Step>, s': Sys, from: Path, to: Path, file: RemoteFile)
    decreases |steps|
  {
    if steps == [] then s == s'
    else
      && Enabled(s, steps[0]) && Between(s0, s, steps[0], from, to, file)
      && RunsBetween(s0, Apply(s, steps[0]), steps[1..], s', from, to, file)
  }

  // ---- What is cached stays true of the moved file ------------------------------

  /** Every chunk was downloaded as that chunk of `file`. */
  ghost predicate FromFile(content: I.ContentRef, origin: map<ObjectId, Origin>, file: RemoteFile) {
    forall k :: k in content.chunks ==>
      && content.chunks[k] in origin
      && IsChunk(origin[content.chunks[k]].data, file.bytes, content.chunkSize, k)
  }

  /** Content of `from` under the version of `file` is content of `file`. */
  ghost predicate TrueOf(ix: I.Index, from: Path, origin: map<ObjectId, Origin>, file: RemoteFile) {
    var content := I.Content(ix, from);
    content.Some? && content.value.version == VersionAt(file) ==> FromFile(content.value, origin, file)
  }

  ghost predicate Follows(s: Sys, from: Path, to: Path, file: RemoteFile) {
    && Ownership(s) && SavedLags(s) && Provenance(s)
    && TrueOf(s.index, from, s.origin, file) && TrueOf(s.saved, from, s.origin, file)
    && (to in s.remote ==> s.remote[to] == file)
  }

  lemma TrueInPlace(ix: I.Index, ix': I.Index, from: Path, origin: map<ObjectId, Origin>, file: RemoteFile)
    requires TrueOf(ix, from, origin, file) && InPlace(ix, ix', from)
    ensures TrueOf(ix', from, origin, file)
  {
  }

  lemma TrueFramed(ix: I.Index, from: Path, origin: map<ObjectId, Origin>, file: RemoteFile, o: ObjectId, g: Origin)
    requires TrueOf(ix, from, origin, file) && o !in I.Owned(ix)
    ensures TrueOf(ix, from, origin[o := g], file)
  {
    forall k | I.Content(ix, from).Some? && k in I.Content(ix, from).value.chunks
      ensures I.Content(ix, from).value.chunks[k] != o
    {
      SlotOwned(ix, from, k);
    }
  }

  lemma PlaceFollows(s: Sys, a: Step, from: Path, to: Path, file: RemoteFile)
    requires Follows(s, from, to, file) && Enabled(s, a) && a.Place?
    ensures Follows(Apply(s, a), from, to, file)
  {
    OwnershipStep(s, a);
    ProvenanceStep(s, a);
    var f := s.fetches[a.t];
    assert f.obj in Flying(s);
    var g := Origin(f.path, VersionOf(f.attrs), s.chunkSize, f.chunk, f.data);
    hide I.Owned, I.NoSharing, FromFile, TrueOf, Provenance;
    TrueFramed(s.index, from, s.origin, file, f.obj, g);
    TrueFramed(s.saved, from, s.origin, file, f.obj, g);
  }

  /** A download that was complete when the file moved holds a chunk of the file. */
  lemma CompleteIsTrue(s0: Sys, f: Fetch, from: Path, file: RemoteFile)
    requires Provenance(s0) && Truthful(s0, from) && CompleteIn(s0, f)
    requires f.path == from && from in s0.remote && s0.remote[from] == file && VersionOf(f.attrs) == VersionAt(file)
    ensures IsChunk(f.data, file.bytes, s0.chunkSize, f.chunk)
  {
    var t :| t in s0.fetches && s0.fetches[t] == f && f.placed;
    assert PlacedOrigin(s0, f);
    assert OriginTrue(s0, s0.origin[f.obj]);
  }

  lemma CommitTrue(ix: I.Index, f: Fetch, cs: nat, from: Path, origin: map<ObjectId, Origin>, file: RemoteFile)
    requires TrueOf(ix, from, origin, file) && f.obj in origin
    requires f.path == from && VersionOf(f.attrs) == VersionAt(file) ==>
      IsChunk(origin[f.obj].data, file.bytes, cs, f.chunk)
    ensures TrueOf(I.Commit(ix, f.path, f.attrs, cs, f.chunk, f.obj).0, from, origin, file)
  {
    var ix' := I.Commit(ix, f.path, f.attrs, cs, f.chunk, f.obj).0;
    if f.path != from { assert I.Content(ix', from) == I.Content(ix, from); }
  }

  lemma CommitFollows(s0: Sys, s: Sys, a: Step, from: Path, to: Path, file: RemoteFile)
    requires Provenance(s0) && Truthful(s0, from) && from in s0.remote && s0.remote[from] == file
    requires Follows(s, from, to, file) && Enabled(s, a) && a.Commit? && Between(s0, s, a, from, to, file)
    ensures Follows(Apply(s, a), from, to, file)
  {
    OwnershipStep(s, a);
    ProvenanceStep(s, a);
    var f := s.fetches[a.t];
    assert PlacedOrigin(s, f);
    if f.path == from && VersionOf(f.attrs) == VersionAt(file) { CompleteIsTrue(s0, f, from, file); }
    hide I.Commit, I.NoSharing, TrueOf, IsChunk, I.Owned, Labelled;
    CommitTrue(s.index, f, s.chunkSize, from, s.origin, file);
  }

  lemma OtherFollows(s: Sys, a: Step, from: Path, to: Path, file: RemoteFile)
    requires Follows(s, from, to, file) && Enabled(s, a) && !a.Place? && !a.Commit? && !a.Rename?
    requires a.Change? && a.p == to ==> a.file == file
    ensures Follows(Apply(s, a), from, to, file)
  {
    OwnershipStep(s, a);
    ProvenanceStep(s, a);
    if IsSection(a) { SectionSheds(s.index, a); }
    if a.Begin? { SameEntries(s.index, Apply(s, a).index); }
    hide Ownership, SavedLags, Provenance, Section, I.RecordListing, FromFile, Available, Piece, PieceLow,
      PieceHigh;
    var s' := Apply(s, a);
    assert InPlace(s.index, s'.index, from) || (a.Crash? && s'.index == s.saved);
    hide Apply, I.Content;
    if !a.Crash? { TrueInPlace(s.index, s'.index, from, s.origin, file); }
  }

  lemma RenameTrue(ix: I.Index, p: Path, q: Path, from: Path, origin: map<ObjectId, Origin>, file: RemoteFile)
    requires TrueOf(ix, from, origin, file)
    requires q == from && p != from && I.Content(ix, p).Some? ==> I.Content(ix, p).value.version != VersionAt(file)
    ensures TrueOf(I.Rename(ix, p, q).0, from, origin, file)
  {
    hide FromFile;
  }

  lemma RenameKeepsFollowing(s: Sys, a: Step, from: Path, to: Path, file: RemoteFile)
    requires Follows(s, from, to, file) && Enabled(s, a) && a.Rename? && Between(s, s, a, from, to, file)
    ensures Follows(Apply(s, a), from, to, file)
  {
    OwnershipStep(s, a);
    ProvenanceStep(s, a);
    hide Ownership, SavedLags, Provenance, I.Rename, TrueOf;
    RenameTrue(s.index, a.p, a.to, from, s.origin, file);
  }

  lemma FollowsStep(s0: Sys, s: Sys, a: Step, from: Path, to: Path, file: RemoteFile)
    requires Provenance(s0) && Truthful(s0, from) && from in s0.remote && s0.remote[from] == file
    requires Follows(s, from, to, file) && Enabled(s, a) && Between(s0, s, a, from, to, file)
    ensures Follows(Apply(s, a), from, to, file)
  {
    hide Follows, Enabled, Apply, Provenance, Truthful;
    if a.Place? { PlaceFollows(s, a, from, to, file); }
    else if a.Commit? { CommitFollows(s0, s, a, from, to, file); }
    else if a.Rename? { RenameKeepsFollowing(s, a, from, to, file); }
    else { OtherFollows(s, a, from, to, file); }
  }

  lemma {:induction false} FollowsRun(s0: Sys, s: Sys, steps: seq<Step>, s': Sys, from: Path, to: Path,
                                      file: RemoteFile)
    requires Provenance(s0) && Truthful(s0, from) && from in s0.remote && s0.remote[from] == file
    requires Follows(s, from, to, file) && RunsBetween(s0, s, steps, s', from, to, file)
    ensures Follows(s', from, to, file)
    decreases |steps|
  {
    if steps != [] {
      hide Follows, Enabled, Apply, Provenance, Truthful, Between;
      FollowsStep(s0, s, steps[0], from, to, file);
      FollowsRun(s0, Apply(s, steps[0]), steps[1..], s', from, to, file);
    }
  }

  /** At the moment of the move, what is cached under the file's version is the file's. */
  lemma MoveFollows(s: Sys, from: Path, to: Path)
    requires Ownership(s) && SavedLags(s) && Provenance(s) && Truthful(s, from) && AtHome(s, from) && from in s.remote
    ensures Follows(Apply(s, Change(to, s.remote[from])), from, to, s.remote[from])
  {
    var file, a := s.remote[from], Change(to, s.remote[from]);
    OwnershipStep(s, a);
    ProvenanceStep(s, a);
    HomeIsTrue(s, s.index, from);
    HomeIsTrue(s, s.saved, from);
  }

  lemma HomeIsTrue(s: Sys, ix: I.Index, from: Path)
    requires Truthful(s, from) && Labelled(ix, s.origin) && Home(ix, from, s.origin) && from in s.remote
    ensures TrueOf(ix, from, s.origin, s.remote[from])
  {
    var file := s.remote[from];
    if I.Content(ix, from).Some? && I.Content(ix, from).value.version == VersionAt(file) {
      var content := I.Content(ix, from).value;
      assert LabelledContent(content, s.origin) && HomeContent(from, content.chunks, s.origin);
      forall k | k in content.chunks
        ensures IsChunk(s.origin[content.chunks[k]].data, file.bytes, content.chunkSize, k)
      {
        assert OriginTrue(s, s.origin[content.chunks[k]]);
      }
    }
  }

  // ---- The store follows -------------------------------------------------------

  /** The target of a rename has what the source had, or nothing. */
  lemma RenamedContent(ix: I.Index, from: Path, to: Path)
    requires from in ix.entries
    ensures var content := I.Content(I.Rename(ix, from, to).0, to); content == I.Content(ix, from) || content == None
  {
  }

  lemma LandedCoherent(s: Sys, ix: I.Index, before: I.Index, from: Path, to: Path, file: RemoteFile)
    requires TrueOf(before, from, s.origin, file) && (to in s.remote ==> s.remote[to] == file)
    requires forall o :: o in s.disk ==> o in s.origin && s.disk[o] == s.origin[o].data
    requires I.Content(ix, to) == I.Content(before, from) || I.Content(ix, to) == None
    ensures Coherent(s, ix, to)
  {
    hide I.Content, IsChunk;
  }

  lemma RenameLands(s: Sys, from: Path, to: Path, file: RemoteFile, persisted: bool)
    requires Follows(s, from, to, file) && Enabled(s, Rename(from, to, persisted)) && from in s.index.entries
    ensures var s' := Apply(s, Rename(from, to, persisted));
      Coherent(s', s'.index, to) && (persisted ==> Coherent(s', s'.saved, to))
  {
    RenamedContent(s.index, from, to);
    var s' := Apply(s, Rename(from, to, persisted));
    hide I.Rename, I.Content, Ownership, SavedLags, Labelled, IsChunk;
    LandedCoherent(s', s'.index, s.index, from, to, file);
  }

  /**
   A rename keeps content coherent. The file moves on the remote; after that other threads take any steps (crashes and
   restarts, deletions, revalidations, commits, changes or the disappearance of either path included), except those that
   `Between` names; then the store renames the entry. Its new path is coherent, in the index in memory and, if the
   rename was persisted, in the one on disk. `MachineLimits.MovedContentBreaksCoherence` is the run in which the commit
   of a late download makes the difference.
   */
  lemma RenameFollowsFile(rules: Rules, s: Sys, to: Path, steps: seq<Step>, s1: Sys, persisted: bool)
    requires Reachable(rules, s) && rules.versionsNeverRecur && rules.ownAttributes && rules.nothingMovedOnto
    requires rules.subject in s.remote
    requires RunsBetween(s, Apply(s, Change(to, s.remote[rules.subject])), steps, s1, rules.subject, to,
                         s.remote[rules.subject])
    requires Enabled(s1, Rename(rules.subject, to, persisted)) && rules.subject in s1.index.entries
    ensures var s2 := Apply(s1, Rename(rules.subject, to, persisted));
      Coherent(s2, s2.index, to) && (persisted ==> Coherent(s2, s2.saved, to))
  {
    var from, file := rules.subject, s.remote[rules.subject];
    InvariantReachable(rules, s);
    assert Provenance(s) && Truthful(s, from);
    MoveFollows(s, from, to);
    hide Reachable, Invariant, RunsBetween, Truthful;
    FollowsRun(s, Apply(s, Change(to, file)), steps, s1, from, to, file);
    hide Follows, Apply, Coherent;
    RenameLands(s1, from, to, file, persisted);
  }
}
