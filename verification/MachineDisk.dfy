/** What lies in the cache directory: every object file is accounted for, and what a crash adds is exactly known. */
module MachineDisk {
  import opened Base
  import opened Chunks
  import I = CacheIndex
  import opened Machine
  import opened MachineInvariants
  import opened MachinePersistence
  import opened MachineTheorems

  /** Objects of finished downloads that are not committed yet. */
  function Placed(s: Sys): set<ObjectId> { set t | t in s.fetches && s.fetches[t].placed :: s.fetches[t].obj }

  /** What the session knows of. */
  function Known(s: Sys): set<ObjectId> {
    I.Owned(s.index) + Placed(s) + s.doomed + s.leaked + Undeleted(s)
  }

  /** The open commit exchanged what it replaced for its new object. */
  ghost predicate Exchanged(s: Sys, w: Window) {
    I.Owned(w.before) + {w.obj} == I.Owned(s.index) + w.replaced && w.obj in I.Owned(s.index) - I.Owned(w.before)
  }

  /** Each object on disk is known or stray, and not both. */
  ghost predicate Accounted(s: Sys) {
    && s.disk.Keys <= Known(s) + s.stray
    && s.stray <= s.disk.Keys
    && s.stray !! Known(s)
    && (s.window.Some? ==> s.doomed !! s.window.value.replaced && Exchanged(s, s.window.value))
  }

  lemma PlacedFlies(s: Sys)
    ensures Placed(s) <= Flying(s)
  {
  }

  lemma SamePlaced(s: Sys, s': Sys)
    requires forall t :: t in s.fetches && s.fetches[t].placed <==> t in s'.fetches && s'.fetches[t].placed
    requires forall t :: t in s.fetches && s.fetches[t].placed ==> s'.fetches[t].obj == s.fetches[t].obj
    ensures Placed(s') == Placed(s)
  {
    forall o | o in Placed(s) ensures o in Placed(s') {
      var t :| t in s.fetches && s.fetches[t].placed && s.fetches[t].obj == o;
      assert t in s'.fetches;
    }
    forall o | o in Placed(s') ensures o in Placed(s) {
      var t :| t in s'.fetches && s'.fetches[t].placed && s'.fetches[t].obj == o;
      assert t in s.fetches;
    }
  }

  lemma SectionAccounted(s: Sys, a: Step)
    requires Ownership(s) && Accounted(s) && Enabled(s, a) && IsSection(a)
    ensures Accounted(Apply(s, a))
  {
    SectionSheds(s.index, a);
    var r := Section(s.index, a);
    I.ShedsOwned(s.index, r.0, r.1);
    SamePlaced(s, Apply(s, a));
    hide I.Owned, I.NoSharing, Section, Saves, Placed;
  }

  lemma RenameAccounted(s: Sys, a: Step)
    requires Ownership(s) && Accounted(s) && Enabled(s, a) && a.Rename?
    ensures Accounted(Apply(s, a))
  {
    RenameOwned(s.index, a.p, a.to);
    SamePlaced(s, Apply(s, a));
    hide I.Owned, I.NoSharing, I.Rename, Displaced, Placed;
  }

  lemma PlaceAccounted(s: Sys, a: Step)
    requires Ownership(s) && Accounted(s) && Enabled(s, a) && a.Place?
    ensures Accounted(Apply(s, a))
  {
    hide I.Owned, I.NoSharing, Length, Start, Available;
    var s', f := Apply(s, a), s.fetches[a.t];
    assert f.obj in Flying(s);
    forall o | o in Placed(s) + {f.obj} ensures o in Placed(s') {
      var t :| t in s.fetches && s.fetches[t].obj == o && (s.fetches[t].placed || t == a.t);
      assert t in s'.fetches && s'.fetches[t].placed;
    }
    assert Placed(s') == Placed(s) + {f.obj};
  }

  lemma PlacedMinus(s: Sys, s': Sys, t: Thread)
    requires t in s.fetches && s.fetches[t].placed && s'.fetches == s.fetches - {t}
    requires forall t, u :: t in s.fetches && u in s.fetches && t != u ==> s.fetches[t].obj != s.fetches[u].obj
    ensures Placed(s) == Placed(s') + {s.fetches[t].obj} && s.fetches[t].obj !in Placed(s')
  {
    forall o | o in Placed(s) && o != s.fetches[t].obj ensures o in Placed(s') {
      var u :| u in s.fetches && s.fetches[u].placed && s.fetches[u].obj == o;
      assert u in s'.fetches;
    }
  }

  lemma CommitAccounted(s: Sys, a: Step)
    requires Ownership(s) && Accounted(s) && Enabled(s, a) && a.Commit?
    ensures Accounted(Apply(s, a))
  {
    var s', f := Apply(s, a), s.fetches[a.t];
    assert f.obj in Flying(s);
    I.CommitOwned(s.index, f.path, f.attrs, s.chunkSize, f.chunk, f.obj);
    PlacedMinus(s, s', a.t);
    PlacedFlies(s);
    hide I.Owned, I.NoSharing, I.Commit, Placed, Flying;
  }

  lemma CrashAccounted(s: Sys, a: Step)
    requires Enabled(s, a) && a.Crash?
    ensures Accounted(Apply(s, a))
  {
    hide I.Owned;
  }

  lemma DeletionAccounted(s: Sys, a: Step)
    requires Ownership(s) && Accounted(s) && Enabled(s, a) && (a.Delete? || a.DeleteReplaced? || a.FinishCommit?)
    ensures Accounted(Apply(s, a))
  {
    SamePlaced(s, Apply(s, a));
    PlacedFlies(s);
    hide I.Owned, I.NoSharing, Placed, Flying;
  }

  /** Steps that change neither the references nor the disk nor what is to be deleted. */
  lemma FramedAccounted(s: Sys, s': Sys)
    requires Accounted(s) && I.Owned(s'.index) == I.Owned(s.index) && Placed(s') == Placed(s)
    requires s'.doomed == s.doomed && s'.leaked == s.leaked && s'.stray == s.stray && s'.disk == s.disk
    requires s'.window == s.window
    ensures Accounted(s')
  {
    hide I.Owned, Placed;
  }

  /** A fetch begins, receives or is given up. */
  lemma FetchAccounted(s: Sys, a: Step)
    requires Accounted(s) && Enabled(s, a) && (a.Begin? || a.Receive? || a.Abort?)
    ensures Accounted(Apply(s, a))
  {
    var s' := Apply(s, a);
    hide Accounted, Available, Length, Start, I.Owned, I.NoSharing, I.Content, Placed;
    SameEntries(s.index, s'.index);
    SamePlaced(s, s');
    FramedAccounted(s, s');
  }

  /** Readers and the remote leave the directory alone. */
  lemma OtherAccounted(s: Sys, a: Step)
    requires Accounted(s) && Enabled(s, a)
    requires a.Change? || a.Vanish? || a.OpenRange? || a.ReadNext? || a.CloseRange?
    ensures Accounted(Apply(s, a))
  {
    hide Accounted, Enabled, Apply, Placed;
    NothingOnDisk(s, a);
    SamePlaced(s, Apply(s, a));
    FramedAccounted(s, Apply(s, a));
  }

  lemma NothingOnDisk(s: Sys, a: Step)
    requires Enabled(s, a) && (a.Change? || a.Vanish? || a.OpenRange? || a.ReadNext? || a.CloseRange?)
    ensures var s' := Apply(s, a);
      && s'.index == s.index && s'.fetches == s.fetches && s'.disk == s.disk && s'.window == s.window
      && s'.doomed == s.doomed && s'.leaked == s.leaked && s'.stray == s.stray
  {
    hide Piece, PieceLow, PieceHigh, FirstChunk, LastChunk, I.Content;
  }

  lemma AccountedStep(s: Sys, a: Step)
    requires Ownership(s) && Accounted(s) && Enabled(s, a)
    ensures Accounted(Apply(s, a))
  {
    hide Ownership, Accounted, Enabled, Apply;
    if IsSection(a) { SectionAccounted(s, a); }
    else if a.Rename? { RenameAccounted(s, a); }
    else if a.Place? { PlaceAccounted(s, a); }
    else if a.Commit? { CommitAccounted(s, a); }
    else if a.Crash? { CrashAccounted(s, a); }
    else if a.Delete? || a.DeleteReplaced? || a.FinishCommit? { DeletionAccounted(s, a); }
    else if a.Begin? || a.Receive? || a.Abort? { FetchAccounted(s, a); }
    else { OtherAccounted(s, a); }
  }

  lemma {:induction false} AccountedRuns(rules: Rules, s: Sys, steps: seq<Step>, s': Sys)
    requires Ownership(s) && SavedLags(s) && Accounted(s) && Runs(rules, s, steps, s')
    ensures Accounted(s')
    decreases |steps|
  {
    hide Ownership, SavedLags, Accounted, Enabled, Allowed, Apply;
    if steps != [] {
      OwnershipStep(s, steps[0]);
      AccountedStep(s, steps[0]);
      AccountedRuns(rules, Apply(s, steps[0]), steps[1..], s');
    }
  }

  lemma AccountedReachable(rules: Rules, s: Sys)
    requires Reachable(rules, s)
    ensures Accounted(s)
  {
    hide Accounted, Runs;
    var s0, steps :| Initial(s0) && Runs(rules, s0, steps, s);
    InvariantInit(rules, s0);
    assert Accounted(s0) by { InitialAccounted(s0); }
    AccountedRuns(rules, s0, steps, s);
  }

  lemma InitialAccounted(s: Sys)
    requires Initial(s)
    ensures Accounted(s)
  {
  }

  /**
   The directory. In every interleaving each object file belongs to exactly one kind: referenced, downloaded but not yet
   committed, waiting for deletion, leaked by a rename, being replaced by the open commit, or stray. A download that has
   not finished, and an id not yet allocated, has a file only if that is a stray one.
   */
  lemma DiskTheorem(rules: Rules, s: Sys)
    requires Reachable(rules, s)
    ensures s.disk.Keys <= Known(s) + s.stray && s.stray <= s.disk.Keys
    ensures I.Owned(s.index) !! Placed(s) !! s.doomed !! s.leaked !! Undeleted(s) !! s.stray
    ensures forall o :: o in s.disk && (o >= s.index.nextObject || o in Flying(s) - Placed(s)) ==> o in s.stray
  {
    InvariantReachable(rules, s);
    AccountedReachable(rules, s);
    PlacedFlies(s);
    OwnershipTheorem(rules, s);
    hide I.Owned, I.NoSharing, Placed, Flying;
  }

  /**
   What a crash leaves behind. With successful persists, the stray files after a restart are exactly the files that were
   there of downloads not yet committed, of the commit in progress, of what waited for deletion or had leaked, and the
   stray ones from before.
   */
  lemma CrashLeaves(rules: Rules, s: Sys, cs: nat)
    requires Reachable(rules, s) && rules.persistsSucceed && (rules.crashesSpareCommits || rules.slotsFree)
    ensures Apply(s, Crash(cs)).stray ==
      (Placed(s) + s.doomed + s.leaked + s.stray + (if s.window.Some? then {s.window.value.obj} else {})) * s.disk.Keys
  {
    hide Invariant, Ownership, Accounted, Persisted, Reachable, Placed;
    InvariantReachable(rules, s);
    AccountedReachable(rules, s);
    assert Ownership(s) && Persisted(s) by { InvariantParts(rules, s); }
    if s.window.Some? { LeftOpen(s); } else { LeftClosed(s); }
  }

  lemma InvariantParts(rules: Rules, s: Sys)
    requires Invariant(rules, s) && rules.persistsSucceed && (rules.crashesSpareCommits || rules.slotsFree)
    ensures Ownership(s) && Persisted(s)
  {
  }

  /** Between commits the saved index refers to what the one in memory refers to. */
  lemma LeftClosed(s: Sys)
    requires Ownership(s) && Accounted(s) && Persisted(s) && s.window.None?
    ensures s.disk.Keys - I.Owned(s.saved) == (Placed(s) + s.doomed + s.leaked + s.stray) * s.disk.Keys
  {
    SameKeysOwned(s.saved, s.index);
    PlacedFlies(s);
    hide I.Owned, I.NoSharing, Placed, Flying, NonEmpty;
  }

  /** During a commit it does not refer to the new object, and still to what that replaces. */
  lemma LeftOpen(s: Sys)
    requires Ownership(s) && Accounted(s) && Persisted(s) && s.window.Some?
    ensures s.disk.Keys - I.Owned(s.saved) ==
      (Placed(s) + s.doomed + s.leaked + s.stray + {s.window.value.obj}) * s.disk.Keys
  {
    SameKeysOwned(s.saved, s.window.value.before);
    PlacedFlies(s);
    hide I.Owned, I.NoSharing, Placed, Flying, NonEmpty;
    var w := s.window.value;
    assert I.Owned(s.saved) == I.Owned(w.before);
    forall o | o in s.disk
      ensures o !in I.Owned(w.before) <==> o in Placed(s) + s.doomed + s.leaked + s.stray + {w.obj}
    {
      assert o in w.replaced ==> o in Undeleted(s);
    }
  }

  /** With free slots only crashes make stray files: without one, all that is on disk is referenced or being handled. */
  lemma {:induction false} NoCrashNoStray(rules: Rules, s: Sys, steps: seq<Step>, s': Sys)
    requires Invariant(rules, s) && rules.slotsFree && s.stray == {} && Runs(rules, s, steps, s') && NoCrash(steps)
    ensures s'.stray == {}
    decreases |steps|
  {
    hide Invariant, Enabled, Apply, Allowed, Undeleted;
    if steps != [] {
      InvariantStep(rules, s, steps[0]);
      NothingAdded(rules, s, steps[0]);
      NoCrashNoStray(rules, Apply(s, steps[0]), steps[1..], s');
    }
  }

  lemma NothingAdded(rules: Rules, s: Sys, a: Step)
    requires Invariant(rules, s) && rules.slotsFree && Enabled(s, a) && !a.Crash? && s.stray == {}
    ensures Apply(s, a).stray == {}
  {
    assert Undeleted(s) == {};
    hide Invariant, Undeleted, Section, Saves, I.Rename, I.Commit, Displaced, Available, Piece, PieceLow, PieceHigh;
  }
}
