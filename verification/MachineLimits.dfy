/** Concrete runs that show which assumptions of the machine's theorems cannot be dropped. */
module MachineLimits {
  import opened Base
  import opened Chunks
  import I = CacheIndex
  import opened Machine
  import opened MachineInvariants
  import opened MachineTheorems

  const A: RemoteFile := RemoteFile([65], None)
  const B: RemoteFile := RemoteFile([66], Some(1))
  const ATTRS: FileAttributes := FileAttributes(File, 1, 0, 0, 0, None, None, None)

  ghost function Fresh(): Sys {
    Sys(1, I.EMPTY, I.EMPTY, map[], map["/f" := A], map[], map[], {}, None, {("/f", Version(1, None))}, map[], {}, {},
        {})
  }

  lemma FreshInitial()
    ensures Initial(Fresh())
  {
    var s := Fresh();
    assert s.seen == set p | p in s.remote :: (p, VersionAt(s.remote[p])) by {
      assert VersionAt(A) == Version(1, None) && "/f" in s.remote;
    }
  }

  const SEEN: (Path, Version) := ("/f", Version(1, None))
  const CONTENT: I.ContentRef := I.ContentRef(Version(1, None), 1, map[0 := 0], None)

  lemma StepRun(rules: Rules, s: Sys, a: Step, s1: Sys, rest: seq<Step>, s': Sys)
    requires Enabled(s, a) && Allowed(rules, s, a) && Apply(s, a) == s1 && Runs(rules, s1, rest, s')
    ensures Runs(rules, s, [a] + rest, s')
  {
    hide Enabled, Allowed, Apply;
    assert ([a] + rest)[0] == a && ([a] + rest)[1..] == rest;
  }

  // The states of the runs below, one function per kind of step.

  ghost function Begun(s: Sys, t: Thread): Sys {
    s.(index := s.index.(nextObject := s.index.nextObject + 1),
       fetches := s.fetches[t := Fetch("/f", ATTRS, 0, s.index.nextObject, [], false)])
  }

  lemma Begins(rules: Rules, s: Sys, t: Thread, rest: seq<Step>, s': Sys)
    requires s.chunkSize == 1 && s.window.None? && t !in s.fetches && !rules.slotsFree
    requires rules.ownAttributes && rules.subject == "/f" ==> SEEN in s.seen
    requires Runs(rules, Begun(s, t), rest, s')
    ensures Runs(rules, s, [Begin(t, "/f", ATTRS, 0)] + rest, s')
  {
    hide Runs;
    StepRun(rules, s, Begin(t, "/f", ATTRS, 0), Begun(s, t), rest, s');
  }

  ghost function Changed(s: Sys, p: Path, file: RemoteFile): Sys {
    s.(remote := s.remote[p := file], seen := s.seen + {(p, VersionAt(file))})
  }

  lemma Changes(rules: Rules, s: Sys, p: Path, file: RemoteFile, rest: seq<Step>, s': Sys)
    requires rules.versionsNeverRecur && p == rules.subject ==> (p, VersionAt(file)) !in s.seen
    requires Runs(rules, Changed(s, p, file), rest, s')
    ensures Runs(rules, s, [Change(p, file)] + rest, s')
  {
    hide Runs;
    StepRun(rules, s, Change(p, file), Changed(s, p, file), rest, s');
  }

  /** Thread `t` downloaded the single byte of the file it found at "/f" and stored it. */
  ghost function Stored(s: Sys, t: Thread, obj: ObjectId, byte: Byte): Sys {
    s.(disk := s.disk[obj := [byte]],
       origin := s.origin[obj := Origin("/f", Version(1, None), 1, 0, [byte])],
       fetches := s.fetches[t := Fetch("/f", ATTRS, 0, obj, [byte], true)], stray := s.stray - {obj})
  }

  lemma Downloads(rules: Rules, s: Sys, t: Thread, obj: ObjectId, byte: Byte, rest: seq<Step>, s': Sys)
    requires s.chunkSize == 1 && "/f" in s.remote && s.remote["/f"].bytes == [byte]
    requires t in s.fetches && s.fetches[t] == Fetch("/f", ATTRS, 0, obj, [], false)
    requires Runs(rules, Stored(s, t, obj, byte), rest, s')
    ensures Runs(rules, s, [Receive(t, 1)] + ([Place(t)] + rest), s')
  {
    hide Runs;
    assert Available(s.fetches[t], 1, s.remote["/f"]) == [byte];
    var s1 := s.(fetches := s.fetches[t := Fetch("/f", ATTRS, 0, obj, [byte], false)]);
    assert [] + [byte][..1] == [byte];
    assert Apply(s, Receive(t, 1)) == s1;
    assert s1.fetches[t := Fetch("/f", ATTRS, 0, obj, [byte], true)] == Stored(s, t, obj, byte).fetches;
    assert Apply(s1, Place(t)) == Stored(s, t, obj, byte);
    StepRun(rules, s1, Place(t), Stored(s, t, obj, byte), rest, s');
    StepRun(rules, s, Receive(t, 1), s1, [Place(t)] + rest, s');
  }

  /** The first commit for "/f", of object 0. */
  ghost function Committed(s: Sys, t: Thread): Sys {
    s.(index := s.index.(entries := s.index.entries["/f" := I.Entry(ATTRS, Some(CONTENT))]),
       fetches := s.fetches - {t}, window := Some(Window(s.index, 0, {}, {})))
  }

  lemma Commits(rules: Rules, s: Sys, t: Thread, byte: Byte, rest: seq<Step>, s': Sys)
    requires s.chunkSize == 1 && s.window.None? && "/f" !in s.index.entries
    requires t in s.fetches && s.fetches[t] == Fetch("/f", ATTRS, 0, 0, [byte], true)
    requires Runs(rules, Committed(s, t), rest, s')
    ensures Runs(rules, s, [Commit(t)] + rest, s')
  {
    hide Runs;
    assert s.freed + {} == s.freed;
    StepRun(rules, s, Commit(t), Committed(s, t), rest, s');
  }

  ghost function Finished(s: Sys): Sys { s.(saved := s.index, window := None) }

  lemma Finishes(rules: Rules, s: Sys, rest: seq<Step>, s': Sys)
    requires s.window.Some? && s.window.value.replaced == {} && Runs(rules, Finished(s), rest, s')
    ensures Runs(rules, s, [FinishCommit(true)] + rest, s')
  {
    hide Runs;
    assert Undeleted(s) == {} && s.stray + {} * s.disk.Keys == s.stray;
    StepRun(rules, s, FinishCommit(true), Finished(s), rest, s');
  }

  // ---- Versions that recur, and attributes of another path --------------------

  /** A download labelled with version A receives the byte of B; then A is at the path and the download is committed. */
  lemma MislabelledRun(rules: Rules, s1: Sys) returns (s: Sys, steps: seq<Step>)
    requires s1.chunkSize == 1 && s1.window.None? && "/f" !in s1.index.entries && "/f" in s1.remote
    requires s1.remote["/f"] == B
    requires s1.fetches == map[0 := Fetch("/f", ATTRS, 0, 0, [], false)]
    requires rules.versionsNeverRecur && rules.subject == "/f" ==> SEEN !in s1.seen
    ensures Runs(rules, s1, steps, s) && !Coherent(s, s.index, "/f")
  {
    var s2 := Stored(s1, 0, 0, 66);
    var s3 := Changed(s2, "/f", A);
    s := Committed(s3, 0);
    WrongByte(s, "/f");
    hide Runs, Coherent;
    Stays(rules, s);
    Commits(rules, s3, 0, 66, [], s);
    Changes(rules, s2, "/f", A, [Commit(0)] + [], s);
    Downloads(rules, s1, 0, 0, 66, [Change("/f", A)] + ([Commit(0)] + []), s);
    steps := [Receive(0, 1)] + ([Place(0)] + ([Change("/f", A)] + ([Commit(0)] + [])));
  }

  /**
   If a version recurs, coherence fails: a download that saw version A, received bytes of version B, and
   committed after A had come back leaves wrong bytes under a current label.
   */
  lemma RecurringVersionBreaksCoherence() returns (s: Sys)
    ensures Reachable(Rules("/f", false, true, true, true, true, true, false), s)
    ensures !Coherent(s, s.index, "/f")
  {
    var rules := Rules("/f", false, true, true, true, true, true, false);
    var s0 := Fresh();
    var s1 := Begun(s0, 0);
    var steps;
    s, steps := MislabelledRun(rules, Changed(s1, "/f", B));
    FreshInitial();
    hide Runs, Coherent, Initial;
    Changes(rules, s1, "/f", B, steps, s);
    Begins(rules, s0, 0, [Change("/f", B)] + steps, s);
  }

  ghost function FreshB(): Sys { Fresh().(remote := map["/f" := B], seen := {("/f", Version(1, Some(1)))}) }

  lemma FreshBInitial()
    ensures Initial(FreshB())
  {
    var s := FreshB();
    assert s.seen == set p | p in s.remote :: (p, VersionAt(s.remote[p])) by {
      assert VersionAt(B) == Version(1, Some(1)) && "/f" in s.remote;
    }
  }

  /**
   If a chunk is fetched under attributes that the remote reported for another path, as a read through a renamed handle
   does, coherence fails as well: the label may be a version that the path only gets later.
   */
  lemma BorrowedAttributesBreakCoherence() returns (s: Sys)
    ensures Reachable(Rules("/f", true, false, true, true, true, true, false), s)
    ensures !Coherent(s, s.index, "/f")
  {
    var rules := Rules("/f", true, false, true, true, true, true, false);
    var s0 := FreshB();
    FreshBInitial();
    var steps;
    s, steps := MislabelledRun(rules, Begun(s0, 0));
    hide Runs, Coherent, Initial;
    Begins(rules, s0, 0, steps, s);
  }

  lemma Stays(rules: Rules, s: Sys)
    ensures Runs(rules, s, [], s)
  {
  }

  /** The cache holds byte 66 under the label of file A, and A is what the remote has. */
  lemma WrongByte(s: Sys, p: Path)
    requires p in s.index.entries && s.index.entries[p].content == Some(CONTENT)
    requires 0 in s.disk && s.disk[0] == [66] && p in s.remote && s.remote[p] == A
    ensures !Coherent(s, s.index, p)
  {
    assert CONTENT.chunks[0] == 0;
    assert A.bytes == [65] && [65][0] != [66][0];
    assert !IsChunk([66], A.bytes, 1, 0) by { assert ChunkSlice(A.bytes, 1, 0) == [65]; }
    assert Current(s, p, CONTENT.version);
  }

  // ---- Content that moves ----------------------------------------------------

  ghost function Renamed(s: Sys): Sys {
    var ix := s.index.(entries := map["/g" := I.Entry(ATTRS, Some(CONTENT))]);
    s.(index := ix, saved := ix)
  }

  lemma Renames(rules: Rules, s: Sys, rest: seq<Step>, s': Sys)
    requires !rules.nothingMovedOnto && !rules.slotsFree && s.window.None?
    requires s.index.entries == map["/f" := I.Entry(ATTRS, Some(CONTENT))] && s.index.listings == map[]
    requires Runs(rules, Renamed(s), rest, s')
    ensures Runs(rules, s, [Rename("/f", "/g", true)] + rest, s')
  {
    hide Runs;
    var a := Rename("/f", "/g", true);
    assert !("/f" + "/" <= "/g") by { assert ("/f" + "/")[1] == 'f' && "/g"[1] == 'g'; }
    var moved := I.Moved(s.index, "/f", "/g");
    assert moved.entries == map["/g" := I.Entry(ATTRS, Some(CONTENT))];
    assert I.Descendants(moved, "/f") == {};
    assert moved.entries - {} == moved.entries && moved.listings - {} == moved.listings;
    assert (set k, o | k in {} && o in I.Held(moved, k) :: o) == {};
    assert I.Rename(s.index, "/f", "/g").1 == {};
    assert I.Rename(s.index, "/f", "/g").0 == Renamed(s).index;
    assert Displaced(s.index, "/f", "/g") == {};
    assert s.freed + {} == s.freed && s.doomed + {} == s.doomed && s.leaked + {} == s.leaked;
    StepRun(rules, s, a, Renamed(s), rest, s');
  }

  /** "/f" is being downloaded; its file has moved to "/g" and another one has taken its place. */
  ghost function Overtaken(): Sys { Changed(Changed(Begun(Fresh(), 0), "/g", A), "/f", B) }

  lemma OvertakenRun(rules: Rules) returns (s: Sys, steps: seq<Step>)
    requires !rules.nothingMovedOnto && !rules.slotsFree
    ensures Runs(rules, Overtaken(), steps, s) && !Coherent(s, s.index, "/g")
  {
    var s3 := Overtaken();
    var s4 := Stored(s3, 0, 0, 66);
    var s5 := Committed(s4, 0);
    var s6 := Finished(s5);
    s := Renamed(s6);
    WrongByte(s, "/g");
    hide Runs, Coherent;
    assert Runs(rules, s, [], s) by { Stays(rules, s); }
    Renames(rules, s6, [], s);
    var tail := [FinishCommit(true)] + ([Rename("/f", "/g", true)] + []);
    Finishes(rules, s5, [Rename("/f", "/g", true)] + [], s);
    Commits(rules, s4, 0, 66, tail, s);
    Downloads(rules, s3, 0, 0, 66, [Commit(0)] + tail, s);
    steps := [Receive(0, 1)] + ([Place(0)] + ([Commit(0)] + tail));
  }

  /**
   A rename that moves content can break coherence even though versions never recur: the file moved away while
   its old path was being downloaded, and the entry followed it under the old label.
   */
  lemma MovedContentBreaksCoherence() returns (s: Sys)
    ensures Reachable(Rules("/g", true, true, false, true, true, true, false), s)
    ensures !Coherent(s, s.index, "/g")
  {
    var rules := Rules("/g", true, true, false, true, true, true, false);
    var steps;
    s, steps := OvertakenRun(rules);
    FreshInitial();
    hide Runs, Coherent, Initial;
    var s0 := Fresh();
    var s1 := Begun(s0, 0);
    var s2 := Changed(s1, "/g", A);
    assert ("/g", Version(1, None)) != SEEN by { assert "/g"[1] == 'g' && "/f"[1] == 'f'; }
    Changes(rules, s2, "/f", B, steps, s);
    Changes(rules, s1, "/g", A, [Change("/f", B)] + steps, s);
    Begins(rules, s0, 0, [Change("/g", A)] + ([Change("/f", B)] + steps), s);
  }

  // ---- A crash inside a commit -----------------------------------------------

  /** The second commit for chunk 0 of "/f", which replaces object 0 by object 1 and deletes object 0. */
  ghost function Replacing(s: Sys, t: Thread): Sys {
    var content := CONTENT.(chunks := map[0 := 1]);
    s.(index := s.index.(entries := s.index.entries["/f" := I.Entry(ATTRS, Some(content))]),
       fetches := s.fetches - {t}, freed := s.freed + {0}, disk := s.disk - {0},
       window := Some(Window(s.index, 1, {0}, {0})))
  }

  lemma Replaces(rules: Rules, s: Sys, t: Thread, byte: Byte, rest: seq<Step>, s': Sys)
    requires s.chunkSize == 1 && s.window.None?
    requires "/f" in s.index.entries && s.index.entries["/f"] == I.Entry(ATTRS, Some(CONTENT))
    requires t in s.fetches && s.fetches[t] == Fetch("/f", ATTRS, 0, 1, [byte], true)
    requires Runs(rules, Replacing(s, t), rest, s')
    ensures Runs(rules, s, [Commit(t)] + ([DeleteReplaced(0)] + rest), s')
  {
    hide Runs;
    var s1 := Replacing(s, t).(disk := s.disk, window := Some(Window(s.index, 1, {0}, {})));
    assert CONTENT.chunks[0 := 1] == map[0 := 1];
    assert Apply(s, Commit(t)) == s1;
    assert {} + {0} == {0};
    assert Apply(s1, DeleteReplaced(0)) == Replacing(s, t);
    StepRun(rules, s1, DeleteReplaced(0), Replacing(s, t), rest, s');
    StepRun(rules, s, Commit(t), s1, [DeleteReplaced(0)] + rest, s');
  }

  /** Both threads have downloaded the chunk. */
  ghost function Raced(): Sys { Stored(Stored(Begun(Begun(Fresh(), 0), 1), 0, 0, 65), 1, 1, 65) }

  lemma RacedRun(rules: Rules) returns (s: Sys, steps: seq<Step>)
    ensures Runs(rules, Raced(), steps, s)
    ensures "/f" in s.saved.entries && s.saved.entries["/f"].content == Some(CONTENT)
    ensures 0 !in s.disk && "/f" in s.remote && s.remote["/f"] == A
  {
    var s5 := Committed(Raced(), 0);
    var s6 := Finished(s5);
    s := Replacing(s6, 1);
    hide Runs;
    assert Runs(rules, s, [], s) by { Stays(rules, s); }
    Replaces(rules, s6, 1, 65, [], s);
    var tail := [Commit(1)] + ([DeleteReplaced(0)] + []);
    Finishes(rules, s5, tail, s);
    Commits(rules, Raced(), 0, 65, [FinishCommit(true)] + tail, s);
    steps := [Commit(0)] + ([FinishCommit(true)] + tail);
  }

  /** The whole run. */
  lemma RaceRun(rules: Rules) returns (s: Sys, steps: seq<Step>)
    requires !rules.slotsFree
    ensures Runs(rules, Fresh(), steps, s)
    ensures "/f" in s.saved.entries && s.saved.entries["/f"].content == Some(CONTENT)
    ensures 0 !in s.disk && "/f" in s.remote && s.remote["/f"] == A
  {
    s, steps := RacedRun(rules);
    hide Runs;
    var s0 := Fresh();
    var s1 := Begun(s0, 0);
    var s2 := Begun(s1, 1);
    var s3 := Stored(s2, 0, 0, 65);
    Downloads(rules, s3, 1, 1, 65, steps, s);
    steps := [Receive(1, 1)] + ([Place(1)] + steps);
    Downloads(rules, s2, 0, 0, 65, steps, s);
    steps := [Receive(0, 1)] + ([Place(0)] + steps);
    Begins(rules, s1, 1, steps, s);
    steps := [Begin(1, "/f", ATTRS, 0)] + steps;
    Begins(rules, s0, 0, steps, s);
    steps := [Begin(0, "/f", ATTRS, 0)] + steps;
  }

  /**
   Two threads that download the same chunk: the second commit deletes the first one's object before it persists.
   A crash in between leaves an index that names, under the current version, an object that is gone.
   */
  lemma CrashInsideCommitLosesAChunk() returns (s: Sys)
    ensures Reachable(Rules("/f", true, true, true, true, true, true, false), s) && !Intact(s)
    ensures var r := Apply(s, Crash(1)); var content := I.Content(r.index, "/f");
      && content.Some? && Current(r, "/f", content.value.version)
      && 0 in content.value.chunks && content.value.chunks[0] !in r.disk
  {
    var steps;
    s, steps := RaceRun(Rules("/f", true, true, true, true, true, true, false));
    FreshInitial();
    LostChunk(s);
    hide Runs, Initial, Intact;
  }

  lemma LostChunk(s: Sys)
    requires "/f" in s.saved.entries && s.saved.entries["/f"].content == Some(CONTENT)
    requires 0 !in s.disk && "/f" in s.remote && s.remote["/f"] == A
    ensures !Intact(s)
    ensures var r := Apply(s, Crash(1)); var content := I.Content(r.index, "/f");
      && content.Some? && Current(r, "/f", content.value.version)
      && 0 in content.value.chunks && content.value.chunks[0] !in r.disk
  {
    assert CONTENT.chunks[0] == 0;
    assert 0 in I.Held(s.saved, "/f");
    assert 0 in I.Owned(s.saved);
  }
}
