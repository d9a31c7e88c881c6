/** Concrete runs past the limits of the single-writer results. */
module VfsRuns {
  import opened Base
  import opened RemotePaths
  import opened Chunks
  import I = CacheIndex
  import CM = CacheModel
  import opened VfsModel
  import opened VfsRemote
  import opened VfsLimits
  import opened VfsViews
  import M = VfsMirror
  import R = VfsRefinement
  import N = VfsNodes
  import Negative = VfsNegative
  import F = VfsFreshness
  import CacheReads
  import VfsEviction

  const EMPTY_FILE: FileAttributes := Attributes(File, 0)

  /** One more operation at time 0 in front of a run. */
  lemma First(w: World, op: Op, r: Tree, r': Tree, rest: seq<Timed>, trees: seq<Tree>, w': World)
    requires w.clock == 0 && M.Served(w, op, r, r') && R.Tidy(w, op, r)
    requires trees != [] && trees[0] == r' && R.SingleWriter(Next(w, op, 0), rest, trees, w')
    ensures R.SingleWriter(w, [Timed(op, 0)] + rest, [r] + trees, w')
  {
    hide Next, R.Tidy, Answers;
    var ops := [Timed(op, 0)] + rest;
    assert ops[1..] == rest && ([r] + trees)[1..] == trees;
    assert w.(clock := 0) == w;
  }

  /** The remote answered the one call of the operation. */
  lemma ServedOne(w: World, op: Op, e: Event, r: Tree, r': Tree)
    requires w.clock == 0 && Next(w, op, 0).log == w.log + [e] && !IsQuery(e) && Changes(r, e, r') && TreeOk(r')
    ensures M.Served(w, op, r, r')
  {
    hide Next, Changes;
    assert CallsOf(w, Next(w, op, 0)) == [e];
  }

  lemma Names()
    ensures |"/"| != |"/a"| && |"/"| != |"/b"| && "/a" != "/b"
  {
    assert "/a"[1] != "/b"[1];
  }

  // ---- Falling back to an old size --------------------------------------------

  function Bare(): Tree { map["/" := DirNode] }
  function WithEmpty(): Tree { Bare()["/a" := FileNode(Version(0, Some(0)), [])] }
  function WithByte(): Tree { Bare()["/a" := FileNode(Version(1, Some(0)), [7])] }

  const CREATE_A: Op := OpCreate(ROOT, "a", Ok(EMPTY_FILE))
  const WRITE_A: Op := OpWrite(1, 0, [7], Ok(1))

  lemma AfterCreate(w: World)
    requires w == Next(FreshMount(), CREATE_A, 0)
    ensures w.config == FreshMount().config && w.clock == 0
    ensures w.log == [CreateEvent("/a", 0, Some((ROOT, "a")), Ok(EMPTY_FILE))]
    ensures w.cache.index.entries == map["/a" := I.Entry(EMPTY_FILE, None)]
    ensures w.session.nodeToPath == map[1 := "/", 2 := "/a"] && w.session.handles == map[1 := OpenFile(2, "/a")]
    ensures w.session.validated == map["/a" := 0]
  {
    RootChildren();
    Names();
    hide Join;
  }

  lemma AfterWrite(w: World, w': World)
    requires w == Next(FreshMount(), CREATE_A, 0) && w' == Next(w, WRITE_A, 0)
    ensures w'.config == FreshMount().config && w'.clock == 0 && w'.log == w.log + [WriteEvent("/a", 0, [7], Ok(1))]
    ensures w'.cache.index.entries == map["/a" := I.Entry(EMPTY_FILE, None)]
    ensures w'.session.nodeToPath == map[1 := "/", 2 := "/a"] && w'.session.handles == map[1 := OpenFile(2, "/a")]
    ensures w'.session.validated == map[]
  {
    AfterCreate(w);
    hide Join, Intern;
  }

  lemma CreateServed()
    ensures M.Served(FreshMount(), CREATE_A, Bare(), WithEmpty())
  {
    AfterCreate(Next(FreshMount(), CREATE_A, 0));
    Names();
    hide Next;
    ServedOne(FreshMount(), CREATE_A, CreateEvent("/a", 0, Some((ROOT, "a")), Ok(EMPTY_FILE)), Bare(), WithEmpty());
  }

  lemma WriteServed(w: World)
    requires w == Next(FreshMount(), CREATE_A, 0)
    ensures M.Served(w, WRITE_A, WithEmpty(), WithByte())
  {
    AfterWrite(w, Next(w, WRITE_A, 0));
    Names();
    hide Next;
    assert [7][..1] == [7] && Overwrite([], 0, [7]) == [7];
    ServedOne(w, WRITE_A, WriteEvent("/a", 0, [7], Ok(1)), WithEmpty(), WithByte());
  }

  /**
   A file is created and one byte is written. The revalidation of the next read cannot reach the remote and falls back
   to the empty size the file was created with: the read succeeds with nothing, although the file has a byte.
   */
  lemma FallbackReadsPastAnOldEnd() returns (w: World, ops: seq<Timed>, trees: seq<Tree>)
    ensures R.SingleWriter(FreshMount(), ops, trees, w) && trees != [] && trees[0] == Bare()
    ensures trees[|trees| - 1] == WithByte()
    ensures Read(w, 1, 0, 10, 0, Err(Unavailable), Err(Unavailable), []).1 == Ok([])
    ensures M.Served(w, OpRead(1, 0, 10, Err(Unavailable), Err(Unavailable), []), WithByte(), WithByte())
    ensures Slice(WithByte()["/a"].bytes, 0, 10) == [7]
  {
    var w1 := Next(FreshMount(), CREATE_A, 0);
    w := Next(w1, WRITE_A, 0);
    AfterCreate(w1);
    AfterWrite(w1, w);
    CreateServed();
    WriteServed(w1);
    FallbackRead(w);
    hide Next, M.Served, Read;
    assert R.SingleWriter(w, [], [WithByte()], w);
    First(w1, WRITE_A, WithEmpty(), WithByte(), [], [WithByte()], w);
    ops, trees := [Timed(WRITE_A, 0)] + [], [WithEmpty()] + [WithByte()];
    First(FreshMount(), CREATE_A, Bare(), WithEmpty(), ops, trees, w);
    ops, trees := [Timed(CREATE_A, 0)] + ops, [Bare()] + trees;
  }

  lemma FallbackRead(w: World)
    requires w.config == FreshMount().config && w.clock == 0
    requires w.cache.index.entries == map["/a" := I.Entry(EMPTY_FILE, None)]
    requires w.session.nodeToPath == map[1 := "/", 2 := "/a"] && w.session.handles == map[1 := OpenFile(2, "/a")]
    requires w.session.validated == map[]
    ensures Read(w, 1, 0, 10, 0, Err(Unavailable), Err(Unavailable), []).1 == Ok([])
    ensures M.Served(w, OpRead(1, 0, 10, Err(Unavailable), Err(Unavailable), []), WithByte(), WithByte())
  {
    var op := OpRead(1, 0, 10, Err(Unavailable), Err(Unavailable), []);
    var e := StatEvent("/a", 0, None, Err(Unavailable));
    var w' := Next(w, op, 0);
    assert w.log + [e] + ContentEvents([]) == w.log + [e];
    assert w'.log == w.log + [e];
    assert CallsOf(w, w') == [e];
    Names();
    hide Next;
  }

  // ---- Falling back to an old size when the download is answered -----------------

  function WithTwo(): Tree { Bare()["/a" := FileNode(Version(2, Some(0)), [7, 8])] }

  const STAT_A: Op := OpGetattr(2, Ok(ONE))
  const APPEND_A: Op := OpWrite(1, 1, [8], Ok(1))
  const READ_CUT: Op := OpRead(1, 0, 10, Err(Unavailable), Err(Unavailable), [Ok([7])])

  /** The table of nodes, the handle and the entry of a world in which "/a" is open. */
  ghost predicate OneOpen(w: World, attrs: FileAttributes, stamps: map<Path, Time>) {
    && w.config == FreshMount().config && w.clock == 0 && w.cache.chunkSize == 4
    && w.cache.index.entries == map["/a" := I.Entry(attrs, None)]
    && w.session.nodeToPath == map[1 := "/", 2 := "/a"] && w.session.handles == map[1 := OpenFile(2, "/a")]
    && w.session.validated == stamps
  }

  lemma OneWritten(w: World)
    requires w == Next(Next(FreshMount(), CREATE_A, 0), WRITE_A, 0)
    ensures OneOpen(w, EMPTY_FILE, map[])
  {
    AfterWrite(Next(FreshMount(), CREATE_A, 0), w);
    hide Join, Intern;
  }

  lemma AfterStat(w: World, w': World)
    requires OneOpen(w, EMPTY_FILE, map[]) && w' == Next(w, STAT_A, 0)
    ensures OneOpen(w', ONE, map["/a" := 0])
    ensures M.Served(w, STAT_A, WithByte(), WithByte())
  {
    StatAnswered(w, 2, "/a", ONE);
    var e := StatEvent("/a", 0, None, Ok(ONE));
    assert w'.log == w.log + [e];
    assert CallsOf(w, w') == [e];
    Names();
  }

  lemma AfterAppend(w: World, w': World)
    requires OneOpen(w, ONE, map["/a" := 0]) && w' == Next(w, APPEND_A, 0)
    ensures OneOpen(w', ONE, map[])
    ensures M.Served(w, APPEND_A, WithByte(), WithTwo())
  {
    assert w'.log == w.log + [WriteEvent("/a", 1, [8], Ok(1))];
    Names();
    assert [8][..1] == [8] && [7][..1] == [7] && Overwrite([7], 1, [8]) == [7, 8];
    hide Next;
    ServedOne(w, APPEND_A, WriteEvent("/a", 1, [8], Ok(1)), WithByte(), WithTwo());
  }

  lemma CutRead(w: World)
    requires OneOpen(w, ONE, map[])
    ensures Read(w, 1, 0, 10, 0, Err(Unavailable), Err(Unavailable), [Ok([7])]).1 == Ok([7])
    ensures M.Served(w, READ_CUT, WithTwo(), WithTwo())
    ensures Next(w, READ_CUT, 0).cache.ReadCached("/a", 0, 10) == Ok([7])
  {
    var stat, read := StatEvent("/a", 0, None, Err(Unavailable)), CM.ReadEvent("/a", 0, 1, Ok([7]));
    var w1, w' := w.Logged(stat), Next(w, READ_CUT, 0);
    assert Getattr(w, 2, 0, Err(Unavailable)) == (w1, Ok(FileMetadata(2, ONE)));
    FetchesCut(w.cache);
    CutServed(w, w');
    var s := w.cache.Read("/a", ONE, 0, 10, [Ok([7])]);
    assert w'.cache == s.cache && w'.log == w.log + [stat] + ContentEvents([read]) by {
      hide Getattr, CM.Cache.Read, CM.Cache.ReadCached;
      CachingRead(w, READ_CUT, OpenFile(2, "/a"));
    }
    hide Next, Getattr, CM.Cache.Read, CM.Cache.ReadCached;
  }

  lemma CutServed(w: World, w': World)
    requires w' == Next(w, READ_CUT, 0) && w.clock == 0
    ensures var stat, read := StatEvent("/a", 0, None, Err(Unavailable)), CM.ReadEvent("/a", 0, 1, Ok([7]));
      w'.log == w.log + [stat] + ContentEvents([read]) ==> M.Served(w, READ_CUT, WithTwo(), WithTwo())
  {
    hide Next;
    var stat, read := StatEvent("/a", 0, None, Err(Unavailable)), CM.ReadEvent("/a", 0, 1, Ok([7]));
    assert ContentEvents([read]) == [ContentEvent(read)];
    if w'.log == w.log + [stat] + ContentEvents([read]) { assert CallsOf(w, w') == [stat, ContentEvent(read)]; }
    assert [7, 8][0..1] == [7];
    Names();
  }

  /** The one missing chunk is fetched at its old length, and stays. */
  lemma FetchesCut(c: CM.Cache)
    requires c.chunkSize == 4 && c.index.entries == map["/a" := I.Entry(ONE, None)]
    ensures var s := c.Read("/a", ONE, 0, 10, [Ok([7])]);
      && s.outcome == Ok([7]) && s.events == [CM.ReadEvent("/a", 0, 1, Ok([7]))]
      && s.cache.ReadCached("/a", 0, 10) == Ok([7])
  {
    var script: CM.Script := [Ok([7])];
    ChunkFetched(c);
    var f := c.FetchChunk("/a", ONE, 0, script);
    ChunkRead(f.cache);
    hide CM.Cache.FetchChunk, CM.Cache.ReadCached, CM.Cache.ReadRange, CM.Cache.Hydrate;
    CacheReads.HydrateFetches(c, "/a", ONE, 0, 0, script);
    CacheReads.HydrateSkips(f.cache, "/a", ONE, 1, 0, f.rest);
    assert f.events + [] == f.events;
  }

  /** A cache whose only content is the byte 7 of "/a", in chunks of four. */
  ghost predicate HasCut(c: CM.Cache) {
    && c.chunkSize == 4 && "/a" in c.index.entries
    && var content := I.Content(c.index, "/a");
      && content.Some? && content.value.version == VersionOf(ONE) && content.value.chunkSize == 4
      && 0 in content.value.chunks && content.value.chunks[0] in c.disk && c.disk[content.value.chunks[0]] == [7]
  }

  lemma ChunkFetched(c: CM.Cache)
    requires c.chunkSize == 4 && c.index.entries == map["/a" := I.Entry(ONE, None)]
    ensures var f := c.FetchChunk("/a", ONE, 0, [Ok([7])]);
      f.outcome.Ok? && f.events == [CM.ReadEvent("/a", 0, 1, Ok([7]))] && HasCut(f.cache)
  {
    var script: CM.Script := [Ok([7])];
    CM.DownloadStep("/a", 0, 1, [], script);
    CM.DownloadStep("/a", 0, 1, [7], []);
    assert [] + [7] == [7] && script[1..] == [];
    hide CM.Download;
  }

  lemma ChunkRead(c: CM.Cache)
    requires HasCut(c)
    ensures c.ReadRange("/a", 0, 1) == Ok([7]) && c.ReadCached("/a", 0, 10) == Ok([7])
  {
    hide CM.Cache.Collect, CM.Cache.ReadRange, I.Content;
    ChunkCollected(c, I.Content(c.index, "/a").value.chunks);
    RangeIsCollected(c, "/a", 0, 1);
    assert ReadEnd(0, 10, 1) == 1;
  }

  lemma RangeIsCollected(c: CM.Cache, p: Path, offset: nat, end: nat)
    requires offset < end && I.Content(c.index, p).Some? && I.Content(c.index, p).value.chunkSize == c.chunkSize
    ensures FirstChunk(offset, c.chunkSize) <= LastChunk(end, c.chunkSize) + 1
    ensures c.ReadRange(p, offset, end) ==
      c.Collect(I.Content(c.index, p).value.chunks, offset, end, LastChunk(end, c.chunkSize) + 1)
  {
    hide CM.Cache.Collect, I.Content;
    InRange(offset, end, c.chunkSize, 0);
  }

  lemma ChunkCollected(c: CM.Cache, chunks: map<nat, ObjectId>)
    requires c.chunkSize == 4 && 0 in chunks && chunks[0] in c.disk && c.disk[chunks[0]] == [7]
    ensures FirstChunk(0, 4) == 0 && LastChunk(1, 4) == 0 && c.Collect(chunks, 0, 1, 1) == Ok([7])
  {
    assert c.Collect(chunks, 0, 1, 0) == Ok([]);
    assert Piece([7], 0, 1) == [7] && [] + [7] == [7];
  }

  /**
   A file is created, a byte is written and reported, and another byte is written. The revalidation of the next read
   cannot reach the remote and falls back to the size of one byte, but the download is answered: the read returns one
   byte of the two. What it fetched stays, and reading from the cache alone gives the one byte again.
   */
  lemma FallbackReadsATruncatedFile() returns (w: World, ops: seq<Timed>, trees: seq<Tree>)
    ensures R.SingleWriter(FreshMount(), ops, trees, w) && trees != [] && trees[0] == Bare()
    ensures trees[|trees| - 1] == WithTwo()
    ensures Read(w, 1, 0, 10, 0, Err(Unavailable), Err(Unavailable), [Ok([7])]).1 == Ok([7])
    ensures M.Served(w, READ_CUT, WithTwo(), WithTwo()) && Next(w, READ_CUT, 0).cache.ReadCached("/a", 0, 10) == Ok([7])
    ensures Slice(WithTwo()["/a"].bytes, 0, 10) == [7, 8]
  {
    var w1 := Next(FreshMount(), CREATE_A, 0);
    var w2 := Next(w1, WRITE_A, 0);
    var w3 := Next(w2, STAT_A, 0);
    w := Next(w3, APPEND_A, 0);
    CreateServed();
    WriteServed(w1);
    AfterCreate(w1);
    OneWritten(w2);
    AfterStat(w2, w3);
    AfterAppend(w3, w);
    CutRead(w);
    hide Next, M.Served, Read;
    assert R.SingleWriter(w, [], [WithTwo()], w);
    assert R.Tidy(w3, APPEND_A, WithByte()) && R.Tidy(w2, STAT_A, WithByte()) && R.Tidy(w1, WRITE_A, WithEmpty())
      && R.Tidy(FreshMount(), CREATE_A, Bare());
    hide R.SingleWriter, R.Tidy;
    First(w3, APPEND_A, WithByte(), WithTwo(), [], [WithTwo()], w);
    ops, trees := [Timed(APPEND_A, 0)] + [], [WithByte()] + [WithTwo()];
    First(w2, STAT_A, WithByte(), WithByte(), ops, trees, w);
    ops, trees := [Timed(STAT_A, 0)] + ops, [WithByte()] + trees;
    First(w1, WRITE_A, WithEmpty(), WithByte(), ops, trees, w);
    ops, trees := [Timed(WRITE_A, 0)] + ops, [WithEmpty()] + trees;
    First(FreshMount(), CREATE_A, Bare(), WithEmpty(), ops, trees, w);
    ops, trees := [Timed(CREATE_A, 0)] + ops, [Bare()] + trees;
  }

  // ---- A handle whose file was renamed ----------------------------------------

  const RENAME_A: Op := OpRename(ROOT, "a", ROOT, "b", Ok(()))
  const WRITE_NEW: Op := OpWrite(2, 0, [7], Ok(1))

  function Moved(): Tree { Bare()["/b" := FileNode(Version(0, Some(0)), [])] }
  function MovedAndNew(): Tree { Moved()["/a" := FileNode(Version(0, Some(0)), [])] }
  function MovedAndByte(): Tree { Moved()["/a" := FileNode(Version(1, Some(0)), [7])] }

  lemma AfterRename(w: World, w': World)
    requires w == Next(FreshMount(), CREATE_A, 0) && w' == Next(w, RENAME_A, 0)
    ensures w'.config == FreshMount().config && w'.clock == 0
    ensures w'.log == w.log + [RenameEvent("/a", 0, Some((ROOT, "a")), "/b", (ROOT, "b"), Ok(()))]
    ensures w'.cache.index.entries == map["/b" := I.Entry(EMPTY_FILE, None)]
    ensures w'.session.nodeToPath == map[1 := "/", 2 := "/b"] && w'.session.pathToNode == map["/" := 1, "/b" := 2]
    ensures w'.session.handles == map[1 := OpenFile(2, "/a")] && w'.session.nextHandle == 2 && w'.session.nextNode == 3
    ensures w'.session.validated == map[]
  {
    AfterCreate(w);
    AfterCreateTables(w);
    RootChildren();
    Names();
    hide Join;
    RenameCalls(w, RENAME_A, "/a", "/b");
    hide Next;
    EntryMoves(w.cache.index);
    VfsEviction.RenamedEntries(w.cache, "/a", "/b", "/", "/");
    hide I.Rename, CM.Cache.Rename, CM.Cache.InvalidateChildren;
    assert RenamePath(w.session, "/a", "/b").pathToNode == map["/" := 1, "/b" := 2];
    assert RenamePath(w.session, "/a", "/b").nodeToPath == map[1 := "/", 2 := "/b"];
  }

  lemma EntryMoves(ix: I.Index)
    requires ix.entries == map["/a" := I.Entry(EMPTY_FILE, None)]
    ensures I.Rename(ix, "/a", "/b").0.entries == map["/b" := I.Entry(EMPTY_FILE, None)]
  {
    assert !("/a" + "/" <= "/b") by { assert ("/a" + "/")[1] == 'a' && "/b"[1] == 'b'; }
    var moved := I.Moved(ix, "/a", "/b");
    assert moved.entries == map["/b" := I.Entry(EMPTY_FILE, None)];
    assert I.Descendants(moved, "/a") == {};
    assert moved.entries - {} == moved.entries;
  }

  lemma AfterCreateTables(w: World)
    requires w == Next(FreshMount(), CREATE_A, 0)
    ensures w.session.pathToNode == map["/" := 1, "/a" := 2] && w.session.nextHandle == 2 && w.session.nextNode == 3
  {
    RootChildren();
    Names();
    hide Join;
  }

  lemma AfterSecondCreate(w: World, w': World)
    requires w == Next(Next(FreshMount(), CREATE_A, 0), RENAME_A, 0) && w' == Next(w, CREATE_A, 0)
    ensures w'.config == FreshMount().config && w'.clock == 0
    ensures w'.log == w.log + [CreateEvent("/a", 0, Some((ROOT, "a")), Ok(EMPTY_FILE))]
    ensures w'.cache.index.entries == map["/b" := I.Entry(EMPTY_FILE, None), "/a" := I.Entry(EMPTY_FILE, None)]
    ensures w'.session.nodeToPath == map[1 := "/", 2 := "/b", 3 := "/a"]
    ensures w'.session.handles == map[1 := OpenFile(2, "/a"), 2 := OpenFile(3, "/a")]
    ensures w'.session.validated == map["/a" := 0]
  {
    AfterRename(Next(FreshMount(), CREATE_A, 0), w);
    RootChildren();
    Names();
    hide Join;
  }

  lemma AfterNewWrite(w: World, w': World)
    requires w == Next(Next(Next(FreshMount(), CREATE_A, 0), RENAME_A, 0), CREATE_A, 0) && w' == Next(w, WRITE_NEW, 0)
    ensures w'.config == FreshMount().config && w'.clock == 0 && w'.log == w.log + [WriteEvent("/a", 0, [7], Ok(1))]
    ensures w'.session.nodeToPath == map[1 := "/", 2 := "/b", 3 := "/a"] && w'.session.validated == map[]
    ensures w'.session.handles == map[1 := OpenFile(2, "/a"), 2 := OpenFile(3, "/a")]
  {
    AfterSecondCreate(Next(Next(FreshMount(), CREATE_A, 0), RENAME_A, 0), w);
    hide Join, Intern;
  }

  lemma FileMoves()
    ensures TreeMoved(WithEmpty(), "/a", "/b", Moved()) && (forall k :: k in WithEmpty() ==> !Under("/b", k))
    ensures !Under("/a", "/b")
  {
    Names();
    assert ("/a" + "/")[1] == 'a' && ("/b" + "/")[1] == 'b' && "/b"[1] == 'b' && "/a"[1] == 'a';
    assert "/a" + "/b"[2..] == "/a";
    forall k
      ensures k in Moved() <==>
        if Under("/b", k) then "/a" + k[2..] in WithEmpty() else k in WithEmpty() && !Under("/a", k)
      ensures k in Moved() ==> Moved()[k] == if Under("/b", k) then WithEmpty()["/a" + k[2..]] else WithEmpty()[k]
    {
      if "/b" + "/" <= k { assert |"/a" + k[2..]| > 2; }
    }
  }

  lemma RenameServed(w: World)
    requires w == Next(FreshMount(), CREATE_A, 0)
    ensures M.Served(w, RENAME_A, WithEmpty(), Moved()) && R.Tidy(w, RENAME_A, WithEmpty())
  {
    AfterRename(w, Next(w, RENAME_A, 0));
    AfterCreate(w);
    RootChildren();
    Names();
    FileMoves();
    hide Next, Under, TreeMoved, Join;
    ServedOne(w, RENAME_A, RenameEvent("/a", 0, Some((ROOT, "a")), "/b", (ROOT, "b"), Ok(())), WithEmpty(), Moved());
  }

  lemma NewServed(w: World, w': World)
    requires w == Next(Next(FreshMount(), CREATE_A, 0), RENAME_A, 0) && w' == Next(w, CREATE_A, 0)
    ensures M.Served(w, CREATE_A, Moved(), MovedAndNew()) && M.Served(w', WRITE_NEW, MovedAndNew(), MovedAndByte())
  {
    AfterRename(Next(FreshMount(), CREATE_A, 0), w);
    AfterSecondCreate(w, w');
    AfterNewWrite(w', Next(w', WRITE_NEW, 0));
    Names();
    hide Next;
    ServedOne(w, CREATE_A, CreateEvent("/a", 0, Some((ROOT, "a")), Ok(EMPTY_FILE)), Moved(), MovedAndNew());
    assert [7][..1] == [7] && Overwrite([], 0, [7]) == [7];
    ServedOne(w', WRITE_NEW, WriteEvent("/a", 0, [7], Ok(1)), MovedAndNew(), MovedAndByte());
  }

  /**
   A file is created and renamed, and a new one of one byte takes its name. The handle of the first still has the old
   path, but is clipped at the size of the renamed file: reading through it gives nothing, while reading the remote at
   the handle's path gives the byte.
   */
  lemma RenamedHandleReadsNothing() returns (w: World, ops: seq<Timed>, trees: seq<Tree>)
    ensures R.SingleWriter(FreshMount(), ops, trees, w) && trees != [] && trees[0] == Bare()
    ensures trees[|trees| - 1] == MovedAndByte()
    ensures 1 in w.session.handles && w.session.handles[1].path == "/a"
    ensures Read(w, 1, 0, 10, 0, Ok(EMPTY_FILE), Err(Unavailable), []).1 == Ok([])
    ensures M.Served(w, OpRead(1, 0, 10, Ok(EMPTY_FILE), Err(Unavailable), []), MovedAndByte(), MovedAndByte())
    ensures Slice(MovedAndByte()["/a"].bytes, 0, 10) == [7]
  {
    var w1 := Next(FreshMount(), CREATE_A, 0);
    var w2 := Next(w1, RENAME_A, 0);
    var w3 := Next(w2, CREATE_A, 0);
    w := Next(w3, WRITE_NEW, 0);
    AfterCreate(w1);
    AfterRename(w1, w2);
    AfterSecondCreate(w2, w3);
    AfterNewWrite(w3, w);
    CreateServed();
    RenameServed(w1);
    NewServed(w2, w3);
    MovedRead(w);
    hide Next, M.Served, Read;
    assert R.SingleWriter(w, [], [MovedAndByte()], w);
    assert R.Tidy(w3, WRITE_NEW, MovedAndNew()) && R.Tidy(w2, CREATE_A, Moved())
      && R.Tidy(FreshMount(), CREATE_A, Bare());
    hide R.SingleWriter, R.Tidy;
    First(w3, WRITE_NEW, MovedAndNew(), MovedAndByte(), [], [MovedAndByte()], w);
    ops, trees := [Timed(WRITE_NEW, 0)] + [], [MovedAndNew()] + [MovedAndByte()];
    First(w2, CREATE_A, Moved(), MovedAndNew(), ops, trees, w);
    ops, trees := [Timed(CREATE_A, 0)] + ops, [Moved()] + trees;
    First(w1, RENAME_A, WithEmpty(), Moved(), ops, trees, w);
    ops, trees := [Timed(RENAME_A, 0)] + ops, [WithEmpty()] + trees;
    First(FreshMount(), CREATE_A, Bare(), WithEmpty(), ops, trees, w);
    ops, trees := [Timed(CREATE_A, 0)] + ops, [Bare()] + trees;
  }

  lemma MovedRead(w: World)
    requires w.config == FreshMount().config && w.clock == 0
    requires w.session.nodeToPath == map[1 := "/", 2 := "/b", 3 := "/a"] && w.session.validated == map[]
    requires w.session.handles == map[1 := OpenFile(2, "/a"), 2 := OpenFile(3, "/a")]
    ensures Read(w, 1, 0, 10, 0, Ok(EMPTY_FILE), Err(Unavailable), []).1 == Ok([])
    ensures M.Served(w, OpRead(1, 0, 10, Ok(EMPTY_FILE), Err(Unavailable), []), MovedAndByte(), MovedAndByte())
  {
    var op := OpRead(1, 0, 10, Ok(EMPTY_FILE), Err(Unavailable), []);
    var e := StatEvent("/b", 0, None, Ok(EMPTY_FILE));
    var w' := Next(w, op, 0);
    assert w.log + [e] + ContentEvents([]) == w.log + [e];
    assert w'.log == w.log + [e];
    assert CallsOf(w, w') == [e];
    Names();
    hide Next, CM.Cache.PutAttrs;
  }

  // ---- Attributes borrowed through a renamed handle ----------------------------

  const UNLINK_A: Op := OpUnlink(ROOT, "a", Ok(()))
  const BORROW: Op := OpRead(1, 0, 10, Ok(ONE), Err(Unavailable), [Ok([7])])

  lemma AfterUnlink(w: World, w': World)
    requires w == Next(Next(Next(FreshMount(), CREATE_A, 0), RENAME_A, 0), CREATE_A, 0) && w' == Next(w, UNLINK_A, 0)
    ensures w'.config == FreshMount().config && w'.clock == 0 && w'.cache.chunkSize == 4
    ensures w'.log == w.log + [UnlinkEvent("/a", 0, Some((ROOT, "a")), Ok(()))]
    ensures w'.cache.index.entries == map["/b" := I.Entry(EMPTY_FILE, None)]
    ensures w'.session.nodeToPath == map[1 := "/", 2 := "/b", 3 := "/a"] && w'.session.validated == map["/a" := 0]
    ensures w'.session.handles == map[1 := OpenFile(2, "/a"), 2 := OpenFile(3, "/a")]
  {
    AfterSecondCreate(Next(Next(FreshMount(), CREATE_A, 0), RENAME_A, 0), w);
    RootChildren();
    Names();
    SizeKept(w);
    UnlinkCalls(w, UNLINK_A, "/a");
    hide Next, Join;
    assert w.cache.Remove("/a").InvalidateChildren("/").index.entries == w.cache.index.entries - {"/a"};
  }

  /** What a successful unlink does, all in one. */
  lemma UnlinkCalls(w: World, op: Op, p: Path)
    requires op.OpUnlink? && op.done.Ok? && !w.config.readOnly && ChildOf(w.session, op.parent, op.name) == Ok(p)
    ensures op.parent in w.session.nodeToPath
    ensures Next(w, op, w.clock) ==
      w.(cache := w.cache.Remove(p).InvalidateChildren(w.session.nodeToPath[op.parent]),
         session := w.session.(negative := w.session.negative[(op.parent, op.name) := w.clock]),
         log := w.log + [UnlinkEvent(p, w.clock, Some((op.parent, op.name)), op.done)])
  {
    hide Join, CM.Cache.Remove, CM.Cache.InvalidateChildren;
  }

  lemma SizeKept(w: World)
    requires w == Next(Next(Next(FreshMount(), CREATE_A, 0), RENAME_A, 0), CREATE_A, 0)
    ensures w.cache.chunkSize == 4
  {
    hide Join, Intern;
  }

  /** One byte is fetched for a path that nothing is known of. */
  lemma FetchesByte(c: CM.Cache)
    requires c.chunkSize == 4 && "/a" !in c.index.entries
    ensures c.Read("/a", ONE, 0, 10, [Ok([7])]).cache.Attrs("/a") == Some(ONE)
  {
    var script: CM.Script := [Ok([7])];
    CM.DownloadStep("/a", 0, 1, [], script);
    CM.DownloadStep("/a", 0, 1, [7], []);
    assert [] + [7] == [7] && script[1..] == [];
    CacheReads.HydrateFetches(c, "/a", ONE, 0, 0, script);
    var f := c.FetchChunk("/a", ONE, 0, script);
    assert f.outcome.Ok? && f.cache.Attrs("/a") == Some(ONE);
    CacheReads.HydrateSkips(f.cache, "/a", ONE, 1, 0, f.rest);
  }

  lemma AfterBorrow(w: World, w': World)
    requires w.config == FreshMount().config && w.clock == 1 && w.cache.chunkSize == 4
    requires w.cache.index.entries == map["/b" := I.Entry(EMPTY_FILE, None)]
    requires w.session.nodeToPath == map[1 := "/", 2 := "/b", 3 := "/a"] && w.session.validated == map["/a" := 0]
    requires w.session.handles == map[1 := OpenFile(2, "/a"), 2 := OpenFile(3, "/a")]
    requires w' == Next(w, BORROW, 1)
    ensures w'.config == w.config && w'.cache.Attrs("/a") == Some(ONE)
    ensures w'.session.nodeToPath == w.session.nodeToPath && "/a" in w'.session.validated
    ensures w'.session.validated["/a"] == 0
    ensures w.log + [StatEvent("/b", 1, None, Ok(ONE))] <= w'.log
    ensures forall i :: |w.log| + 1 <= i < |w'.log| ==> w'.log[i].ContentEvent?
  {
    Names();
    var c := w.cache.PutAttrs("/b", ONE);
    assert "/a" !in c.index.entries && c.chunkSize == 4;
    FetchesByte(c);
    hide CM.Cache.PutAttrs, CM.Cache.Read, CM.Cache.Attrs;
    var w1 := w.Logged(StatEvent("/b", 1, None, Ok(ONE))).(cache := c).Stamped("/b", 1);
    StatAnswered(w, 2, "/b", ONE);
    CachingRead(w, BORROW, OpenFile(2, "/a"));
    hide Next, Getattr;
    var s := c.Read("/a", ONE, 0, 10, [Ok([7])]);
    assert w' == w1.(cache := s.cache, log := w1.log + ContentEvents(s.events));
  }

  /** A getattr that has to ask. */
  lemma StatAnswered(w: World, node: NodeId, p: Path, attrs: FileAttributes)
    requires node in w.session.nodeToPath && w.session.nodeToPath[node] == p && !w.IsOffline()
    requires p !in w.session.validated
    ensures Getattr(w, node, w.clock, Ok(attrs)) ==
      (w.Logged(StatEvent(p, w.clock, None, Ok(attrs))).(cache := w.cache.PutAttrs(p, attrs)).Stamped(p, w.clock),
       Ok(FileMetadata(node, attrs)))
  {
    hide CM.Cache.PutAttrs;
  }

  /** A caching read whose revalidation succeeds. */
  lemma CachingRead(w: World, op: Op, file: OpenFile)
    requires op.OpRead? && w.config.mode.OnDemand? && op.handle in w.session.handles
    requires w.session.handles[op.handle] == file
    requires Getattr(w, file.node, w.clock, op.attrs).1.Ok?
    ensures var (w1, meta) := Getattr(w, file.node, w.clock, op.attrs);
      var s := w1.cache.Read(file.path, meta.value.attributes, op.offset, op.size, op.script);
      Next(w, op, w.clock) == w1.(cache := s.cache, log := w1.log + ContentEvents(s.events))
  {
    hide Getattr, CM.Cache.Read, ContentEvents;
  }

  lemma NeverReported(w: World, w3: World, w4: World, w5: World)
    requires w3.log == [CreateEvent("/a", 0, Some((ROOT, "a")), Ok(EMPTY_FILE)),
                        RenameEvent("/a", 0, Some((ROOT, "a")), "/b", (ROOT, "b"), Ok(())),
                        CreateEvent("/a", 0, Some((ROOT, "a")), Ok(EMPTY_FILE))]
    requires w4.log == w3.log + [UnlinkEvent("/a", 0, Some((ROOT, "a")), Ok(()))]
    requires w5.log == w4.log && w5.log + [StatEvent("/b", 1, None, Ok(ONE))] <= w.log
    requires forall i :: |w5.log| + 1 <= i < |w.log| ==> w.log[i].ContentEvent?
    ensures !F.Recent(w, "/a", ONE, 5)
  {
    Names();
    assert w.log[..5] == w5.log + [StatEvent("/b", 1, None, Ok(ONE))];
    forall i: int, t: Time | 0 <= i < |w.log|
      ensures !F.Reports(w.log[i], "/a", ONE, t)
    {
      if i < 5 { assert w.log[i] == w.log[..5][i]; }
    }
  }

  /**
   A file is created at "/a" and renamed to "/b", and a new "/a" is created and removed, which leaves its stamp. When
   somebody else puts a file there, a read through the first handle records it under the attributes of "/b"; and a
   getattr of "/a" is then answered with those, without a call, although the remote never reported them for "/a".
   */
  lemma BorrowedAttributesStayFresh() returns (w: World, ops: seq<Timed>)
    ensures Runs(FreshMount(), ops, w)
    ensures Getattr(w, 3, 5, Err(Unavailable)) == (w, Ok(FileMetadata(3, ONE)))
    ensures 3 in w.session.nodeToPath && w.session.nodeToPath[3] == "/a" && !F.Recent(w, "/a", ONE, 5)
  {
    var w1 := Next(FreshMount(), CREATE_A, 0);
    var w2 := Next(w1, RENAME_A, 0);
    var w3 := Next(w2, CREATE_A, 0);
    var w4 := Next(w3, UNLINK_A, 0);
    var w5 := w4.(clock := 1);
    w := Next(w5, BORROW, 1);
    AfterCreate(w1);
    AfterRename(w1, w2);
    AfterSecondCreate(w2, w3);
    AfterUnlink(w3, w4);
    AfterBorrow(w5, w);
    assert w3.log == [CreateEvent("/a", 0, Some((ROOT, "a")), Ok(EMPTY_FILE)),
                      RenameEvent("/a", 0, Some((ROOT, "a")), "/b", (ROOT, "b"), Ok(())),
                      CreateEvent("/a", 0, Some((ROOT, "a")), Ok(EMPTY_FILE))];
    NeverReported(w, w3, w4, w5);
    hide Next, F.Recent;
    assert Runs(w, [], w);
    Precede(w4, BORROW, 1, [], w);
    ops := [Timed(BORROW, 1)] + [];
    Precede(w3, UNLINK_A, 0, ops, w);
    ops := [Timed(UNLINK_A, 0)] + ops;
    Precede(w2, CREATE_A, 0, ops, w);
    ops := [Timed(CREATE_A, 0)] + ops;
    Precede(w1, RENAME_A, 0, ops, w);
    ops := [Timed(RENAME_A, 0)] + ops;
    Precede(FreshMount(), CREATE_A, 0, ops, w);
    ops := [Timed(CREATE_A, 0)] + ops;
  }

  lemma Precede(w: World, op: Op, now: Time, rest: seq<Timed>, w': World)
    requires w.clock <= now && Runs(Next(w.(clock := now), op, now), rest, w')
    ensures Runs(w, [Timed(op, now)] + rest, w')
  {
    assert ([Timed(op, now)] + rest)[1..] == rest;
    hide Next;
  }

  // ---- A listed name that is still missing --------------------------------------

  const MISS_A: Op := OpLookup(ROOT, "a", Err(NotFound))
  const LIST_A: Op := OpReaddir(ROOT, Ok([("a", ONE)]))

  /**
   "a" is looked up and not there; then it is listed; and the next lookup still says, without a call, that it is not
   there.
   */
  lemma ListedNameStaysMissing() returns (w: World, ops: seq<Timed>)
    ensures Runs(FreshMount(), ops, w) && |w.log| == 2 && w.log[1] == ReadDirEvent("/", 1, Ok([("a", ONE)]))
    ensures Lookup(w, ROOT, "a", 2, Ok(ONE)) == (w, Err(NotFound))
  {
    RootChildren();
    hide Join;
    var w1 := Next(FreshMount(), MISS_A, 0);
    var w2 := w1.(clock := 1);
    w := Next(w2, LIST_A, 1);
    N.MountOk(FreshMount().config, FreshMount().cache);
    N.LookupNodes(FreshMount(), MISS_A, 0);
    assert w1.session.negative == map[(ROOT, "a") := 0] && w1.session.nodeToPath == map[1 := "/"];
    assert w1.log == [StatEvent("/a", 0, Some((ROOT, "a")), Err(NotFound))];
    ListReaches(w2, w);
    Negative.ListingDoesNotRestore(w2, LIST_A, ROOT, "a", 2, Ok(ONE));
    hide Next, Lookup;
    assert Runs(w, [], w);
    Precede(w1, LIST_A, 1, [], w);
    ops := [Timed(LIST_A, 1)] + [];
    Precede(FreshMount(), MISS_A, 0, ops, w);
    ops := [Timed(MISS_A, 0)] + ops;
  }

  lemma ListReaches(w: World, w': World)
    requires w' == Next(w, LIST_A, 1) && w.clock == 1 && 1 in w.session.nodeToPath && w.session.nodeToPath[1] == "/"
    requires !w.IsOffline() && w.session.validated == map[]
    ensures w'.log == w.log + [ReadDirEvent("/", 1, Ok([("a", ONE)]))]
  {
    hide ReaddirFromCache, StampAll, RealChildren, CM.Cache.RecordListing;
  }
}
