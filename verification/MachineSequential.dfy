/**
 The operations of the sequential store are runs of the machine: one thread, whose persists succeed and whose fetches
 begin on free slots. So what holds at every step of such runs holds while one of these operations is under way.
 */
module MachineSequential {
  import opened Base
  import opened Chunks
  import I = CacheIndex
  import CM = CacheModel
  import opened Machine

  /** Nothing is asked of versions, renames and crashes. */
  const SEQUENTIAL: Rules := Rules("/", false, false, false, false, true, false, true)

  ghost predicate Follows(s: Sys, s': Sys) {
    exists steps :: Runs(SEQUENTIAL, s, steps, s')
  }

  lemma {:induction false} Concat(rules: Rules, s: Sys, a: seq<Step>, s1: Sys, b: seq<Step>, s2: Sys)
    requires Runs(rules, s, a, s1) && Runs(rules, s1, b, s2)
    ensures Runs(rules, s, a + b, s2)
    decreases |a|
  {
    hide Enabled, Allowed, Apply;
    if a == [] {
      assert a + b == b;
    } else {
      Concat(rules, Apply(s, a[0]), a[1..], s1, b, s2);
      assert (a + b)[0] == a[0] && (a + b)[1..] == a[1..] + b;
    }
  }

  lemma Then(s: Sys, s1: Sys, s2: Sys)
    requires Follows(s, s1) && Follows(s1, s2)
    ensures Follows(s, s2)
  {
    hide Runs;
    var a :| Runs(SEQUENTIAL, s, a, s1);
    var b :| Runs(SEQUENTIAL, s1, b, s2);
    Concat(SEQUENTIAL, s, a, s1, b, s2);
  }

  lemma Once(s: Sys, a: Step)
    requires Enabled(s, a) && Allowed(SEQUENTIAL, s, a)
    ensures Follows(s, Apply(s, a))
  {
    hide Enabled, Allowed, Apply;
    assert Runs(SEQUENTIAL, Apply(s, a), [], Apply(s, a));
    assert Runs(SEQUENTIAL, s, [a], Apply(s, a));
  }

  lemma Stay(s: Sys)
    ensures Follows(s, s)
  {
    assert Runs(SEQUENTIAL, s, [], s);
  }

  // ---- States of a single thread -----------------------------------------------

  /** The machine is in the state of the sequential store, with at most one fetch under way. */
  ghost predicate During(s: Sys, c: CM.Cache, fetch: Option<Fetch>) {
    && s.chunkSize == c.chunkSize && s.index == c.index && s.saved == c.saved && s.disk == c.disk
    && s.readers == map[] && s.window == None
    && s.fetches == (if fetch.Some? then map[0 := fetch.value] else map[])
  }

  /** From every state that shows `c` the machine can go on to one that shows `c'`. */
  ghost predicate Reaches(c: CM.Cache, c': CM.Cache) {
    forall s :: During(s, c, None) ==> exists s' :: Follows(s, s') && During(s', c', None)
  }

  lemma SameReached(c: CM.Cache)
    ensures Reaches(c, c)
  {
    hide Follows, During;
    forall s | During(s, c, None) ensures exists s' :: Follows(s, s') && During(s', c, None) { Stay(s); }
  }

  lemma ReachesThen(c: CM.Cache, c1: CM.Cache, c2: CM.Cache)
    requires Reaches(c, c1) && Reaches(c1, c2)
    ensures Reaches(c, c2)
  {
    hide Follows, During;
    forall s | During(s, c, None)
      ensures exists s' :: Follows(s, s') && During(s', c2, None)
    {
      var s1 :| Follows(s, s1) && During(s1, c1, None);
      var s2 :| Follows(s1, s2) && During(s2, c2, None);
      Then(s, s1, s2);
    }
  }

  // ---- Sections ----------------------------------------------------------------

  lemma {:induction false} Deletes(s: Sys, objects: set<ObjectId>)
    requires objects <= s.doomed
    ensures Follows(s, s.(disk := s.disk - objects))
    decreases |objects|
  {
    if objects == {} {
      assert s.disk - objects == s.disk;
      Stay(s);
    } else {
      hide Follows;
      var o :| o in objects;
      var s1 := s.(disk := s.disk - {o});
      Once(s, Delete(o));
      Deletes(s1, objects - {o});
      assert s1.disk - (objects - {o}) == s.disk - objects;
      assert |objects - {o}| < |objects|;
      Then(s, s1, s.(disk := s.disk - objects));
    }
  }

  /** A section is one step of the machine, and one more for each object it gives up. */
  lemma SectionReaches(c: CM.Cache, a: Step, c': CM.Cache)
    requires IsSection(a) && a.persisted
    requires var r := Section(c.index, a);
      c' == CM.Cache(c.chunkSize, r.0, if Saves(c.index, a) then r.0 else c.saved, c.disk - r.1)
    ensures Reaches(c, c')
  {
    hide Section, Saves, Follows;
    forall s | During(s, c, None)
      ensures exists s' :: Follows(s, s') && During(s', c', None)
    {
      Once(s, a);
      var s1 := Apply(s, a);
      Deletes(s1, Section(s.index, a).1);
      Then(s, s1, s1.(disk := s1.disk - Section(s.index, a).1));
    }
  }

  lemma PutAttrsReaches(c: CM.Cache, p: Path, attrs: FileAttributes)
    ensures Reaches(c, c.PutAttrs(p, attrs))
  {
    SectionReaches(c, PutAttrs(p, attrs, true), c.PutAttrs(p, attrs));
  }

  lemma RecordListingReaches(c: CM.Cache, dir: Path, children: seq<(string, FileAttributes)>)
    ensures Reaches(c, c.RecordListing(dir, children))
  {
    hide I.RecordListing;
    SectionReaches(c, RecordListing(dir, children, true), c.RecordListing(dir, children));
  }

  lemma InvalidateChildrenReaches(c: CM.Cache, p: Path)
    ensures Reaches(c, c.InvalidateChildren(p))
  {
    assert p !in c.index.listings ==> c.index.listings - {p} == c.index.listings;
    assert c.disk - {} == c.disk;
    SectionReaches(c, InvalidateChildren(p, true), c.InvalidateChildren(p));
  }

  lemma RemoveReaches(c: CM.Cache, p: Path)
    ensures Reaches(c, c.Remove(p))
  {
    assert p !in c.index.listings ==> c.index.listings - {p} == c.index.listings;
    assert p !in c.index.entries ==> c.index.entries - {p} == c.index.entries && I.Held(c.index, p) == {};
    assert c.disk - {} == c.disk;
    SectionReaches(c, Remove(p, true), c.Remove(p));
  }

  lemma InvalidateContentReaches(c: CM.Cache, p: Path)
    ensures Reaches(c, c.InvalidateContent(p))
  {
    assert c.disk - {} == c.disk;
    SectionReaches(c, InvalidateContent(p, true), c.InvalidateContent(p));
  }

  /** Renaming is a section too, with nothing being fetched. */
  lemma RenameReaches(c: CM.Cache, from: Path, to: Path)
    ensures Reaches(c, c.Rename(from, to))
  {
    hide I.Rename, Follows, Displaced;
    forall s | During(s, c, None)
      ensures exists s' :: Follows(s, s') && During(s', c.Rename(from, to), None)
    {
      Once(s, Rename(from, to, true));
      var s1 := Apply(s, Rename(from, to, true));
      Deletes(s1, I.Rename(s.index, from, to).1);
      Then(s, s1, s1.(disk := s1.disk - I.Rename(s.index, from, to).1));
    }
  }

  lemma ReopenReaches(c: CM.Cache, cs: nat)
    ensures Reaches(c, c.Reopen(cs))
  {
    hide Follows, I.Owned;
    forall s | During(s, c, None)
      ensures exists s' :: Follows(s, s') && During(s', c.Reopen(cs), None)
    {
      Once(s, Crash(cs));
    }
  }

  // ---- Fetches -----------------------------------------------------------------

  /** No answer is longer than what was asked for. */
  ghost predicate Fitting(events: seq<CM.ReadEvent>) {
    forall e :: e in events && e.reply.Ok? ==> |e.reply.value| <= e.want
  }

  /** A file that answers a read at `at` with `data`. */
  function FileWith(at: nat, data: Bytes): RemoteFile { RemoteFile(seq(at, _ => 0) + data, None) }

  lemma Answered(f: Fetch, cs: nat, data: Bytes)
    requires Start(f, cs) <= f.attrs.size && |f.data| <= Length(f, cs)
    requires |data| <= Min(Length(f, cs) - |f.data|, U32_LIMIT - 1)
    ensures Available(f, cs, FileWith(Start(f, cs) + |f.data|, data)) == data
  {
    hide Length, Start;
  }

  /** One answer of the remote: the file becomes one that gives it, and the download receives it. */
  lemma Receives(s: Sys, c: CM.Cache, f: Fetch, data: Bytes) returns (s': Sys)
    requires During(s, c, Some(f)) && !f.placed
    requires Start(f, c.chunkSize) <= f.attrs.size && |f.data| < Length(f, c.chunkSize)
    requires 0 < |data| <= Min(Length(f, c.chunkSize) - |f.data|, U32_LIMIT - 1)
    ensures Follows(s, s') && During(s', c, Some(f.(data := f.data + data)))
  {
    hide Follows;
    var file := FileWith(Start(f, c.chunkSize) + |f.data|, data);
    Answered(f, c.chunkSize, data);
    hide Available, Length, Start, FileWith;
    Once(s, Change(f.path, file));
    var s1 := Apply(s, Change(f.path, file));
    Once(s1, Receive(0, |data|));
    s' := Apply(s1, Receive(0, |data|));
    assert data[..|data|] == data;
    Then(s, s1, s');
  }

  /** The remote answers with no bytes: the download ends early. */
  lemma EndsEarly(s: Sys, c: CM.Cache, f: Fetch) returns (s': Sys)
    requires During(s, c, Some(f)) && !f.placed
    requires Start(f, c.chunkSize) <= f.attrs.size && |f.data| <= Length(f, c.chunkSize)
    ensures Follows(s, s') && During(s', c.(disk := c.disk[f.obj := f.data]), Some(f.(placed := true)))
  {
    hide Follows;
    var file := FileWith(Start(f, c.chunkSize) + |f.data|, []);
    Answered(f, c.chunkSize, []);
    hide Available, Length, Start, FileWith;
    Once(s, Change(f.path, file));
    var s1 := Apply(s, Change(f.path, file));
    Once(s1, Place(0));
    s' := Apply(s1, Place(0));
    Then(s, s1, s');
  }

  lemma EndsFull(s: Sys, c: CM.Cache, f: Fetch) returns (s': Sys)
    requires During(s, c, Some(f)) && !f.placed
    requires Start(f, c.chunkSize) <= f.attrs.size && |f.data| == Length(f, c.chunkSize)
    ensures Follows(s, s') && During(s', c.(disk := c.disk[f.obj := f.data]), Some(f.(placed := true)))
  {
    hide Follows, Available, Length, Start;
    Once(s, Place(0));
    s' := Apply(s, Place(0));
  }

  /** The download loop, whatever the remote answers. */
  lemma {:induction false} Downloads(s: Sys, c: CM.Cache, f: Fetch, script: CM.Script) returns (s': Sys)
    requires During(s, c, Some(f)) && !f.placed
    requires Start(f, c.chunkSize) <= f.attrs.size && |f.data| <= Length(f, c.chunkSize)
    requires Fitting(CM.Download(f.path, Start(f, c.chunkSize), Length(f, c.chunkSize), f.data, script).events)
    ensures Follows(s, s')
    ensures var d := CM.Download(f.path, Start(f, c.chunkSize), Length(f, c.chunkSize), f.data, script);
      if d.outcome.Ok? then
        During(s', c.(disk := c.disk[f.obj := d.outcome.value]), Some(f.(data := d.outcome.value, placed := true)))
      else During(s', c, None)
    decreases Length(f, c.chunkSize) - |f.data|
  {
    hide Follows, During, CM.Download;
    var cs, len := c.chunkSize, Length(f, c.chunkSize);
    CM.DownloadStep(f.path, Start(f, cs), len, f.data, script);
    var d := CM.Download(f.path, Start(f, cs), len, f.data, script);
    if |f.data| == len {
      s' := EndsFull(s, c, f);
    } else {
      assert d.events[0] in d.events;
      var reply := CM.NextReply(script);
      if reply.Err? {
        s' := Aborts(s, c, f);
      } else if reply.value == [] {
        s' := EndsEarly(s, c, f);
      } else {
        var s1 := Receives(s, c, f, reply.value);
        var g := f.(data := f.data + reply.value);
        SameShape(f, g, cs);
        var d' := CM.Download(f.path, Start(f, cs), len, g.data, CM.RestOf(script));
        assert forall e :: e in d'.events ==> e in d.events;
        s' := Downloads(s1, c, g, CM.RestOf(script));
        Then(s, s1, s');
      }
    }
  }

  lemma SameShape(f: Fetch, g: Fetch, cs: nat)
    requires g.chunk == f.chunk && g.attrs == f.attrs
    ensures Start(g, cs) == Start(f, cs)
    ensures Start(f, cs) <= f.attrs.size ==> Length(g, cs) == Length(f, cs)
  {
  }

  lemma Aborts(s: Sys, c: CM.Cache, f: Fetch) returns (s': Sys)
    requires During(s, c, Some(f)) && !f.placed
    ensures Follows(s, s') && During(s', c, None)
  {
    hide Follows;
    Once(s, Abort(0));
    s' := Apply(s, Abort(0));
  }

  /** A commit into a free slot replaces nothing: it is over in two steps. */
  lemma Commits(s: Sys, c: CM.Cache, f: Fetch) returns (s': Sys)
    requires During(s, c, Some(f)) && f.placed
    requires I.FreeSlot(c.index, c.chunkSize, f.path, VersionOf(f.attrs), f.chunk)
    ensures Follows(s, s')
    ensures During(s', c.Settle(I.Commit(c.index, f.path, f.attrs, c.chunkSize, f.chunk, f.obj)), None)
  {
    I.CommitReplaces(c.index, f.path, f.attrs, c.chunkSize, f.chunk, f.obj);
    assert I.Commit(c.index, f.path, f.attrs, c.chunkSize, f.chunk, f.obj).1 == {};
    hide Follows, I.Commit, I.FreeSlot;
    Once(s, Commit(0));
    var s1 := Apply(s, Commit(0));
    Once(s1, FinishCommit(true));
    s' := Apply(s1, FinishCommit(true));
    assert c.disk - {} == c.disk;
    Then(s, s1, s');
  }

  lemma FetchReaches(c: CM.Cache, p: Path, attrs: FileAttributes, chunk: nat, script: CM.Script)
    requires chunk * c.chunkSize < attrs.size && I.FreeSlot(c.index, c.chunkSize, p, VersionOf(attrs), chunk)
    requires Fitting(c.FetchChunk(p, attrs, chunk, script).events)
    ensures Reaches(c, c.FetchChunk(p, attrs, chunk, script).cache)
  {
    hide Follows, CM.Download;
    var obj := c.index.nextObject;
    var c1 := c.(index := c.index.(nextObject := obj + 1));
    var f := Fetch(p, attrs, chunk, obj, [], false);
    var d := CM.Download(p, chunk * c.chunkSize, ChunkLength(attrs.size, c.chunkSize, chunk), [], script);
    forall s | During(s, c, None)
      ensures exists s' :: Follows(s, s') && During(s', c.FetchChunk(p, attrs, chunk, script).cache, None)
    {
      Once(s, Begin(0, p, attrs, chunk));
      var s1 := Apply(s, Begin(0, p, attrs, chunk));
      var s2 := Downloads(s1, c1, f, script);
      Then(s, s1, s2);
      if d.outcome.Ok? {
        var data := d.outcome.value;
        var s3 := Commits(s2, c1.(disk := c1.disk[obj := data]), f.(data := data, placed := true));
        Then(s, s2, s3);
      }
    }
  }

  // ---- Readers -----------------------------------------------------------------

  /** A reader of the range opened in this state, with the chunks before `upto` read. */
  ghost function ReaderAt(c: CM.Cache, p: Path, offset: nat, end: nat, upto: nat, out: Bytes): Reader
    requires I.Content(c.index, p).Some?
  {
    var content := I.Content(c.index, p).value;
    Reader(p, content.version, content.chunks, offset, end, upto, out)
  }

  lemma {:induction false} ReadsTo(s: Sys, c: CM.Cache, p: Path, offset: nat, end: nat, upto: nat)
    requires During(s, c, None) && offset < end
    requires I.Content(c.index, p).Some? && I.Content(c.index, p).value.chunkSize == c.chunkSize
    requires FirstChunk(offset, c.chunkSize) <= upto <= LastChunk(end, c.chunkSize) + 1
    requires c.Collect(I.Content(c.index, p).value.chunks, offset, end, upto).Ok?
    ensures var out := c.Collect(I.Content(c.index, p).value.chunks, offset, end, upto).value;
      Follows(s, s.(readers := map[0 := ReaderAt(c, p, offset, end, upto, out)]))
    decreases upto
  {
    hide Follows, I.Content, PieceLow, PieceHigh, Piece, FirstChunk, LastChunk;
    var chunks := I.Content(c.index, p).value.chunks;
    var out := c.Collect(chunks, offset, end, upto).value;
    var s' := s.(readers := map[0 := ReaderAt(c, p, offset, end, upto, out)]);
    if upto == FirstChunk(offset, c.chunkSize) {
      Once(s, OpenRange(0, p, offset, end));
      assert s' == Apply(s, OpenRange(0, p, offset, end));
    } else {
      ReadsTo(s, c, p, offset, end, upto - 1);
      var front := c.Collect(chunks, offset, end, upto - 1).value;
      var s1 := s.(readers := map[0 := ReaderAt(c, p, offset, end, upto - 1, front)]);
      Once(s1, ReadNext(0));
      assert s' == Apply(s1, ReadNext(0));
      Then(s, s1, s');
    }
  }

  /**
   The steps of a range read by one thread return what the sequential store reads: whenever that succeeds, the machine's
   reader gets to its end, with the same bytes.
   */
  lemma RangeReads(s: Sys, c: CM.Cache, p: Path, offset: nat, end: nat) returns (s': Sys)
    requires During(s, c, None) && offset < end && c.ReadRange(p, offset, end).Ok?
    ensures Follows(s, s') && 0 in s'.readers && s' == s.(readers := s'.readers)
    ensures s'.readers[0].path == p && s'.readers[0].offset == offset && s'.readers[0].end == end
    ensures s'.readers[0].next == LastChunk(end, c.chunkSize) + 1
    ensures Ok(s'.readers[0].out) == c.ReadRange(p, offset, end)
  {
    hide Follows, I.Content, FirstChunk, LastChunk, CM.Cache.Collect;
    InRange(offset, end, c.chunkSize, 0);
    var last := LastChunk(end, c.chunkSize);
    ReadsTo(s, c, p, offset, end, last + 1);
    var out := c.Collect(I.Content(c.index, p).value.chunks, offset, end, last + 1).value;
    s' := s.(readers := map[0 := ReaderAt(c, p, offset, end, last + 1, out)]);
  }
}
